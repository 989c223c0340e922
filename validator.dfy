/**
  The request validator the handlers and the `data` package fill in: a map
  from field key to message. The `validator` package itself is not part of
  this model; as in the conventional Go validator it follows, `AddError`
  keeps the first message recorded under a key, and `Check` adds its message
  only when its condition fails.
*/
module Validator {

  import opened Wrappers

  /** One `v.Check(ok, key, message)` call, as a value: a rule and whether it held. */
  datatype Rule = Rule(ok: bool, key: string, message: string)

  /** The errors after `v.AddError(key, message)`: the first message wins. */
  function WithError(errors: map<string, string>, key: string, message: string): (r: map<string, string>)
    ensures key in r && r[key] == (if key in errors then errors[key] else message)
    ensures r.Keys == errors.Keys + {key}
    ensures forall k :: k in errors ==> k in r && r[k] == errors[k]
  {
    if key in errors then errors else errors[key := message]
  }

  /** The errors after one check: its message is added when it fails. */
  function Step(errors: map<string, string>, c: Rule): map<string, string>
  {
    if c.ok then errors else WithError(errors, c.key, c.message)
  }

  /** The errors after running `checks` in order on a validator holding `errors`. */
  function Apply(errors: map<string, string>, checks: seq<Rule>): map<string, string>
    decreases |checks|
  {
    if checks == [] then errors
    else Apply(Step(errors, checks[0]), checks[1..])
  }

  /** Running the checks from position `i` on: the check at `i`, then the rest. */
  lemma ApplyFrom(errors: map<string, string>, checks: seq<Rule>, i: nat)
    requires i < |checks|
    ensures Apply(errors, checks[i..]) == Apply(Step(errors, checks[i]), checks[i + 1..])
  {
    assert checks[i..][0] == checks[i];
    assert checks[i..][1..] == checks[i + 1..];
  }

  /** The message of the first failing check under `key`, if any. */
  function FirstFailure(checks: seq<Rule>, key: string): Option<string>
  {
    if checks == [] then None
    else if !checks[0].ok && checks[0].key == key then Some(checks[0].message)
    else FirstFailure(checks[1..], key)
  }

  lemma {:induction false} FirstFailureConcat(first: seq<Rule>, second: seq<Rule>, key: string)
    ensures FirstFailure(first + second, key) ==
      if FirstFailure(first, key).Some? then FirstFailure(first, key) else FirstFailure(second, key)
  {
    if first != [] {
      assert (first + second)[0] == first[0];
      assert (first + second)[1..] == first[1..] + second;
      FirstFailureConcat(first[1..], second, key);
    } else {
      assert first + second == second;
    }
  }

  /** Every check runs, whatever the earlier ones found: a key ends up in the
      errors exactly when it was there already or some check under it failed,
      and it holds the message recorded first. */
  lemma {:induction false} ApplyCollectsFailures(errors: map<string, string>, checks: seq<Rule>, key: string)
    ensures key in Apply(errors, checks) <==> key in errors || FirstFailure(checks, key).Some?
    ensures key in Apply(errors, checks) ==>
      Apply(errors, checks)[key] == if key in errors then errors[key] else FirstFailure(checks, key).value
    decreases |checks|
  {
    if checks != [] {
      var c := checks[0];
      ApplyCollectsFailures(if c.ok then errors else WithError(errors, c.key, c.message), checks[1..], key);
    }
  }

  /** Running checks never drops a recorded error, and adds keys only of failing checks. */
  lemma {:induction false} ApplyKeys(errors: map<string, string>, checks: seq<Rule>)
    ensures errors.Keys <= Apply(errors, checks).Keys
    ensures forall k :: k in Apply(errors, checks) && k !in errors ==>
      exists i :: 0 <= i < |checks| && !checks[i].ok && checks[i].key == k
    decreases |checks|
  {
    if checks != [] {
      var c := checks[0];
      var next := if c.ok then errors else WithError(errors, c.key, c.message);
      ApplyKeys(next, checks[1..]);
      forall k | k in Apply(errors, checks) && k !in errors
        ensures exists i :: 0 <= i < |checks| && !checks[i].ok && checks[i].key == k
      {
        if k in next {
          assert !checks[0].ok && checks[0].key == k;
        } else {
          var i :| 0 <= i < |checks[1..]| && !checks[1..][i].ok && checks[1..][i].key == k;
          assert checks[i + 1] == checks[1..][i];
        }
      }
    }
  }

  /** A fresh validator stays valid exactly when every check passes. */
  lemma {:induction false} ApplyValidIff(checks: seq<Rule>)
    ensures Apply(map[], checks) == map[] <==> forall i :: 0 <= i < |checks| ==> checks[i].ok
  {
    if checks != [] {
      ApplyValidIff(checks[1..]);
      if !checks[0].ok {
        ApplyKeys(WithError(map[], checks[0].key, checks[0].message), checks[1..]);
        assert checks[0].key in Apply(map[], checks);
      } else {
        assert forall i :: 1 <= i < |checks| ==> checks[i] == checks[1..][i - 1];
      }
    }
  }

  /** The `validator.Validator` object a handler creates and passes around. */
  class Validator {
    var errors: map<string, string>

    /** validator.New(): no errors yet. */
    constructor ()
      ensures errors == map[]
    {
      errors := map[];
    }

    /** v.Valid(): no error has been recorded. */
    function Valid(): (ok: bool)
      reads this
      ensures ok <==> |errors| == 0
    {
      errors == map[]
    }

    method AddError(key: string, message: string)
      modifies this
      ensures errors == WithError(old(errors), key, message)
    {
      if key !in errors {
        errors := errors[key := message];
      }
    }

    /** v.Check(ok, key, message) */
    method Check(ok: bool, key: string, message: string)
      modifies this
      ensures errors == Step(old(errors), Rule(ok, key, message))
    {
      if !ok {
        AddError(key, message);
      }
    }
  }
}
