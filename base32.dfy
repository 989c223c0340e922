/**
  Base32 as `generateToken` uses it: the alphabet of section 6 of RFC 4648,
  with the padding characters left out as section 3.2 of RFC 4648 allows
  (`base32.StdEncoding.WithPadding(base32.NoPadding)` in Go).

  The encoding is stated on bit strings: the input's bits, most significant
  first, extended with zero bits to a multiple of five, read five bits per
  symbol. `DecodeNoPadding` is a reference inverse used to show that the
  encoding loses nothing.
*/
module Base32 {

  import opened Wrappers
  import opened Primitives

  /** The 32 symbols of section 6 of RFC 4648, in value order. */
  const Alphabet: string := "ABCDEFGHIJKLMNOPQRSTUVWXYZ234567"

  type Bit = b: int | 0 <= b < 2

  function Pow2(n: nat): (r: nat)
    ensures r >= 1
  {
    if n == 0 then 1 else 2 * Pow2(n - 1)
  }

  /** The `width` low bits of `x`, most significant first. */
  function ToBits(x: nat, width: nat): (bits: seq<Bit>)
    ensures |bits| == width
  {
    if width == 0 then [] else ToBits(x / 2, width - 1) + [x % 2]
  }

  /** The number whose binary digits, most significant first, are `bits`. */
  function FromBits(bits: seq<Bit>): (x: nat)
    ensures x < Pow2(|bits|)
  {
    if bits == [] then 0 else 2 * FromBits(bits[..|bits| - 1]) + bits[|bits| - 1]
  }

  lemma {:induction false} FromToBits(x: nat, width: nat)
    requires x < Pow2(width)
    ensures FromBits(ToBits(x, width)) == x
  {
    if width > 0 {
      FromToBits(x / 2, width - 1);
      assert ToBits(x, width)[..width - 1] == ToBits(x / 2, width - 1);
    }
  }

  lemma {:induction false} ToFromBits(bits: seq<Bit>)
    ensures ToBits(FromBits(bits), |bits|) == bits
  {
    if bits != [] {
      var n := |bits|;
      ToFromBits(bits[..n - 1]);
      assert bits == bits[..n - 1] + [bits[n - 1]];
    }
  }

  /** The bits of `data`, eight per byte, most significant first. */
  function BytesToBits(data: Bytes): (bits: seq<Bit>)
    ensures |bits| == 8 * |data|
  {
    if data == [] then [] else ToBits(data[0], 8) + BytesToBits(data[1..])
  }

  /** The bytes whose bits are `bits`. */
  function BitsToBytes(bits: seq<Bit>): (data: Bytes)
    requires |bits| % 8 == 0
    ensures |data| == |bits| / 8
  {
    if bits == [] then [] else [FromBits(bits[..8])] + BitsToBytes(bits[8..])
  }

  lemma {:induction false} BitsToBytesToBits(data: Bytes)
    ensures BitsToBytes(BytesToBits(data)) == data
  {
    if data != [] {
      var bits := BytesToBits(data);
      assert bits[..8] == ToBits(data[0], 8);
      assert bits[8..] == BytesToBits(data[1..]);
      FromToBits(data[0], 8);
      BitsToBytesToBits(data[1..]);
    }
  }

  /** The symbol of a 5-bit value. */
  function Symbol(v: nat): (c: byte)
    requires v < 32
  {
    if v < 26 then 65 + v else 24 + v
  }

  /** The 5-bit value a symbol stands for; `None` for a byte outside the alphabet. */
  function SymbolValue(c: byte): (v: Option<nat>)
    ensures v.Some? ==> v.value < 32 && Symbol(v.value) == c
  {
    if 65 <= c <= 90 then Some(c - 65)
    else if 50 <= c <= 55 then Some(c - 24)
    else None
  }

  /** `Symbol` is the table of section 6 of RFC 4648, and `SymbolValue` reads it back. */
  lemma SymbolTable(v: nat)
    requires v < 32
    ensures Symbol(v) == Alphabet[v] as int
    ensures SymbolValue(Symbol(v)) == Some(v)
  {
  }

  predicate IsSymbol(c: byte)
  {
    SymbolValue(c).Some?
  }

  /** A byte is a symbol exactly when it is one of the alphabet's characters. */
  lemma IsSymbolIff(c: byte)
    ensures IsSymbol(c) <==> exists i :: 0 <= i < |Alphabet| && Alphabet[i] as int == c
  {
    if IsSymbol(c) {
      var v := SymbolValue(c).value;
      SymbolTable(v);
    } else if i :| 0 <= i < |Alphabet| && Alphabet[i] as int == c {
      SymbolTable(i);
      assert false;
    }
  }

  function Zeros(n: nat): (bits: seq<Bit>)
    ensures |bits| == n
  {
    seq(n, _ => 0)
  }

  /** The zero bits that complete `n` bits to whole symbols. */
  function PadBits(n: nat): (p: nat)
    ensures p < 5 && (n + p) % 5 == 0
  {
    (5 - n % 5) % 5
  }

  /** One symbol per five bits. */
  function Symbols(bits: seq<Bit>): (s: Bytes)
    requires |bits| % 5 == 0
    ensures |s| == |bits| / 5
    ensures forall i :: 0 <= i < |s| ==> IsSymbol(s[i])
  {
    if bits == [] then []
    else
      var v := FromBits(bits[..5]);
      SymbolTable(v);
      [Symbol(v)] + Symbols(bits[5..])
  }

  /** The bits the symbols of `s` stand for, five per symbol; `None` if some byte is not a symbol. */
  function SymbolBits(s: Bytes): (r: Option<seq<Bit>>)
    ensures r.Some? ==> |r.value| == 5 * |s|
  {
    if s == [] then Some([])
    else match (SymbolValue(s[0]), SymbolBits(s[1..]))
      case (Some(v), Some(rest)) => Some(ToBits(v, 5) + rest)
      case _ => None
  }

  lemma {:induction false} SymbolBitsOfSymbols(bits: seq<Bit>)
    requires |bits| % 5 == 0
    ensures SymbolBits(Symbols(bits)) == Some(bits)
  {
    if bits != [] {
      var v := FromBits(bits[..5]);
      SymbolTable(v);
      ToFromBits(bits[..5]);
      SymbolBitsOfSymbols(bits[5..]);
      var s := Symbols(bits);
      assert s[0] == Symbol(v) && s[1..] == Symbols(bits[5..]);
      assert bits == bits[..5] + bits[5..];
    }
  }

  /** base32.StdEncoding.WithPadding(base32.NoPadding).EncodeToString(data) */
  function EncodeNoPadding(data: Bytes): (s: Bytes)
    ensures |s| == (8 * |data| + 4) / 5
    ensures forall i :: 0 <= i < |s| ==> IsSymbol(s[i])
  {
    var bits := BytesToBits(data);
    Symbols(bits + Zeros(PadBits(|bits|)))
  }

  /** Reads an unpadded string back: the whole bytes its symbols' bits hold. */
  function DecodeNoPadding(s: Bytes): (r: Option<Bytes>)
    ensures r.Some? ==> |r.value| == 5 * |s| / 8
  {
    match SymbolBits(s)
    case None => None
    case Some(bits) => Some(BitsToBytes(bits[..|bits| / 8 * 8]))
  }

  /** Encoding loses nothing: decoding gives the input back. */
  lemma DecodeEncode(data: Bytes)
    ensures DecodeNoPadding(EncodeNoPadding(data)) == Some(data)
  {
    var bits := BytesToBits(data);
    var padded := bits + Zeros(PadBits(|bits|));
    SymbolBitsOfSymbols(padded);
    WholeBytesOfPadded(|data|, PadBits(|bits|));
    assert padded[..|bits|] == bits;
    BitsToBytesToBits(data);
  }

  /** Fewer than five padding bits never complete another byte. */
  lemma WholeBytesOfPadded(n: nat, p: nat)
    requires p < 5
    ensures (8 * n + p) / 8 * 8 == 8 * n
  {
    assert (8 * n + p) / 8 == n;
  }

  /** Different inputs never encode to the same string. */
  lemma EncodeInjective(a: Bytes, b: Bytes)
    requires EncodeNoPadding(a) == EncodeNoPadding(b)
    ensures a == b
  {
    DecodeEncode(a);
    DecodeEncode(b);
  }

  /** The `i`-th symbol stands for the `i`-th group of five bits. */
  lemma {:induction false} SymbolAt(bits: seq<Bit>, i: nat)
    requires |bits| % 5 == 0 && i < |bits| / 5
    ensures Symbols(bits)[i] == Symbol(16 * (bits[5 * i] as nat) + 8 * (bits[5 * i + 1] as nat) + 4 * (bits[5 * i + 2] as nat)
                                        + 2 * (bits[5 * i + 3] as nat) + bits[5 * i + 4] as nat)
  {
    if i == 0 {
      FromBitsFive(bits[..5]);
    } else {
      SymbolAt(bits[5..], i - 1);
    }
  }

  /** The value of five bits, most significant first. */
  lemma FromBitsFive(bits: seq<Bit>)
    requires |bits| == 5
    ensures FromBits(bits) == 16 * (bits[0] as nat) + 8 * (bits[1] as nat) + 4 * (bits[2] as nat) + 2 * (bits[3] as nat) + bits[4] as nat
  {
    assert bits[..4][..3] == bits[..3];
    assert bits[..3][..2] == bits[..2];
    assert bits[..2][..1] == bits[..1];
    assert bits[..1][..0] == [];
    assert FromBits(bits[..1]) == bits[0] as int;
    assert FromBits(bits[..2]) == 2 * (bits[0] as int) + bits[1] as int;
    assert FromBits(bits[..3]) == 4 * (bits[0] as int) + 2 * (bits[1] as int) + bits[2] as int;
    assert FromBits(bits[..4]) == 8 * (bits[0] as int) + 4 * (bits[1] as int) + 2 * (bits[2] as int) + bits[3] as int;
  }

  /** The RFC 4648 section 10 test vector BASE32("f") = "MY", without its padding. */
  lemma EncodeF()
    ensures EncodeNoPadding([102]) == [77, 89]
  {
    var bits: seq<Bit> := [0, 1, 1, 0, 0, 1, 1, 0, 0, 0];
    assert ToBits(102, 8) == [0, 1, 1, 0, 0, 1, 1, 0];
    assert BytesToBits([102]) + Zeros(2) == bits;
    var s := EncodeNoPadding([102]);
    SymbolAt(bits, 0);
    assert s[0] == 77;
    SymbolAt(bits, 1);
  }

  /** Sixteen bytes, the size of a token's random part, always give 26 symbols. */
  lemma SixteenBytesGive26Symbols(data: Bytes)
    requires |data| == 16
    ensures |EncodeNoPadding(data)| == 26
  {
  }
}
