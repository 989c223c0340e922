/**
  Primitive types and the error values of the `data` package.

  Go strings are byte strings and `len` counts bytes, so the user-supplied
  strings of the model are byte sequences. Field keys and messages of the
  validator are string literals in the Go code and stay `string` here.
*/
module Primitives {

  type byte = x: int | 0 <= x < 256

  type Bytes = seq<byte>

  /** A Mongo `primitive.ObjectID`; `NilObjectId` is the zero identifier. */
  type ObjectId = nat

  const NilObjectId: ObjectId := 0

  /** Instants and durations in nanoseconds, as Go's `time.Duration` counts them. */
  type Time = int

  const Hour: Time := 3_600_000_000_000

  /** The errors that reach the core: the sentinels of the `data` package and
      the failures of the collaborators it calls. */
  datatype Error =
    | RecordNotFound   // data.ErrRecordNotFound
    | EditConflict     // data.ErrEditConflict
    | DuplicateEmail   // data.ErrDuplicateEmail, named by the registration handler
    | DuplicateKey(index: string)  // a unique index of the datastore refused the write
    | NotObjectId      // "could not convert to ObjectID" in UserModel.Insert
    | Transport(code: int)  // any other datastore failure: timeout, network, ...
    | Entropy          // the randomness source could not supply bytes
    | Codec            // the password codec failed

  /** An error the datastore driver itself can return: a refused write or a
      transport failure, never one of the `data` package's sentinels. */
  predicate DriverError(e: Error)
  {
    e.Transport? || e.DuplicateKey?
  }
}
