// The PN532 driver as the two scripts see it: opaque calls whose answers are
// given by oracle functions, and the values that flow through them.

module Driver {

  /** One byte of a key, a block payload or encoded text. */
  newtype byte = x: int | 0 <= x < 256

  datatype Option<T> = None | Some(value: T)

  /** How the key slot is named to `mifare_classic_authenticate_block`:
    * the symbol 'A'/'B', or the MIFARE command code 0x60/0x61. */
  datatype KeyType = Letter(c: char) | Code(n: byte)

  /** Whether the key type was passed as `key_type=kt` or as the third positional argument. */
  datatype CallStyle = Keyword | Positional

  /** One call of `mifare_classic_authenticate_block(block, key, kt)`. */
  datatype Call = Call(block: int, key: seq<byte>, keyType: KeyType, style: CallStyle)

  /** What one authentication call did: returned a value (its truthiness),
    * raised TypeError, or raised any other exception. */
  datatype Outcome = Returned(truthy: bool) | TypeErr | OtherErr

  /** A call together with what the driver answered. */
  datatype Attempt = Attempt(call: Call, outcome: Outcome)

  /** The authentication driver: the answer to every possible call. */
  type AuthDriver = Call -> Outcome

  /** What `mifare_classic_read_block(block)` did: returned data, returned None, or raised. */
  datatype ReadOutcome = Data(bytes: seq<byte>) | NoData | ReadErr

  type ReadDriver = int -> ReadOutcome

  /** What `mifare_classic_write_block(block, data)` did; its return value is ignored by the caller. */
  datatype WriteOutcome = Written | WriteErr

  type WriteDriver = (int, seq<byte>) -> WriteOutcome
}
