/** The parts of package `codec` that the storage layer relies on: the
    mutable `Entry` record and the value-pointer functions (whose code is not
    part of this model, so they are parameters). */
module Codec {
  import opened Base

  /** The contents of an entry at one moment. */
  datatype Record = Record(key: Bytes, value: Bytes, expiresAt: nat)

  /** codec.Entry: a heap record shared by pointer. Its value is overwritten
      in place by DB.Set when the value is moved to the value log. */
  class Entry {
    const key: Bytes
    var value: Bytes
    var expiresAt: nat

    constructor (key: Bytes, value: Bytes, expiresAt: nat)
      ensures this.key == key && this.value == value && this.expiresAt == expiresAt
    {
      this.key := key;
      this.value := value;
      this.expiresAt := expiresAt;
    }

    /** What the entry holds now. */
    function Snapshot(): (r: Record)
      reads this
      ensures r.key == key && r.value == value && r.expiresAt == expiresAt
    {
      Record(key, value, expiresAt)
    }
  }

  /** The value-pointer functions of package `codec`, whose code is not part
      of this model: `utils.ValueSize`, `NewValuePtr` followed by
      `ValuePtrCodec`, and `IsValuePtr`. */
  datatype ValueCodec = ValueCodec(
    valueSize: Bytes -> int,
    encodePtr: Record -> Bytes,
    isValuePtr: Record -> bool)
}
