/** Headers as configured and as listed (ngx_table_elt_t), and the room of the chunked list that holds them. */
module Entries {
  import opened Buffers

  datatype KeyVal = KeyVal(key: seq<Byte>, value: seq<Byte>)

  datatype Kv = Kv(hash: nat, key: seq<Byte>, value: seq<Byte>)

  /** A count that is not zero. */
  type Positive = n: nat | n > 0 witness 1

  /** The requests for memory that one more entry makes: a full last part asks for a new one, twice. */
  function PartNeeds(room: nat): nat {
    if room == 0 then 2 else 0
  }

  /** The room one more entry leaves in the last part. */
  function RoomAfterOne(room: nat, nalloc: Positive): nat {
    if room == 0 then nalloc - 1 else room - 1
  }
}
