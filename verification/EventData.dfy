/** The event record that travels inside a signal, laid out as the C struct is. */
module EventData {
  import opened IarmTypes
  import opened Bytes

  /** Size of the record before its data: owner, id, padding, length. */
  const FIXED: nat := 80

  /** What a handler is given. */
  datatype Event = Event(owner: string, id: int, data: seq<byte>)

  /** The record written over fresh memory `mem`; four padding bytes keep what they held. */
  function Pack(mem: seq<byte>, owner: string, id: int, data: seq<byte>): (bs: seq<byte>)
    requires |mem| == FIXED + |data| && IsText(owner) && IsInt32(id)
    ensures |bs| == |mem|
  {
    NameBytes(owner) + IntBytes(id) + mem[68..72] + ToLE(|data|, 8) + data
  }

  /** The bytes hold a whole record. */
  predicate IsPacked(bs: seq<byte>) {
    FIXED <= |bs| && FIXED + SizeAt(bs, 72) <= |bs|
  }

  function Unpack(bs: seq<byte>): Event
    requires IsPacked(bs)
  {
    Event(TextOf(bs[..MAX_NAME_LEN]), IntAt(bs, 64), bs[FIXED..FIXED + SizeAt(bs, 72)])
  }

  /**
     What is left of a record after its size was cut to 32 bits can be read back exactly when the size
     fits; and it can be sent and read back exactly when it is an array that a message can hold.
   */
  lemma RoundTrip(mem: seq<byte>, owner: string, id: int, data: seq<byte>)
    requires |data| < TWO63 && |mem| == FIXED + |data| && IsText(owner) && IsInt32(id)
    ensures var sent := Pack(mem, owner, id, data)[..(FIXED + |data|) % TWO32];
            && (IsPacked(sent) <==> FIXED + |data| < TWO32)
            && (|sent| <= MAX_ARRAY && IsPacked(sent) <==> FIXED + |data| <= MAX_ARRAY)
            && (IsPacked(sent) ==> Unpack(sent) == Event(Trunc(owner, MAX_NAME_LEN - 1), id, data))
  {
    var all := Pack(mem, owner, id, data);
    var sent := all[..(FIXED + |data|) % TWO32];
    if FIXED <= |sent| {
      assert sent[72..80] == all[72..80] == ToLE(|data|, 8);
      SizeRoundTrip(sent, 72, |data|);
    }
    if FIXED + |data| < TWO32 {
      assert sent == all;
      assert all[..64] == NameBytes(owner);
      assert all[64..68] == IntBytes(id);
      NameRoundTrip(owner);
      IntRoundTrip(all, 64, id);
      assert all[80..] == data;
    }
  }
}
