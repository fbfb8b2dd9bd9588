/** A remote call as bytes: what is shipped, what the callee sees, what comes back. */
module Rpc {
  import opened IarmTypes
  import opened Names
  import opened Bytes
  import opened Delivery
  import opened EventSpec

  /** What the bus does with a call: the callee's reply comes, or none, or one of another shape. */
  datatype Ipc = Answered | NoReply | Garbled

  /** A callee's method: it rewrites the buffer it is given in place and returns a code. */
  type Method = seq<byte> -> (seq<byte>, Code)

  ghost predicate Total(m: Method) {
    forall buf :: |m(buf).0| == |buf| && IsInt32(m(buf).1)
  }

  /** The byte count put on the wire for a block: the header's size plus the header, in 32 bits. */
  function WireSize(size: nat): nat {
    (size % TWO32 + HEADER) % TWO32
  }

  /** IARM_CallWithTimeout's message: the count, then that many bytes from the block's header on. */
  function CallMessage(name: string, block: seq<byte>, size: nat): Message
    requires |block| == HEADER + size
  {
    MethodCall(name, [U32(WireSize(size)), Blob(block[..WireSize(size)])])
  }

  /** The bytes hold a header and everything that the header announces. */
  predicate IsWhole(bs: seq<byte>) {
    HEADER <= |bs| && HEADER + SizeAt(bs, 0) <= |bs|
  }

  /** _BusCall_FuncWrapper and IARM_CallReturn: run the method behind the header, reply its size. */
  function Answer(m: Method, bs: seq<byte>): seq<Arg>
    requires IsWhole(bs)
  {
    var (out, code) := m(bs[HEADER..HEADER + SizeAt(bs, 0)]);
    [I32(code), Blob(out)]
  }

  /** libdbus takes no longer array into a message. */
  predicate Sendable(size: nat) {
    WireSize(size) <= MAX_ARRAY
  }

  /**
     The callee finds the whole argument behind the header in what the 32-bit count leaves exactly when the
     size fits that count; sent and whole is what a message can hold.
   */
  lemma CalleeSeesArgument(name: string, block: seq<byte>, size: nat)
    requires size < TWO63 && IsBlock(block, size)
    ensures var bs := CallMessage(name, block, size).args[1].bs;
            && IsCallMessage(CallMessage(name, block, size))
            && (IsWhole(bs) <==> size + HEADER < TWO32)
            && (Sendable(size) && IsWhole(bs) <==> size + HEADER <= MAX_ARRAY)
            && (IsWhole(bs) ==> SizeAt(bs, 0) == size && bs[HEADER..HEADER + size] == block[HEADER..])
  {
    var bs := CallMessage(name, block, size).args[1].bs;
    BlockSize(block, size);
    if HEADER <= |bs| {
      assert bs[0..8] == block[0..8];
    }
    if size + HEADER < TWO32 {
      assert bs == block;
    }
  }

  /** In the callee the message runs the handler first published under its name, on that argument. */
  lemma CallReaches(ops: seq<Op>, name: string, block: seq<byte>, size: nat)
    requires size + HEADER < TWO32 && IsBlock(block, size)
    ensures var runs := Effects(Run(ops).contexts, Run(ops).filters, CallMessage(name, block, size));
            && (forall i | FirstIs(ops, i, name) :: runs == [MethodRun(ops[i].handler, block)])
            && (runs != [] ==> exists i :: FirstIs(ops, i, name))
  {
    var msg := CallMessage(name, block, size);
    assert WireSize(size) == |block| && msg.args[1].bs == block;
    CallRouting(ops, msg);
  }

  // ---------------------------------------------------------------- the process at the other end

  /** The calls that process made since it initialized, and the methods its handler numbers stand for. */
  datatype Peer = Peer(ops: seq<Op>, table: Handler -> Method)

  ghost predicate IsPeer(p: Peer) {
    forall h :: Total(p.table(h))
  }

  /** The method that process first published under a name. */
  function MethodOf(p: Peer, name: string): Option<Method> {
    match FirstNamed(Published(p.ops), name)
    case None => None
    case Some(h) => Some(p.table(h))
  }

  lemma MethodIs(p: Peer, name: string)
    ensures forall i | FirstIs(p.ops, i, name) :: MethodOf(p, name) == Some(p.table(p.ops[i].handler))
    ensures MethodOf(p, name).Some? <==> exists i :: FirstIs(p.ops, i, name)
  {
    FirstPublishedIs(p.ops, name);
  }

  /** What that process replies to a call: nothing, if its filters run no method. */
  function Respond(p: Peer, msg: Message): Option<seq<Arg>>
    requires IsCallMessage(msg) && IsWhole(msg.args[1].bs)
  {
    var b := Run(p.ops);
    CallChain(b.contexts, b.filters, msg);
    var runs := Effects(b.contexts, b.filters, msg);
    if runs == [] then None else Some(Answer(p.table(runs[0].handler), runs[0].arg))
  }

  /**
     Whatever else the callee listens for or published: the reply to a remote call is the first method
     published under its name applied to the caller's argument, same length; without one there is none.
   */
  lemma RemoteIsLocal(p: Peer, name: string, block: seq<byte>, size: nat)
    requires size + HEADER < TWO32 && IsBlock(block, size) && IsPeer(p)
    ensures var msg := CallMessage(name, block, size);
            && IsWhole(msg.args[1].bs)
            && (forall i | FirstIs(p.ops, i, name) ::
                  var (out, code) := p.table(p.ops[i].handler)(block[HEADER..]);
                  Respond(p, msg) == Some([I32(code), Blob(out)]) && |out| == size)
            && (Respond(p, msg).Some? <==> exists i :: FirstIs(p.ops, i, name))
  {
    CalleeSeesArgument(name, block, size);
    CallReaches(p.ops, name, block, size);
    BlockSize(block, size);
    assert block[HEADER..HEADER + size] == block[HEADER..];
  }

  /**
     The core's code for a call: not sent, not replied to, replied to in another shape, or completed. A
     callee that reads past the end of what was shipped replies no more.
   */
  function CallCode(owner: string, name: string, size: nat, p: Peer, ipc: Ipc): (code: Code)
    ensures code == SUCCESS ==> size + HEADER <= MAX_ARRAY && Addressable(owner) && MethodOf(p, name).Some?
  {
    if !Addressable(owner) || !Sendable(size) then INVALID_PARAM
    else if ipc.NoReply? || size + HEADER > MAX_ARRAY || MethodOf(p, name).None? then INVALID_STATE
    else if ipc.Garbled? then INVALID_PARAM
    else SUCCESS
  }

  /** That process has published something under the name. */
  ghost predicate Offers(p: Peer, name: string) {
    exists i :: FirstIs(p.ops, i, name)
  }

  /** The call can be addressed and sent, there is a method to run, and its reply comes back. */
  ghost predicate Completes(owner: string, name: string, size: nat, p: Peer, ipc: Ipc) {
    |owner| <= 50 && size + 16 <= 0x400_0000 && Offers(p, name) && ipc == Answered
  }

  /** When a call completes, and the code of every call that does not. */
  lemma CallCodes(owner: string, name: string, size: nat, p: Peer, ipc: Ipc)
    ensures var code := CallCode(owner, name, size, p, ipc);
            && (code == SUCCESS <==> Completes(owner, name, size, p, ipc))
            && (Completes(owner, name, size, p, ipc) <==>
                  |owner| <= 50 && size + 16 <= 0x400_0000 && Offers(p, name) && ipc == Answered)
            && (|owner| > 50 || WireSize(size) > 0x400_0000 ==> code == INVALID_PARAM)
            && (|owner| <= 50 && WireSize(size) <= 0x400_0000 && (ipc == NoReply || !Offers(p, name)) ==> code == INVALID_STATE)
            && (|owner| <= 50 && WireSize(size) <= 0x400_0000 < size + 16 ==> code == INVALID_STATE)
            && (|owner| <= 50 && size + 16 <= 0x400_0000 && Offers(p, name) && ipc == Garbled ==> code == INVALID_PARAM)
  {
    MethodIs(p, name);
  }
}
