/** Asking the daemon for a resource across the wire: the request record and what an answer means. */
module Ownership {
  import opened IarmTypes
  import opened Names
  import opened Bytes
  import opened Rpc
  import opened Delivery
  import opened DaemonSpec
  import EventSpec

  /** How the exchange goes: answered, or broken before or after the daemon's handler ran. */
  datatype Transport = Delivered | NotDelivered | ReplyLost | ReplyGarbled

  /** What the caller's blocking call observes; a daemon that meets a NULL requestor replies no more. */
  function Observed(s: State, e: Event, t: Transport): Ipc {
    if t == NotDelivered || t == ReplyLost || !Defined(s, e) then NoReply
    else if t == ReplyGarbled then Garbled
    else Answered
  }

  // Offsets in the request record: the requestor's name, the resource, the result; and its size.
  const NAME_AT: nat := 36
  const RESOURCE_AT: nat := 104
  const RESULT_AT: nat := 108
  const REQUEST_SIZE: nat := 112

  /** A request record over fresh memory: only name, resource and result are set. */
  function RequestBytes(mem: seq<byte>, name: Name, resource: int): (bs: seq<byte>)
    requires |mem| == REQUEST_SIZE && IsText(name) && IsInt32(resource)
    ensures |bs| == REQUEST_SIZE
  {
    mem[..NAME_AT] + NameBytes(name) + mem[NAME_AT + MAX_NAME_LEN..RESOURCE_AT]
    + IntBytes(resource) + IntBytes(SUCCESS)
  }

  /** What a member's call asks of the daemon. */
  function Asking(name: Name, release: bool, resource: int, answer: Code): Event {
    if release then Release(name, resource) else Request(name, resource, answer)
  }

  /** The event that a request record stands for. */
  function EventIn(buf: seq<byte>, release: bool, answer: Code): Event
    requires |buf| == REQUEST_SIZE
  {
    var name := Trunc(TextOf(buf[NAME_AT..NAME_AT + MAX_NAME_LEN]), MAX_NAME_LEN - 1);
    var resource := IntAt(buf, RESOURCE_AT);
    Asking(name, release, resource, answer)
  }

  /** The daemon's ownership handlers on bytes: the result goes into the record too. */
  function Handle(s: State, release: bool, answer: Code, buf: seq<byte>): (r: (seq<byte>, Code))
    requires IsInt32(answer)
    ensures |r.0| == |buf| && IsInt32(r.1)
  {
    if |buf| != REQUEST_SIZE then (buf, INVALID_PARAM)
    else
      var code := Reply(s, EventIn(buf, release, answer));
      (buf[..RESULT_AT] + IntBytes(code), code)
  }

  function Handler(s: State, release: bool, answer: Code): (m: Method)
    requires IsInt32(answer)
    ensures Total(m)
  {
    (buf: seq<byte>) => Handle(s, release, answer, buf)
  }

  /** The daemon reads from the record what the client wrote, and the client reads the reply back. */
  lemma HandlerOnRequest(s: State, release: bool, answer: Code, mem: seq<byte>, name: Name, resource: int)
    requires IsInt32(answer) && |mem| == REQUEST_SIZE && IsText(name) && IsInt32(resource)
    ensures var e := if release then Release(name, resource) else Request(name, resource, answer);
            var (out, code) := Handler(s, release, answer)(RequestBytes(mem, name, resource));
            code == Reply(s, e) && |out| == REQUEST_SIZE && IntAt(out, RESULT_AT) == Reply(s, e)
  {
    var buf := RequestBytes(mem, name, resource);
    assert buf[NAME_AT..NAME_AT + MAX_NAME_LEN] == NameBytes(name);
    NameRoundTrip(name);
    assert buf[RESOURCE_AT..RESOURCE_AT + 4] == IntBytes(resource);
    IntRoundTrip(buf, RESOURCE_AT, resource);
    var code := Reply(s, EventIn(buf, release, answer));
    var out := buf[..RESULT_AT] + IntBytes(code);
    assert out[RESULT_AT..RESULT_AT + 4] == IntBytes(code);
    IntRoundTrip(out, RESULT_AT, code);
  }

  // The first calls of a starting daemon publish the two ownership methods, under handlers 1 and 2.
  const DAEMON_START: seq<EventSpec.Op> := [
    EventSpec.PublishEvents(DAEMON_NAME),
    EventSpec.PublishCall(DAEMON_NAME, "RequestOwnership", 1, true),
    EventSpec.PublishCall(DAEMON_NAME, "ReleaseOwnership", 2, true)]

  function MethodName(release: bool): Name {
    if release then "ReleaseOwnership" else "RequestOwnership"
  }

  /** The process `p` is a daemon in state `s`; whatever it did after its start does not matter. */
  ghost predicate IsDaemon(p: Peer, s: State, answer: Code)
    requires IsInt32(answer)
  {
    && IsPeer(p)
    && DAEMON_START <= p.ops
    && p.table(1) == Handler(s, false, answer)
    && p.table(2) == Handler(s, true, answer)
  }

  /** The daemon's published methods are its two ownership handlers. */
  lemma DaemonMethods(p: Peer, s: State, answer: Code, release: bool)
    requires IsInt32(answer) && IsDaemon(p, s, answer)
    ensures var i := if release then 2 else 1;
            && FirstIs(p.ops, i, if release then "ReleaseOwnership" else "RequestOwnership")
            && p.table(p.ops[i].handler) == Handler(s, release, answer)
    ensures MethodName(release) == if release then "ReleaseOwnership" else "RequestOwnership"
  {
    assert p.ops[0] == DAEMON_START[0] && p.ops[1] == DAEMON_START[1] && p.ops[2] == DAEMON_START[2];
  }

  /** The untouched result field of a request that was never answered. */
  lemma UnansweredResult(mem: seq<byte>, name: Name, resource: int)
    requires |mem| == REQUEST_SIZE && IsText(name) && IsInt32(resource)
    ensures IntAt(RequestBytes(mem, name, resource), RESULT_AT) == SUCCESS
  {
    var buf := RequestBytes(mem, name, resource);
    assert buf[RESULT_AT..RESULT_AT + 4] == IntBytes(SUCCESS);
    IntRoundTrip(buf, RESULT_AT, SUCCESS);
  }

  /** What the client's call returns. */
  function Outcome(s: State, e: Event, t: Transport): Code {
    match Observed(s, e, t)
    case Answered => Reply(s, e)
    case NoReply => INVALID_STATE
    case Garbled => INVALID_PARAM
  }

  /** Which code the client gets: the daemon's if its answer comes through, and otherwise the transport's. */
  lemma OutcomeCodes(s: State, e: Event, t: Transport)
    ensures t == Delivered && Defined(s, e) ==> Outcome(s, e, t) == Reply(s, e)
    ensures t == ReplyGarbled && Defined(s, e) ==> Outcome(s, e, t) == INVALID_PARAM
    ensures t == NotDelivered || t == ReplyLost || !Defined(s, e) ==> Outcome(s, e, t) == INVALID_STATE
  {
  }

  /** Through the call's own code and the record's result field the client reads that outcome. */
  lemma ClientReads(p: Peer, s: State, release: bool, answer: Code, mem: seq<byte>, name: Name, resource: int,
                    t: Transport)
    requires IsInt32(answer) && IsDaemon(p, s, answer)
    requires |mem| == REQUEST_SIZE && IsText(name) && IsInt32(resource)
    ensures var e := if release then Release(name, resource) else Request(name, resource, answer);
            var req := RequestBytes(mem, name, resource);
            var i := if release then 2 else 1;
            var ipc := Observed(s, e, t);
            && Asking(name, release, resource, answer) == e
            && FirstIs(p.ops, i, MethodName(release))
            && if Completes(DAEMON_NAME, MethodName(release), REQUEST_SIZE, p, ipc) then
                 var (out, ret) := p.table(p.ops[i].handler)(req);
                 ret == Outcome(s, e, t) && |out| == REQUEST_SIZE && IntAt(out, RESULT_AT) == ret
               else
                 && CallCode(DAEMON_NAME, MethodName(release), REQUEST_SIZE, p, ipc) == Outcome(s, e, t)
                 && IntAt(req, RESULT_AT) == SUCCESS
  {
    DaemonMethods(p, s, answer, release);
    CallCodes(DAEMON_NAME, MethodName(release), REQUEST_SIZE, p, Observed(s, Asking(name, release, resource, answer), t));
    HandlerOnRequest(s, release, answer, mem, name, resource);
    UnansweredResult(mem, name, resource);
  }

  /** The daemon's history once the exchange is over. */
  function After(es: seq<Event>, e: Event, t: Transport): seq<Event> {
    if t == NotDelivered then es else es + [e]
  }

  /**
     The client is told success exactly if the answer came through and the resource was free, or the
     client is registered and another member could be asked and yielded. Then that member, whoever it
     was, did agree, and the grant is the daemon's latest and only one; but a client that is not
     registered has been granted nothing.
   */
  lemma GrantEndToEnd(es: seq<Event>, n: Name, r: int, answer: Code, t: Transport)
    requires Legal(es) && IsResource(r)
    ensures var e := Request(n, r, answer);
            && (Outcome(Run(es), e, t) == SUCCESS <==> Grantable(es, n, r, answer, t))
            && (Outcome(Run(es), e, t) == SUCCESS ==> Granted(es, e))
  {
    GrantedWhen(es, n, r, answer);
    if Outcome(Run(es), Request(n, r, answer), t) == SUCCESS {
      GrantedWhat(es, n, r, answer);
    }
  }

  /** The answer comes through, and nobody holds the resource or another member yields it to a registered one. */
  ghost predicate Grantable(es: seq<Event>, n: Name, r: int, answer: Code, t: Transport) {
    t == Delivered && (Unheld(es, r) || (answer == SUCCESS && LastRegistered(es, n) && YieldsTo(es, n, r)))
  }

  /** What a request that was carried out leaves, and how it came about. */
  ghost predicate Granted(es: seq<Event>, e: Event)
    requires e.Request?
  {
    && (if LastRegistered(es, e.name) then Holds(es + [e], |es|, e.name, e.resource) else Unheld(es + [e], e.resource))
    && (forall i, m :: Holds(es + [e], i, m, e.resource) ==> m == e.name)
    && (forall i, m :: Holds(es, i, m, e.resource) ==> Asked(Run(es), e) == Some(m) && e.answer == SUCCESS)
  }

  lemma GrantedWhen(es: seq<Event>, n: Name, r: int, answer: Code)
    requires Legal(es) && IsResource(r)
    ensures var e := Request(n, r, answer);
            Defined(Run(es), e) && Reply(Run(es), e) == SUCCESS <==>
              Unheld(es, r) || (answer == SUCCESS && LastRegistered(es, n) && YieldsTo(es, n, r))
  {
    HolderIsOwner(es, r);
    RegistrationHistory(es, n);
    if Run(es).owner[r].Some? {
      OwnershipLedger(es, Run(es).owner[r].value, r);
    }
  }

  lemma GrantedWhat(es: seq<Event>, n: Name, r: int, answer: Code)
    requires Legal(es) && IsResource(r) && Defined(Run(es), Request(n, r, answer))
    requires Reply(Run(es), Request(n, r, answer)) == SUCCESS
    ensures Granted(es, Request(n, r, answer))
  {
    HolderIsOwner(es, r);
    GrantMeaning(es, n, r, answer);
    RunExtend(es, Request(n, r, answer));
    OnlyHolder(es + [Request(n, r, answer)], n, r);
  }

  /** Some other member holds the resource and can be asked for it. */
  ghost predicate YieldsTo(es: seq<Event>, n: Name, r: int) {
    exists i, m: Name :: Holds(es, i, m, r) && m != n && Addressable(m)
  }

  /** If the member holds the resource, or nobody does, then nobody else does. */
  lemma OnlyHolder(es: seq<Event>, n: Name, r: int)
    requires Legal(es) && IsResource(r)
    requires Unheld(es, r) || exists i :: Holds(es, i, n, r)
    ensures forall i, m :: Holds(es, i, m, r) ==> m == n
  {
    HolderIsOwner(es, r);
  }

  /** A release is reported as success exactly if the member held the resource; then nobody does. */
  lemma ReleaseEndToEnd(es: seq<Event>, n: Name, r: int, t: Transport)
    requires Legal(es) && IsResource(r)
    ensures var e := Release(n, r);
            && (Outcome(Run(es), e, t) == SUCCESS <==> t == Delivered && exists i :: Holds(es, i, n, r))
            && (Outcome(Run(es), e, t) == SUCCESS ==> Unheld(After(es, e, t), r))
  {
    OwnershipLedger(es, n, r);
    ReleasedWhen(Run(es), es, n, r);
    if Outcome(Run(es), Release(n, r), t) == SUCCESS {
      Released(es, n, r);
    }
  }

  lemma ReleasedWhen(s: State, es: seq<Event>, n: Name, r: int)
    requires s == Run(es) && IsResource(r)
    ensures Defined(s, Release(n, r)) && Reply(s, Release(n, r)) == SUCCESS <==> s.owner[r] == Some(n)
  {
    RunSound(es);
  }

  lemma Released(es: seq<Event>, n: Name, r: int)
    requires Legal(es) && IsResource(r) && Run(es).owner[r] == Some(n) && Defined(Run(es), Release(n, r))
    ensures Unheld(es + [Release(n, r)], r)
  {
    RunExtend(es, Release(n, r));
    HolderIsOwner(es + [Release(n, r)], r);
  }

  /** An ownership request changes the daemon exactly if a registered member's is carried out. */
  lemma ChangesState(s: State, e: Event)
    requires Sound(s) && Defined(s, e) && (e.Request? || e.Release?)
    ensures Next(s, e) == s <==> Reply(s, e) != SUCCESS || e.name !in s.members
  {
    if Reply(s, e) == SUCCESS {
      var now := if e.Request? && e.name in s.members then Some(e.name) else None;
      assert Next(s, e).owner == s.owner[e.resource := now];
      assert e.name in s.members <==> s.owner[e.resource] != now;
      if s.owner[e.resource] == now {
        assert s.owner[e.resource := now] == s.owner;
      }
    }
  }

  /**
     A call that fails has left the daemon as it was, unless its reply went missing after the daemon
     carried out the request of a registered member.
   */
  lemma FailureMeaning(es: seq<Event>, e: Event, t: Transport)
    requires Legal(es) && Defined(Run(es), e) && (e.Request? || e.Release?)
    requires Outcome(Run(es), e, t) != SUCCESS
    ensures Run(After(es, e, t)) == Run(es) <==>
              !(t.ReplyLost? || t.ReplyGarbled?) || Reply(Run(es), e) != SUCCESS || e.name !in Run(es).members
  {
    RunExtend(es, e);
    RunSound(es);
    ChangesState(Run(es), e);
  }

  /** A member that took a free resource owns it, and is told so unless the reply goes missing. */
  lemma LostGrant(es: seq<Event>, n: Name, r: int, answer: Code, t: Transport)
    requires Legal(es) && IsResource(r) && n in Run(es).members && Unheld(es, r)
    ensures var e := Request(n, r, answer);
            && (t != NotDelivered <==> Holds(After(es, e, t), |es|, n, r))
            && (t.ReplyLost? || t.ReplyGarbled? ==> Outcome(Run(es), e, t) != SUCCESS)
  {
    var e := Request(n, r, answer);
    HolderIsOwner(es, r);
    if t != NotDelivered {
      RegistrationHistory(es, n);
      GrantMeaning(es, n, r, answer);
    }
  }
}
