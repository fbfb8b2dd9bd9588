/** From a message on the wire to the callbacks it runs: the filter chain and the fan-out loop. */
module Delivery {
  import opened IarmTypes
  import opened Lists
  import opened Bytes
  import opened EventSpec
  import EventData

  /** One typed argument of a message. */
  datatype Arg = U32(n: nat) | I32(v: int) | Str(s: string) | Blob(bs: seq<byte>)

  /** A signal or a method call on the bus's own interfaces, or anything else. */
  datatype Message = Signal(args: seq<Arg>) | MethodCall(member: string, args: seq<Arg>) | Foreign

  /** What one filter does with a message; the last two end the chain. */
  datatype Reaction = Pass | Notify(record: seq<byte>) | Serve(handler: Handler, arg: seq<byte>) | Swallow

  /** A callback that was run. */
  datatype Invocation =
    | HandlerRun(handler: Handler, event: EventData.Event)
    | MethodRun(handler: Handler, arg: seq<byte>)

  /** dbusCallHandler; a filter's user data is told apart by its constructor. */
  function React(f: FilterInfo, msg: Message): Reaction {
    match msg
    case Signal(args) =>
      if f.CallFilter? then Pass
      else if |args| < 1 || !args[0].U32? then Pass
      else if args[0].n != f.key.id then Pass
      else if |args| < 2 || !args[1].Str? then Pass
      else if Trunc(args[1].s, MAX_NAME_LEN) != Trunc(f.key.owner, MAX_NAME_LEN) then Pass
      else if |args| < 3 || !args[2].U32? then Pass
      else if |args| < 4 || !args[3].Blob? then Pass
      else Notify(args[3].bs)
    case MethodCall(member, args) =>
      if f.EventFilter? || member != f.callName then Pass
      else if |args| < 1 || !args[0].U32? then Pass
      else if |args| < 2 || !args[1].Blob? then Pass
      else Serve(f.handler, args[1].bs)
    case Foreign => Swallow
  }

  /** _EventHandler_FuncWrapper: run every handler of the record's key, in list order. */
  function FanOut(cs: seq<Context>, e: EventData.Event): seq<Invocation> {
    if cs == [] then []
    else (if cs[0].key == Key(e.owner, e.id) && cs[0].handler != 0 then [HandlerRun(cs[0].handler, e)] else [])
         + FanOut(cs[1..], e)
  }

  lemma {:induction false} FanOutNext(cs: seq<Context>, c: Context, e: EventData.Event)
    ensures FanOut(cs + [c], e) ==
              FanOut(cs, e) + if c.key == Key(e.owner, e.id) && c.handler != 0 then [HandlerRun(c.handler, e)] else []
  {
    if cs == [] {
      assert cs + [c] == [c] && [c][1..] == [];
    } else {
      assert (cs + [c])[1..] == cs[1..] + [c];
      FanOutNext(cs[1..], c, e);
    }
  }

  /** A signal whose payload, if it has one, is a whole event record. */
  predicate Readable(msg: Message) {
    msg.Signal? && |msg.args| >= 4 && msg.args[3].Blob? ==> EventData.IsPacked(msg.args[3].bs)
  }

  /** Everything one incoming message runs, down the chain of filters. */
  function Effects(cs: seq<Context>, fs: seq<FilterInfo>, msg: Message): seq<Invocation>
    requires Readable(msg)
  {
    if fs == [] then []
    else match React(fs[0], msg)
      case Pass => Effects(cs, fs[1..], msg)
      case Notify(record) => FanOut(cs, EventData.Unpack(record)) + Effects(cs, fs[1..], msg)
      case Serve(h, arg) => [MethodRun(h, arg)]
      case Swallow => []
  }

  // ---------------------------------------------------------------- signals

  /** A signal in the layout that the library sends. */
  predicate IsEventSignal(msg: Message) {
    && msg.Signal? && |msg.args| >= 4
    && msg.args[0].U32? && msg.args[1].Str? && msg.args[2].U32? && msg.args[3].Blob?
    && EventData.IsPacked(msg.args[3].bs)
  }

  /** The listener key that a signal addresses. */
  function SignalKey(msg: Message): Key
    requires IsEventSignal(msg)
  {
    Key(Trunc(msg.args[1].s, MAX_NAME_LEN), msg.args[0].n)
  }

  lemma {:induction false} ListenerCount(fs: seq<FilterInfo>, k: Key)
    ensures multiset(ListenersOf(fs))[k] == multiset(fs)[EventFilter(k)]
  {
    if fs != [] {
      var g, f := fs[..|fs|-1], fs[|fs|-1];
      assert fs == g + [f];
      ListenersNext(g, f);
      ListenerCount(g, k);
    }
  }

  /** `n` copies of a sequence, one after the other. */
  function Times<T>(s: seq<T>, n: nat): (r: seq<T>)
    ensures n == 1 ==> r == s
    ensures s == [] ==> r == []
  {
    if n == 0 then [] else s + Times(s, n - 1)
  }

  lemma {:induction false} TimesLength<T>(s: seq<T>, n: nat)
    requires s != []
    ensures |Times(s, n)| >= n && (Times(s, n) == s <==> n == 1)
  {
    if n > 1 {
      TimesLength(s, n - 1);
      assert |Times(s, n)| > |s|;
    }
  }

  /** The filter listens for a key: names are compared up to the size of a buffer. */
  predicate Listens(f: FilterInfo, k: Key) {
    f.EventFilter? && f.key.id == k.id && Trunc(f.key.owner, MAX_NAME_LEN) == k.owner
  }

  function Listening(fs: seq<FilterInfo>, k: Key): nat {
    if fs == [] then 0 else (if Listens(fs[0], k) then 1 else 0) + Listening(fs[1..], k)
  }

  /** Down any chain of filters a signal reaches every listener for its key, each fanning out once. */
  lemma {:induction false} SignalReachesAll(cs: seq<Context>, fs: seq<FilterInfo>, msg: Message)
    requires IsEventSignal(msg)
    ensures Effects(cs, fs, msg) == Times(FanOut(cs, EventData.Unpack(msg.args[3].bs)), Listening(fs, SignalKey(msg)))
  {
    if fs != [] {
      SignalReachesAll(cs, fs[1..], msg);
    }
  }

  lemma {:induction false} ListeningCount(fs: seq<FilterInfo>, k: Key)
    requires forall f | f in fs && f.EventFilter? :: |f.key.owner| <= MAX_NAME_LEN
    ensures Listening(fs, k) == multiset(fs)[EventFilter(k)]
  {
    if fs != [] {
      assert fs == [fs[0]] + fs[1..];
      assert fs[0] in fs && forall f :: f in fs[1..] ==> f in fs;
      ListeningCount(fs[1..], k);
      assert Listens(fs[0], k) <==> fs[0] == EventFilter(k);
    }
  }

  /** The handler runs of one event. */
  function Runs(hs: seq<Handler>, e: EventData.Event): seq<Invocation> {
    seq(|hs|, i requires 0 <= i < |hs| => HandlerRun(hs[i], e))
  }

  lemma {:induction false} FanOutRuns(cs: seq<Context>, e: EventData.Event)
    requires forall c | c in cs :: c.handler != 0
    ensures FanOut(cs, e) == Runs(HandlersOf(cs, Key(e.owner, e.id)), e)
  {
    if cs != [] {
      assert forall c :: c in cs[1..] ==> c in cs;
      FanOutRuns(cs[1..], e);
    }
  }

  lemma {:induction false} HandlersNoDup(cs: seq<Context>, k: Key)
    requires NoDup(cs)
    ensures NoDup(HandlersOf(cs, k))
  {
    if cs != [] {
      HandlersNoDup(cs[1..], k);
      HandlersMember(cs[1..], k, cs[0].handler);
    }
  }

  lemma {:induction false} ListenerMember(fs: seq<FilterInfo>, k: Key)
    ensures k in ListenersOf(fs) <==> EventFilter(k) in fs
  {
    ListenerCount(fs, k);
    assert k in ListenersOf(fs) <==> k in multiset(ListenersOf(fs));
    assert EventFilter(k) in fs <==> EventFilter(k) in multiset(fs);
  }

  /**
     After any run at all, whatever its names, ids and refused filters, an event runs the handlers of its
     record's key in list order, once for every registry entry that has the signal's key.
   */
  lemma DeliveryTimes(ops: seq<Op>, msg: Message)
    requires IsEventSignal(msg)
    ensures var b := Run(ops);
            var e := EventData.Unpack(msg.args[3].bs);
            var hs := HandlersOf(b.contexts, Key(e.owner, e.id));
            && Effects(b.contexts, b.filters, msg) == Times(Runs(hs, e), multiset(b.registry)[SignalKey(msg)])
            && NoDup(hs)
  {
    var b := Run(ops);
    var e := EventData.Unpack(msg.args[3].bs);
    RunCoherent(ops);
    HandlersNoDup(b.contexts, Key(e.owner, e.id));
    forall f | f in b.filters && f.EventFilter? ensures |f.key.owner| <= MAX_NAME_LEN {
      ListenerMember(b.filters, f.key);
    }
    SignalReachesAll(b.contexts, b.filters, msg);
    ListeningCount(b.filters, SignalKey(msg));
    ListenerCount(b.filters, SignalKey(msg));
    FanOutRuns(b.contexts, e);
  }

  /**
     Counted: each handler listed for the record's key is run on the event as often as the registry has the
     signal's key, and nothing else is run.
   */
  lemma DeliveryCounts(ops: seq<Op>, msg: Message, x: Invocation)
    requires IsEventSignal(msg)
    ensures var b := Run(ops);
            var e := EventData.Unpack(msg.args[3].bs);
            multiset(Effects(b.contexts, b.filters, msg))[x] ==
              if x.HandlerRun? && x.event == e && Context(Key(e.owner, e.id), x.handler) in b.contexts
              then multiset(b.registry)[SignalKey(msg)] else 0
  {
    var b := Run(ops);
    var e := EventData.Unpack(msg.args[3].bs);
    var k := Key(e.owner, e.id);
    DeliveryTimes(ops, msg);
    TimesRunsCount(HandlersOf(b.contexts, k), e, multiset(b.registry)[SignalKey(msg)], x);
    if x.HandlerRun? {
      HandlersMember(b.contexts, k, x.handler);
    }
  }

  lemma TimesRunsCount(hs: seq<Handler>, e: EventData.Event, n: nat, x: Invocation)
    requires NoDup(hs)
    ensures multiset(Times(Runs(hs, e), n))[x] == if x.HandlerRun? && x.event == e && x.handler in hs then n else 0
  {
    RunsCount(hs, e, x);
    TimesCount(Runs(hs, e), n, x);
  }

  lemma {:induction false} TimesCount<T>(s: seq<T>, n: nat, x: T)
    requires multiset(s)[x] <= 1
    ensures multiset(Times(s, n))[x] == if x in s then n else 0
  {
    assert x in s <==> x in multiset(s);
    if n > 0 {
      TimesCount(s, n - 1, x);
      assert multiset(s + Times(s, n - 1)) == multiset(s) + multiset(Times(s, n - 1));
    }
  }

  lemma RunsCount(hs: seq<Handler>, e: EventData.Event, x: Invocation)
    requires NoDup(hs)
    ensures multiset(Runs(hs, e))[x] <= 1
    ensures x in Runs(hs, e) <==> x.HandlerRun? && x.event == e && x.handler in hs
  {
    var runs := Runs(hs, e);
    forall i, j | 0 <= i < j < |runs| ensures runs[i] != runs[j] {
      assert runs[i] == HandlerRun(hs[i], e) && runs[j] == HandlerRun(hs[j], e);
    }
    NoDupMultiset(runs);
    if x.HandlerRun? && x.event == e && x.handler in hs {
      var i :| 0 <= i < |hs| && hs[i] == x.handler;
      assert runs[i] == x;
    }
  }

  /** So delivery is exactly once when nobody handles the event or one registry entry has its key. */
  lemma OnceExactly(ops: seq<Op>, msg: Message)
    requires IsEventSignal(msg)
    ensures var b := Run(ops);
            var e := EventData.Unpack(msg.args[3].bs);
            var hs := HandlersOf(b.contexts, Key(e.owner, e.id));
            Effects(b.contexts, b.filters, msg) == Runs(hs, e) <==>
              hs == [] || multiset(b.registry)[SignalKey(msg)] == 1
  {
    var b := Run(ops);
    var e := EventData.Unpack(msg.args[3].bs);
    var hs := HandlersOf(b.contexts, Key(e.owner, e.id));
    DeliveryTimes(ops, msg);
    if hs != [] {
      TimesLength(Runs(hs, e), multiset(b.registry)[SignalKey(msg)]);
    }
  }

  /**
     At most once: after any run within the domain, even with refused filters, an event runs each
     handler registered for its key once if the key has its listener, and nothing otherwise.
   */
  lemma AtMostOnce(ops: seq<Op>, msg: Message)
    requires forall op | op in ops :: OpInDomain(op)
    requires IsEventSignal(msg)
    requires var e := EventData.Unpack(msg.args[3].bs);
             e.owner == Trunc(msg.args[1].s, MAX_NAME_LEN - 1) && e.id == msg.args[0].n
    ensures var b := Run(ops);
            var e := EventData.Unpack(msg.args[3].bs);
            var k := Key(msg.args[1].s, e.id);
            && Effects(b.contexts, b.filters, msg) == (if k in b.registry then Runs(HandlersOf(b.contexts, k), e) else [])
            && NoDup(HandlersOf(b.contexts, k))
  {
    var b := Run(ops);
    var e := EventData.Unpack(msg.args[3].bs);
    var k := Key(msg.args[1].s, e.id);
    DeliveryTimes(ops, msg);
    RunCoherent(ops);
    IndexAgreement(ops);
    HandlersNoDup(b.contexts, k);
    NoDupMultiset(b.registry);
    assert SignalKey(msg) in b.registry ==> |SignalKey(msg).owner| < MAX_NAME_LEN;
    assert k in b.registry ==> |k.owner| < MAX_NAME_LEN;
  }

  /**
     Exactly once: with every filter accepted as well, an event runs each handler then registered for
     its key once, newest first, and nothing else.
   */
  lemma ExactlyOnce(ops: seq<Op>, msg: Message)
    requires forall op | op in ops :: OpInDomain(op) && FilterAccepted(op)
    requires IsEventSignal(msg)
    requires var e := EventData.Unpack(msg.args[3].bs);
             e.owner == Trunc(msg.args[1].s, MAX_NAME_LEN - 1) && e.id == msg.args[0].n
    ensures var b := Run(ops);
            var e := EventData.Unpack(msg.args[3].bs);
            var hs := HandlersOf(b.contexts, Key(msg.args[1].s, e.id));
            && |Effects(b.contexts, b.filters, msg)| == |hs|
            && (forall i | 0 <= i < |hs| :: Effects(b.contexts, b.filters, msg)[i] == HandlerRun(hs[i], e))
            && NoDup(hs)
            && (forall h :: h in hs <==> Context(Key(msg.args[1].s, e.id), h) in b.contexts)
  {
    var b := Run(ops);
    var k := Key(msg.args[1].s, msg.args[0].n);
    AtMostOnce(ops, msg);
    IndexAgreement(ops);
    HandlersSome(b.contexts, k);
    forall h ensures h in HandlersOf(b.contexts, k) <==> Context(k, h) in b.contexts {
      HandlersMember(b.contexts, k, h);
    }
  }

  // ---------------------------------------------------------------- broadcasting

  /** IARM_NotifyEvent: the signal for a record, its size cut to 32 bits. */
  function EventSignal(owner: string, id: int, record: seq<byte>): Message
    requires IsEventId(id)
  {
    Signal([U32(id), Str(owner), U32(|record| % TWO32), Blob(record[..|record| % TWO32])])
  }

  /**
     Broadcasting end to end, after any run at all: what was sent reaches the handlers listed under the
     first 63 characters of the owner, once for every listener for its first 64.
   */
  lemma BroadcastTimes(ops: seq<Op>, mem: seq<byte>, owner: string, id: int, data: seq<byte>)
    requires IsText(owner) && IsEventId(id) && |mem| == EventData.FIXED + |data|
    requires EventData.FIXED + |data| < TWO32
    ensures var b := Run(ops);
            var msg := EventSignal(owner, id, EventData.Pack(mem, owner, id, data));
            var hs := HandlersOf(b.contexts, CoreKey(owner, id));
            && IsEventSignal(msg)
            && Effects(b.contexts, b.filters, msg)
               == Times(Runs(hs, EventData.Event(Trunc(owner, MAX_NAME_LEN - 1), id, data)),
                        multiset(b.registry)[Key(Trunc(owner, MAX_NAME_LEN), id)])
            && NoDup(hs)
  {
    EventData.RoundTrip(mem, owner, id, data);
    var msg := EventSignal(owner, id, EventData.Pack(mem, owner, id, data));
    DeliveryTimes(ops, msg);
  }

  /** In the domain what was sent reaches exactly the handlers of that owner and id, once each. */
  lemma BroadcastDelivers(ops: seq<Op>, mem: seq<byte>, owner: string, id: int, data: seq<byte>)
    requires forall op | op in ops :: OpInDomain(op) && FilterAccepted(op)
    requires IsText(owner) && IsEventId(id) && |mem| == EventData.FIXED + |data|
    requires EventData.FIXED + |data| < TWO32
    ensures var b := Run(ops);
            var msg := EventSignal(owner, id, EventData.Pack(mem, owner, id, data));
            var hs := HandlersOf(b.contexts, Key(owner, id));
            && IsEventSignal(msg)
            && Effects(b.contexts, b.filters, msg)
               == Runs(hs, EventData.Event(Trunc(owner, MAX_NAME_LEN - 1), id, data))
            && NoDup(hs)
  {
    EventData.RoundTrip(mem, owner, id, data);
    var msg := EventSignal(owner, id, EventData.Pack(mem, owner, id, data));
    ExactlyOnce(ops, msg);
  }

  lemma HandlersSingle(c: Context, k: Key)
    ensures HandlersOf([c], k) == if c.key == k then [c.handler] else []
  {
    assert [c][1..] == [];
  }

  lemma OneListed(owner: string, id: int, h: Handler, e: EventData.Event)
    requires IsEventId(id)
    ensures Times(Runs(HandlersOf([Context(ContextKey(owner, id), h)], CoreKey(owner, id)), e),
                  multiset([CoreKey(owner, id)])[Key(Trunc(owner, MAX_NAME_LEN), id)])
            == if InDomain(owner, id) then [HandlerRun(h, e)] else []
  {
    HandlersSingle(Context(ContextKey(owner, id), h), CoreKey(owner, id));
    if InDomain(owner, id) {
      DomainKeys(owner, id);
    } else {
      Unlistened(owner, id);
    }
  }

  /** After a first accepted registration a broadcast of that owner and id runs it iff it is in the domain. */
  lemma RegisteredIsReached(owner: string, id: int, h: Handler, mem: seq<byte>, data: seq<byte>)
    requires IsText(owner) && IsEventId(id) && h != 0 && |mem| == EventData.FIXED + |data|
    requires EventData.FIXED + |data| < TWO32
    ensures var b := Run([AddHandler(owner, id, h, true)]);
            var msg := EventSignal(owner, id, EventData.Pack(mem, owner, id, data));
            && IsEventSignal(msg)
            && Effects(b.contexts, b.filters, msg) ==
                 if InDomain(owner, id) then [HandlerRun(h, EventData.Event(owner, id, data))] else []
  {
    var ops := [AddHandler(owner, id, h, true)];
    FirstListed(owner, id, h);
    OneListed(owner, id, h, EventData.Event(Trunc(owner, MAX_NAME_LEN - 1), id, data));
    BroadcastTimes(ops, mem, owner, id, data);
  }

  lemma TwoListed(k: Key, k2: Key, h: Handler, h2: Handler)
    requires k != k2
    ensures HandlersOf([Context(k2, h2), Context(k, h)], k) == [h] && multiset([k, k])[k] == 2
  {
    HandlersCons(Context(k2, h2), [Context(k, h)], k);
    HandlersSingle(Context(k, h), k);
    assert [Context(k2, h2)] + [Context(k, h)] == [Context(k2, h2), Context(k, h)];
  }

  lemma RunTwice(hs: seq<Handler>, n: nat, h: Handler, e: EventData.Event)
    requires hs == [h] && n == 2
    ensures Times(Runs(hs, e), n) == [HandlerRun(h, e), HandlerRun(h, e)]
  {
    var s := Runs(hs, e);
    assert s == [HandlerRun(h, e)];
    assert Times(s, 2) == s + Times(s, 1);
  }

  /**
     Owners are compared on 64 characters when handlers are listed and on 63 when listeners are: a
     handler of a 63-character owner runs twice once a longer owner that starts with it is handled too.
   */
  lemma DoubleDelivery(a: string, c: char, id: int, h: Handler, h2: Handler, mem: seq<byte>, data: seq<byte>)
    requires IsText(a) && |a| == MAX_NAME_LEN - 1 && 0 <= id < 128 && h != 0 && h2 != 0
    requires |mem| == EventData.FIXED + |data| && EventData.FIXED + |data| < TWO32
    ensures var b := Run([AddHandler(a, id, h, true), AddHandler(a + [c], id, h2, true)]);
            var msg := EventSignal(a, id, EventData.Pack(mem, a, id, data));
            var e := EventData.Event(a, id, data);
            IsEventSignal(msg) && Effects(b.contexts, b.filters, msg) == [HandlerRun(h, e), HandlerRun(h, e)]
  {
    var ops := [AddHandler(a, id, h, true), AddHandler(a + [c], id, h2, true)];
    var k, k2 := Key(a, id), Key(a + [c], id);
    assert ContextKey(a, id) == k == CoreKey(a, id) == CoreKey(a + [c], id) && ContextKey(a + [c], id) == k2;
    SecondListed(a, a + [c], id, h, h2);
    TwoListed(k, k2, h, h2);
    BroadcastTimes(ops, mem, a, id, data);
    var b := Run(ops);
    RunTwice(HandlersOf(b.contexts, k), multiset(b.registry)[k], h, EventData.Event(a, id, data));
  }

  // ---------------------------------------------------------------- method calls

  /** The handler of the earliest call filter with a given name. */
  function FirstNamed(fs: seq<FilterInfo>, name: string): Option<Handler> {
    if fs == [] then None
    else if fs[0].CallFilter? && fs[0].callName == name then Some(fs[0].handler)
    else FirstNamed(fs[1..], name)
  }

  lemma {:induction false} FirstNamedAppend(fs: seq<FilterInfo>, f: FilterInfo, name: string)
    ensures FirstNamed(fs + [f], name) ==
              if FirstNamed(fs, name).Some? then FirstNamed(fs, name) else FirstNamed([f], name)
  {
    if fs == [] {
      assert fs + [f] == [f];
    } else {
      assert (fs + [f])[1..] == fs[1..] + [f];
      FirstNamedAppend(fs[1..], f, name);
    }
  }

  predicate IsCallMessage(msg: Message) {
    msg.MethodCall? && |msg.args| >= 2 && msg.args[0].U32? && msg.args[1].Blob?
  }

  lemma {:induction false} CallChain(cs: seq<Context>, fs: seq<FilterInfo>, msg: Message)
    requires IsCallMessage(msg)
    ensures Effects(cs, fs, msg) ==
              match FirstNamed(fs, msg.member)
              case None => []
              case Some(h) => [MethodRun(h, msg.args[1].bs)]
  {
    if fs != [] {
      CallChain(cs, fs[1..], msg);
    }
  }

  /** The calls a run has published, oldest first. */
  function Published(ops: seq<Op>): seq<FilterInfo> {
    if ops == [] then []
    else
      var op := ops[|ops|-1];
      Published(ops[..|ops|-1]) + if op.PublishCall? && op.filterOk then [CallFilter(op.call, op.handler)] else []
  }

  /** The call is an accepted publication under that name. */
  predicate Publishes(op: Op, name: string) {
    op.PublishCall? && op.filterOk && op.call == name
  }

  /** Call `i` of the run is the first publication under that name. */
  ghost predicate FirstIs(ops: seq<Op>, i: int, name: string) {
    0 <= i < |ops| && Publishes(ops[i], name) && forall j | 0 <= j < i :: !Publishes(ops[j], name)
  }

  lemma FirstIsNext(g: seq<Op>, op: Op, i: nat, name: string)
    requires i <= |g|
    ensures FirstIs(g + [op], i, name) <==>
              if i < |g| then FirstIs(g, i, name) else Publishes(op, name) && !AnyPublishes(g, name)
  {
    var ops := g + [op];
    assert ops[|g|] == op && forall j | 0 <= j < |g| :: ops[j] == g[j];
  }

  predicate AnyPublishes(ops: seq<Op>, name: string) {
    exists j :: 0 <= j < |ops| && Publishes(ops[j], name)
  }

  lemma PublishedNext(ops: seq<Op>, op: Op, name: string)
    ensures FirstNamed(Published(ops + [op]), name) ==
              if FirstNamed(Published(ops), name).Some? then FirstNamed(Published(ops), name)
              else if Publishes(op, name) then Some(op.handler) else None
  {
    assert (ops + [op])[..|ops|] == ops;
    if op.PublishCall? && op.filterOk {
      FirstNamedAppend(Published(ops), CallFilter(op.call, op.handler), name);
    } else {
      assert Published(ops + [op]) == Published(ops);
    }
  }

  lemma {:induction false} FirstPublishedIs(ops: seq<Op>, name: string)
    ensures FirstNamed(Published(ops), name).Some? <==> AnyPublishes(ops, name)
    ensures FirstNamed(Published(ops), name).Some? <==> exists i :: FirstIs(ops, i, name)
    ensures forall i | FirstIs(ops, i, name) :: FirstNamed(Published(ops), name) == Some(ops[i].handler)
  {
    if ops != [] {
      var g, op := ops[..|ops|-1], ops[|ops|-1];
      assert ops == g + [op];
      FirstPublishedIs(g, name);
      PublishedNext(g, op, name);
      forall i: nat | i <= |g|
        ensures FirstIs(ops, i, name) <==>
                  if i < |g| then FirstIs(g, i, name) else Publishes(op, name) && !AnyPublishes(g, name)
      {
        FirstIsNext(g, op, i, name);
      }
      FirstOrLast(g, op, name);
    }
  }

  lemma FirstOrLast(g: seq<Op>, op: Op, name: string)
    ensures AnyPublishes(g + [op], name) <==> AnyPublishes(g, name) || Publishes(op, name)
    ensures (exists i :: FirstIs(g, i, name)) ==> exists i :: FirstIs(g + [op], i, name)
    ensures Publishes(op, name) && !AnyPublishes(g, name) ==> FirstIs(g + [op], |g|, name)
  {
    var ops := g + [op];
    assert ops[|g|] == op && forall j | 0 <= j < |g| :: ops[j] == g[j];
    if j :| 0 <= j < |g| && Publishes(g[j], name) {
      assert Publishes(ops[j], name);
    }
    if i :| FirstIs(g, i, name) {
      FirstIsNext(g, op, i, name);
    }
    FirstIsNext(g, op, |g|, name);
  }

  lemma {:induction false} RemoveLastOther<T(!new)>(s: seq<T>, x: T, p: T -> bool)
    requires !p(x)
    ensures Filter(RemoveLast(s, x), p) == Filter(s, p)
  {
    if s != [] {
      var g, l := s[..|s|-1], s[|s|-1];
      assert s == g + [l];
      FilterAppend(g, [l], p);
      if l != x {
        RemoveLastOther(g, x, p);
        FilterAppend(RemoveLast(g, x), [l], p);
      } else {
        assert [l][1..] == [];
        assert Filter([l], p) == [];
      }
    }
  }

  const IS_CALL: FilterInfo -> bool := (f: FilterInfo) => f.CallFilter?

  lemma FilterOne(f: FilterInfo)
    ensures Filter([f], IS_CALL) == if f.CallFilter? then [f] else []
  {
    assert [f][1..] == [];
  }

  lemma ListenCalls(b: Bus, owner: string, id: int, ok: bool)
    ensures Filter(Listen(b, owner, id, ok).0.filters, IS_CALL) == Filter(b.filters, IS_CALL)
  {
    FilterAppend(b.filters, [EventFilter(CoreKey(owner, id))], IS_CALL);
    FilterOne(EventFilter(CoreKey(owner, id)));
  }

  lemma UnlistenCalls(b: Bus, owner: string, id: int)
    ensures Filter(Unlisten(b, owner, id).0.filters, IS_CALL) == Filter(b.filters, IS_CALL)
  {
    RemoveLastOther(b.filters, EventFilter(CoreKey(owner, id)), IS_CALL);
  }

  lemma OtherCalls(b: Bus, op: Op)
    requires !op.PublishCall?
    ensures Filter(Step(b, op).0.filters, IS_CALL) == Filter(b.filters, IS_CALL)
  {
    match op
    case AddHandler(owner, id, h, ok) =>
      ListenCalls(b.(contexts := [Context(ContextKey(owner, id), h)] + b.contexts), owner, id, ok);
    case RemoveHandler(owner, id, h) =>
      UnlistenCalls(b.(contexts := RemoveFirst(b.contexts, Context(SearchKey(owner, id), h))), owner, id);
    case RemoveAll(owner, id) =>
      UnlistenCalls(b.(contexts := DropKey(b.contexts, SearchKey(owner, id))), owner, id);
    case PublishEvents(_) =>
  }

  /** Publishing and removing listeners never disturbs the published calls or their order. */
  lemma {:induction false} PublishedCalls(ops: seq<Op>)
    ensures Filter(Run(ops).filters, IS_CALL) == Published(ops)
  {
    if ops != [] {
      var b, op := Run(ops[..|ops|-1]), ops[|ops|-1];
      PublishedCalls(ops[..|ops|-1]);
      if op.PublishCall? {
        FilterAppend(b.filters, [CallFilter(op.call, op.handler)], IS_CALL);
        FilterOne(CallFilter(op.call, op.handler));
      } else {
        OtherCalls(b, op);
      }
    }
  }

  lemma {:induction false} FirstNamedFilter(fs: seq<FilterInfo>, name: string)
    ensures FirstNamed(Filter(fs, IS_CALL), name) == FirstNamed(fs, name)
  {
    if fs != [] {
      FirstNamedFilter(fs[1..], name);
      var rest := Filter(fs[1..], IS_CALL);
      assert ([fs[0]] + rest)[1..] == rest && [] + rest == rest;
      assert Filter(fs, IS_CALL) == if fs[0].CallFilter? then [fs[0]] + rest else rest;
    }
  }

  /** A method call runs exactly the handler first published under its name, and only that one. */
  lemma CallRouting(ops: seq<Op>, msg: Message)
    requires IsCallMessage(msg)
    ensures var runs := Effects(Run(ops).contexts, Run(ops).filters, msg);
            && (forall i | FirstIs(ops, i, msg.member) :: runs == [MethodRun(ops[i].handler, msg.args[1].bs)])
            && (runs != [] ==> exists i :: FirstIs(ops, i, msg.member))
  {
    CallsRun(ops, msg);
    FirstPublishedIs(ops, msg.member);
  }

  lemma CallsRun(ops: seq<Op>, msg: Message)
    requires IsCallMessage(msg)
    ensures Effects(Run(ops).contexts, Run(ops).filters, msg) ==
              match FirstNamed(Published(ops), msg.member)
              case None => []
              case Some(h) => [MethodRun(h, msg.args[1].bs)]
  {
    PublishedCalls(ops);
    FirstNamedFilter(Run(ops).filters, msg.member);
    CallChain(Run(ops).contexts, Run(ops).filters, msg);
  }

  /** A message of another interface, or one whose arguments are not those that the library sends, runs nothing. */
  lemma {:induction false} OthersRunNothing(cs: seq<Context>, fs: seq<FilterInfo>, msg: Message)
    requires Readable(msg)
    requires msg.Signal? ==> !(|msg.args| >= 4 && msg.args[0].U32? && msg.args[1].Str? && msg.args[2].U32? && msg.args[3].Blob?)
    requires msg.MethodCall? ==> !(|msg.args| >= 2 && msg.args[0].U32? && msg.args[1].Blob?)
    ensures Effects(cs, fs, msg) == []
  {
    if fs != [] {
      OthersRunNothing(cs, fs[1..], msg);
    }
  }
}
