/**
 The client's handler list and the core structures below it, as one value: the event registry,
 the chain of message filters and the component list. One Op is one API call made while
 connected; whether libdbus accepts a new filter is part of the op.
 */
module EventSpec {
  import opened IarmTypes
  import opened Lists
  import opened Names

  /** What a listener listens for. */
  datatype Key = Key(owner: string, id: int)

  /** A callback; NULL is 0. */
  type Handler = nat

  /** An entry of the handler list. */
  datatype Context = Context(key: Key, handler: Handler)

  /** A filter with its user data: a published call or a listener. */
  datatype FilterInfo = CallFilter(callName: Name, handler: Handler) | EventFilter(key: Key)

  datatype Bus = Bus(contexts: seq<Context>, registry: seq<Key>, filters: seq<FilterInfo>, nodes: seq<string>)

  datatype Op =
    | AddHandler(owner: string, id: int, handler: Handler, filterOk: bool)
    | RemoveHandler(owner: string, id: int, handler: Handler)
    | RemoveAll(owner: string, id: int)
    | PublishCall(self: Name, call: Name, handler: Handler, filterOk: bool)
    | PublishEvents(self: Name)

  const EMPTY := Bus([], [], [], [])

  /** A C int stored in a signed char. */
  function CharOf(id: int): int {
    (id + 128) % 256 - 128
  }

  /** The key that the handler list keeps, and the key that the core keeps. */
  function ContextKey(owner: string, id: int): Key {
    Key(Trunc(owner, MAX_NAME_LEN), CharOf(id))
  }

  function CoreKey(owner: string, id: int): Key {
    Key(Trunc(owner, MAX_NAME_LEN - 1), id)
  }

  /** The key a removal looks for in the handler list: the id is compared as an int. */
  function SearchKey(owner: string, id: int): Key {
    Key(Trunc(owner, MAX_NAME_LEN), id)
  }

  /** IARM_EventID_IsValid */
  predicate IsEventId(id: int) {
    0 <= id < 0xFF
  }

  predicate HasKey(cs: seq<Context>, k: Key) {
    exists c | c in cs :: c.key == k
  }

  /** IARM_RegisterListner */
  function Listen(b: Bus, owner: string, id: int, filterOk: bool): (Bus, Code) {
    if !IsEventId(id) then (b, SUCCESS)
    else if !filterOk then (b, INVALID_PARAM)
    else (Bus(b.contexts, [CoreKey(owner, id)] + b.registry, b.filters + [EventFilter(CoreKey(owner, id))],
              b.nodes + [EventNode(id)]), SUCCESS)
  }

  /** IARM_UnRegisterListner */
  function Unlisten(b: Bus, owner: string, id: int): (Bus, Code) {
    if !IsEventId(id) || CoreKey(owner, id) !in b.registry then (b, INVALID_PARAM)
    else (Bus(b.contexts, RemoveFirst(b.registry, CoreKey(owner, id)),
              RemoveLast(b.filters, EventFilter(CoreKey(owner, id))), RemoveFirst(b.nodes, EventNode(id))), SUCCESS)
  }

  function DropKey(cs: seq<Context>, k: Key): seq<Context> {
    Filter(cs, (c: Context) => c.key != k)
  }

  /** One API call: the new state and the code returned. */
  function Step(b: Bus, op: Op): (Bus, Code) {
    match op
    case AddHandler(owner, id, h, ok) =>
      var c := Context(ContextKey(owner, id), h);
      var added := b.(contexts := [c] + b.contexts);
      if h == 0 || c in b.contexts then (b, INVALID_PARAM)
      else if HasKey(b.contexts, c.key) then (added, SUCCESS)
      else Listen(added, owner, id, ok)
    case RemoveHandler(owner, id, h) =>
      var c := Context(SearchKey(owner, id), h);
      var removed := b.(contexts := RemoveFirst(b.contexts, c));
      if h == 0 || c !in b.contexts then (b, INVALID_PARAM)
      else if HasKey(removed.contexts, c.key) then (removed, INVALID_PARAM)
      else Unlisten(removed, owner, id)
    case RemoveAll(owner, id) =>
      Unlisten(b.(contexts := DropKey(b.contexts, SearchKey(owner, id))), owner, id)
    case PublishCall(self, call, h, ok) =>
      if !ok then (b, INVALID_PARAM)
      else (b.(filters := b.filters + [CallFilter(call, h)], nodes := b.nodes + [CallNode(self, call)]), SUCCESS)
    case PublishEvents(self) =>
      (b.(nodes := b.nodes + [SourceNode(self)]), SUCCESS)
  }

  /** The state after a run of calls from a fresh connection. */
  function Run(ops: seq<Op>): Bus {
    if ops == [] then EMPTY else Step(Run(ops[..|ops|-1]), ops[|ops|-1]).0
  }

  lemma RunExtend(ops: seq<Op>, op: Op)
    ensures Run(ops + [op]) == Step(Run(ops), op).0
  {
    assert (ops + [op])[..|ops|] == ops;
  }

  // ---------------------------------------------------------------- the core's three lists

  /** The registry that a filter chain implies: its listeners, newest first. */
  function ListenersOf(fs: seq<FilterInfo>): seq<Key> {
    if fs == [] then []
    else (if fs[|fs|-1].EventFilter? then [fs[|fs|-1].key] else []) + ListenersOf(fs[..|fs|-1])
  }

  function CountId(ks: seq<Key>, id: int): nat {
    if ks == [] then 0 else (if ks[0].id == id then 1 else 0) + CountId(ks[1..], id)
  }

  lemma ListenersNext(g: seq<FilterInfo>, f: FilterInfo)
    ensures ListenersOf(g + [f]) == if f.EventFilter? then [f.key] + ListenersOf(g) else ListenersOf(g)
  {
    assert (g + [f])[..|g|] == g;
  }

  lemma {:induction false} DropListener(fs: seq<FilterInfo>, k: Key)
    ensures ListenersOf(RemoveLast(fs, EventFilter(k))) == RemoveFirst(ListenersOf(fs), k)
  {
    if fs != [] {
      var g, f := fs[..|fs|-1], fs[|fs|-1];
      assert fs == g + [f];
      ListenersNext(g, f);
      if f.EventFilter? {
        RemoveFirstCons(f.key, ListenersOf(g), k);
      }
      if f != EventFilter(k) {
        DropListener(g, k);
        ListenersNext(RemoveLast(g, EventFilter(k)), f);
      }
    }
  }

  lemma {:induction false} DropId(ks: seq<Key>, k: Key, id: int)
    requires k in ks
    ensures CountId(ks, id) == CountId(RemoveFirst(ks, k), id) + if k.id == id then 1 else 0
  {
    if ks[0] != k {
      DropId(ks[1..], k, id);
    }
  }

  lemma {:induction false} CountMember(ks: seq<Key>, k: Key)
    requires k in ks
    ensures CountId(ks, k.id) > 0
  {
    if ks[0] != k {
      CountMember(ks[1..], k);
    }
  }

  /** Registry, filter chain and component list tell the same story; no handler is listed twice. */
  ghost predicate Coherent(b: Bus) {
    && NoDup(b.contexts)
    && (forall c | c in b.contexts :: c.handler != 0)
    && b.registry == ListenersOf(b.filters)
    && (forall k | k in b.registry :: IsEventId(k.id) && |k.owner| < MAX_NAME_LEN)
    && (forall id: nat :: multiset(b.nodes)[EventNode(id)] == CountId(b.registry, id))
  }

  lemma ListenCoherent(b: Bus, owner: string, id: int, ok: bool)
    requires Coherent(b)
    ensures Coherent(Listen(b, owner, id, ok).0)
  {
    if IsEventId(id) && ok {
      var k := CoreKey(owner, id);
      var t := Listen(b, owner, id, ok).0;
      assert t.filters[..|t.filters|-1] == b.filters;
      assert t.registry[1..] == b.registry;
      forall j: nat ensures multiset(t.nodes)[EventNode(j)] == CountId(t.registry, j) {
        NodesDistinct(j, id, "", "");
      }
    }
  }

  lemma UnlistenCoherent(b: Bus, owner: string, id: int)
    requires Coherent(b)
    ensures Coherent(Unlisten(b, owner, id).0)
  {
    var k := CoreKey(owner, id);
    if IsEventId(id) && k in b.registry {
      var t := Unlisten(b, owner, id).0;
      DropListener(b.filters, k);
      forall x | x in t.registry ensures IsEventId(x.id) && |x.owner| < MAX_NAME_LEN {
        RemoveFirstMember(b.registry, k, x);
      }
      forall j: nat ensures multiset(t.nodes)[EventNode(j)] == CountId(t.registry, j) {
        DropNode(b, k, j);
      }
    }
  }

  lemma DropNode(b: Bus, k: Key, j: nat)
    requires Coherent(b) && k in b.registry
    ensures multiset(RemoveFirst(b.nodes, EventNode(k.id)))[EventNode(j)] == CountId(RemoveFirst(b.registry, k), j)
  {
    RemoveFirstMultiset(b.nodes, EventNode(k.id));
    CountMember(b.registry, k);
    DropId(b.registry, k, j);
    NodesDistinct(j, k.id, "", "");
    assert multiset(b.nodes)[EventNode(j)] == CountId(b.registry, j);
  }

  lemma StepCoherent(b: Bus, op: Op)
    requires Coherent(b)
    ensures Coherent(Step(b, op).0)
  {
    match op
    case AddHandler(owner, id, h, ok) =>
      var c := Context(ContextKey(owner, id), h);
      if h != 0 && c !in b.contexts {
        ListenCoherent(b.(contexts := [c] + b.contexts), owner, id, ok);
      }
    case RemoveHandler(owner, id, h) =>
      var c := Context(SearchKey(owner, id), h);
      RemoveFirstNoDup(b.contexts, c);
      UnlistenCoherent(b.(contexts := RemoveFirst(b.contexts, c)), owner, id);
    case RemoveAll(owner, id) =>
      var k := SearchKey(owner, id);
      FilterNoDup(b.contexts, (c: Context) => c.key != k);
      UnlistenCoherent(b.(contexts := DropKey(b.contexts, k)), owner, id);
    case PublishCall(self, call, h, ok) =>
      PublishCoherent(b, CallNode(self, call));
      if ok {
        var t := Step(b, op).0;
        assert t.filters[..|t.filters|-1] == b.filters;
      }
    case PublishEvents(self) =>
      PublishCoherent(b, SourceNode(self));
  }

  lemma PublishCoherent(b: Bus, node: string)
    requires Coherent(b) && node != "" && node[0] == '_'
    ensures Coherent(b.(nodes := b.nodes + [node]))
  {
    var t := b.(nodes := b.nodes + [node]);
    forall id: nat ensures multiset(t.nodes)[EventNode(id)] == multiset(b.nodes)[EventNode(id)] {
      assert EventNode(id)[0] == 'I';
    }
  }

  /** In every run: one component per listener of each id, and the chain agrees with the registry. */
  lemma {:induction false} RunCoherent(ops: seq<Op>)
    ensures Coherent(Run(ops))
  {
    if ops == [] {
      forall id: nat ensures multiset(EMPTY.nodes)[EventNode(id)] == 0 {
      }
    } else {
      RunCoherent(ops[..|ops|-1]);
      StepCoherent(Run(ops[..|ops|-1]), ops[|ops|-1]);
    }
  }

  lemma UnlistenOther(b: Bus, owner: string, id: int, node: string)
    requires forall j: nat :: node != EventNode(j)
    ensures multiset(Unlisten(b, owner, id).0.nodes)[node] == multiset(b.nodes)[node]
  {
    if IsEventId(id) {
      RemoveFirstMultiset(b.nodes, EventNode(id));
      assert node != EventNode(id);
    }
  }

  /** Listener traffic never removes or adds a component of another kind. */
  lemma OtherNodesKept(b: Bus, op: Op, node: string)
    requires op.AddHandler? || op.RemoveHandler? || op.RemoveAll?
    requires forall id: nat :: node != EventNode(id)
    ensures multiset(Step(b, op).0.nodes)[node] == multiset(b.nodes)[node]
  {
    match op
    case AddHandler(_, id, _, _) =>
      assert IsEventId(id) ==> node != EventNode(id);
    case RemoveHandler(owner, id, h) =>
      UnlistenOther(b.(contexts := RemoveFirst(b.contexts, Context(SearchKey(owner, id), h))), owner, id, node);
    case RemoveAll(owner, id) =>
      UnlistenOther(b.(contexts := DropKey(b.contexts, SearchKey(owner, id))), owner, id, node);
  }

  // ---------------------------------------------------------------- agreement of the two levels

  /** Arguments that survive the name buffers and the char that holds the id. */
  predicate InDomain(owner: string, id: int) {
    |owner| < MAX_NAME_LEN && 0 <= id < 128
  }

  predicate OpInDomain(op: Op) {
    op.AddHandler? || op.RemoveHandler? || op.RemoveAll? ==> InDomain(op.owner, op.id)
  }

  predicate FilterAccepted(op: Op) {
    op.AddHandler? ==> op.filterOk
  }

  /** Each listener is installed at most once, only for a key with handlers, all within the domain. */
  ghost predicate Indexed(b: Bus) {
    && NoDup(b.registry)
    && (forall c | c in b.contexts :: InDomain(c.key.owner, c.key.id))
    && (forall k | k in b.registry :: HasKey(b.contexts, k))
  }

  /** Every key with handlers has its listener. */
  ghost predicate Covered(b: Bus) {
    forall c | c in b.contexts :: c.key in b.registry
  }

  lemma DomainKeys(owner: string, id: int)
    requires InDomain(owner, id)
    ensures ContextKey(owner, id) == CoreKey(owner, id) == SearchKey(owner, id) == Key(owner, id)
  {
  }

  lemma StepIndexed(b: Bus, op: Op)
    requires Coherent(b) && Indexed(b) && OpInDomain(op)
    ensures Indexed(Step(b, op).0)
    ensures Covered(b) && FilterAccepted(op) ==> Covered(Step(b, op).0)
  {
    match op
    case AddHandler(owner, id, h, ok) =>
      DomainKeys(owner, id);
      var c := Context(Key(owner, id), h);
      assert forall k :: HasKey([c] + b.contexts, k) <==> k == c.key || HasKey(b.contexts, k);
    case RemoveHandler(owner, id, h) =>
      DomainKeys(owner, id);
      var c := Context(Key(owner, id), h);
      RemoveFirstNoDup(b.contexts, c);
      KeyGone(b, RemoveFirst(b.contexts, c), owner, id);
    case RemoveAll(owner, id) =>
      DomainKeys(owner, id);
      KeyGone(b, DropKey(b.contexts, Key(owner, id)), owner, id);
    case PublishCall(_, _, _, _) =>
    case PublishEvents(_) =>
  }

  /** Dropping the listener of a key whose last handler left keeps the levels in step. */
  lemma KeyGone(b: Bus, cs: seq<Context>, owner: string, id: int)
    requires Indexed(b) && InDomain(owner, id)
    requires forall c :: c in cs ==> c in b.contexts
    requires forall c | c in b.contexts && c.key != Key(owner, id) :: c in cs
    ensures var t := if HasKey(cs, Key(owner, id)) then b.(contexts := cs)
                     else Unlisten(b.(contexts := cs), owner, id).0;
            Indexed(t) && (Covered(b) ==> Covered(t))
  {
    DomainKeys(owner, id);
    var k := Key(owner, id);
    RemoveFirstNoDup(b.registry, k);
    forall x | x in b.registry && x != k ensures HasKey(cs, x) {
      var c :| c in b.contexts && c.key == x;
      assert c in cs;
    }
  }

  /**
     Over every run within the domain the core holds at most one listener for each key, only where
     handlers exist, and exactly one wherever they exist if no filter was refused.
   */
  lemma {:induction false} IndexAgreement(ops: seq<Op>)
    requires forall op | op in ops :: OpInDomain(op)
    ensures Indexed(Run(ops))
    ensures (forall op | op in ops :: FilterAccepted(op)) ==> Covered(Run(ops))
  {
    if ops != [] {
      var f, op := ops[..|ops|-1], ops[|ops|-1];
      assert forall x | x in f :: x in ops;
      IndexAgreement(f);
      RunCoherent(f);
      StepIndexed(Run(f), op);
    }
  }

  /** The agreement counted: one registry entry for a key with handlers, none otherwise. */
  lemma IndexCount(ops: seq<Op>, k: Key)
    requires forall op | op in ops :: OpInDomain(op) && FilterAccepted(op)
    ensures multiset(Run(ops).registry)[k] == if HasKey(Run(ops).contexts, k) then 1 else 0
  {
    IndexAgreement(ops);
    NoDupMultiset(Run(ops).registry);
  }

  /**
     The domain cannot be widened: after any run within it, one more accepted registration leaves every
     key with its listener exactly if it is within the domain too or joins handlers already listed.
   */
  lemma DomainIsExact(ops: seq<Op>, owner: string, id: int, h: Handler)
    requires forall op | op in ops :: OpInDomain(op) && FilterAccepted(op)
    requires h != 0
    ensures Covered(Run(ops + [AddHandler(owner, id, h, true)])) <==>
              InDomain(owner, id) || HasKey(Run(ops).contexts, ContextKey(owner, id))
  {
    var b, op := Run(ops), AddHandler(owner, id, h, true);
    var c := Context(ContextKey(owner, id), h);
    var t := Step(b, op).0;
    RunExtend(ops, op);
    IndexAgreement(ops);
    RunCoherent(ops);
    if InDomain(owner, id) {
      StepIndexed(b, op);
    } else if HasKey(b.contexts, c.key) {
      assert t.registry == b.registry;
      forall x | x in t.contexts ensures x.key in t.registry {
        if x == c {
          var y :| y in b.contexts && y.key == c.key;
          assert y.key in b.registry;
        } else {
          assert x in b.contexts;
        }
      }
    } else {
      assert t.contexts == [c] + b.contexts && c in t.contexts;
      Unlistened(owner, id);
      assert c.key !in b.registry;
    }
  }

  /** Outside the domain the listener installed is not for the key that the handler list keeps. */
  lemma Unlistened(owner: string, id: int)
    requires !InDomain(owner, id)
    ensures IsEventId(id) ==> CoreKey(owner, id) != ContextKey(owner, id)
  {
  }

  /**
     Nor for removals: after a run within the domain, removing a key leaves every other with its listener
     exactly if it is within the domain or the key that the core keeps for it has no handlers. A longer
     owner takes the listener of the one that its first 63 characters name.
   */
  lemma RemovalDomainIsExact(ops: seq<Op>, owner: string, id: int)
    requires forall op | op in ops :: OpInDomain(op) && FilterAccepted(op)
    ensures Covered(Run(ops + [RemoveAll(owner, id)])) <==>
              InDomain(owner, id) || !HasKey(Run(ops).contexts, CoreKey(owner, id))
  {
    var b, op := Run(ops), RemoveAll(owner, id);
    var k, d := CoreKey(owner, id), SearchKey(owner, id);
    RunExtend(ops, op);
    IndexAgreement(ops);
    RunCoherent(ops);
    if InDomain(owner, id) {
      StepIndexed(b, op);
    } else {
      forall c | c in b.contexts ensures c.key != d {
        assert InDomain(c.key.owner, c.key.id);
      }
      assert forall c :: c in DropKey(b.contexts, d) <==> c in b.contexts;
      ListenerGone(b, owner, id);
    }
  }

  /** Dropping one listener uncovers its key's handlers and no others. */
  lemma ListenerGone(b: Bus, owner: string, id: int)
    requires Coherent(b) && Indexed(b) && Covered(b) && !InDomain(owner, id)
    ensures var t := Unlisten(b.(contexts := DropKey(b.contexts, SearchKey(owner, id))), owner, id).0;
            (forall c :: c in t.contexts <==> c in b.contexts) ==>
              (Covered(t) <==> !HasKey(b.contexts, CoreKey(owner, id)))
  {
    var k := CoreKey(owner, id);
    RemoveFirstNoDup(b.registry, k);
    if HasKey(b.contexts, k) {
      var c :| c in b.contexts && c.key == k;
      assert k in b.registry && IsEventId(id);
    }
  }

  /** Such a removal: the owner's handler stays listed and its listener is gone. */
  lemma ForeignRemoval(a: string, c: char, id: int, h: Handler)
    requires |a| == MAX_NAME_LEN - 1 && 0 <= id < 128 && h != 0
    ensures var b := Step(Run([AddHandler(a, id, h, true)]), RemoveAll(a + [c], id)).0;
            b.contexts == [Context(Key(a, id), h)] && b.registry == []
  {
    FirstListed(a, id, h);
    LastListenerTaken(Run([AddHandler(a, id, h, true)]), a, c, id, h);
  }

  lemma LastListenerTaken(b: Bus, a: string, c: char, id: int, h: Handler)
    requires |a| == MAX_NAME_LEN - 1 && 0 <= id < 128
    requires b.contexts == [Context(Key(a, id), h)] && b.registry == [Key(a, id)]
    ensures var t := Step(b, RemoveAll(a + [c], id)).0;
            t.contexts == b.contexts && t.registry == []
  {
    var d := SearchKey(a + [c], id);
    assert d.owner == a + [c] && d != Key(a, id);
    DropKeyCons(b.contexts, d);
    assert b.contexts[1..] == [] && DropKey(b.contexts[1..], d) == [];
    assert CoreKey(a + [c], id) == Key(a, id);
  }

  /** What one or two first registrations for different keys leave. */
  lemma FirstListed(owner: string, id: int, h: Handler)
    requires h != 0
    ensures var b := Run([AddHandler(owner, id, h, true)]);
            && b.contexts == [Context(ContextKey(owner, id), h)]
            && b.registry == if IsEventId(id) then [CoreKey(owner, id)] else []
  {
    var op := AddHandler(owner, id, h, true);
    assert [] + [op] == [op];
    RunExtend([], op);
  }

  lemma SecondListed(owner: string, other: string, id: int, h: Handler, h2: Handler)
    requires h != 0 && h2 != 0 && IsEventId(id) && ContextKey(owner, id) != ContextKey(other, id)
    ensures var b := Run([AddHandler(owner, id, h, true), AddHandler(other, id, h2, true)]);
            && b.contexts == [Context(ContextKey(other, id), h2), Context(ContextKey(owner, id), h)]
            && b.registry == [CoreKey(other, id), CoreKey(owner, id)]
  {
    var one, two := AddHandler(owner, id, h, true), AddHandler(other, id, h2, true);
    assert [one] + [two] == [one, two];
    FirstListed(owner, id, h);
    RunExtend([one], two);
  }

  // ---------------------------------------------------------------- the handler multimap

  /** The handlers of a key, newest first. */
  function HandlersOf(cs: seq<Context>, k: Key): seq<Handler> {
    if cs == [] then []
    else (if cs[0].key == k then [cs[0].handler] else []) + HandlersOf(cs[1..], k)
  }

  lemma HandlersCons(c: Context, cs: seq<Context>, k: Key)
    ensures HandlersOf([c] + cs, k) == if c.key == k then [c.handler] + HandlersOf(cs, k) else HandlersOf(cs, k)
  {
    assert ([c] + cs)[1..] == cs;
  }

  lemma {:induction false} HandlersMember(cs: seq<Context>, k: Key, h: Handler)
    ensures h in HandlersOf(cs, k) <==> Context(k, h) in cs
  {
    if cs != [] {
      HandlersMember(cs[1..], k, h);
      assert cs == [cs[0]] + cs[1..];
    }
  }

  lemma {:induction false} HandlersRemove(cs: seq<Context>, c: Context, k: Key)
    ensures HandlersOf(RemoveFirst(cs, c), k) ==
              if c.key == k then RemoveFirst(HandlersOf(cs, k), c.handler) else HandlersOf(cs, k)
  {
    if cs != [] {
      var c0, rest := cs[0], cs[1..];
      assert cs == [c0] + rest;
      HandlersCons(c0, rest, k);
      RemoveFirstCons(c0, rest, c);
      RemoveFirstCons(c0.handler, HandlersOf(rest, k), c.handler);
      if c0 != c {
        HandlersRemove(rest, c, k);
        HandlersCons(c0, RemoveFirst(rest, c), k);
      }
    }
  }

  lemma DropKeyCons(cs: seq<Context>, d: Key)
    requires cs != []
    ensures DropKey(cs, d) == if cs[0].key != d then [cs[0]] + DropKey(cs[1..], d) else DropKey(cs[1..], d)
  {
    var keep := (c: Context) => c.key != d;
    assert DropKey(cs, d) == (if keep(cs[0]) then [cs[0]] else []) + Filter(cs[1..], keep);
  }

  lemma {:induction false} HandlersDrop(cs: seq<Context>, d: Key, k: Key)
    ensures HandlersOf(DropKey(cs, d), k) == if d == k then [] else HandlersOf(cs, k)
  {
    if cs != [] {
      HandlersDrop(cs[1..], d, k);
      DropKeyCons(cs, d);
      assert cs == [cs[0]] + cs[1..];
      HandlersCons(cs[0], cs[1..], k);
      HandlersCons(cs[0], DropKey(cs[1..], d), k);
    }
  }

  /** Registration puts the handler in front of its key's handlers, or rejects a duplicate. */
  lemma AddRefines(b: Bus, owner: string, id: int, h: Handler, ok: bool, k: Key)
    requires InDomain(owner, id) && h != 0
    ensures var t := Step(b, AddHandler(owner, id, h, ok));
            if k == Key(owner, id) && h !in HandlersOf(b.contexts, k)
            then HandlersOf(t.0.contexts, k) == [h] + HandlersOf(b.contexts, k)
            else HandlersOf(t.0.contexts, k) == HandlersOf(b.contexts, k)
    ensures h in HandlersOf(b.contexts, Key(owner, id)) ==>
              Step(b, AddHandler(owner, id, h, ok)) == (b, INVALID_PARAM)
  {
    DomainKeys(owner, id);
    HandlersMember(b.contexts, Key(owner, id), h);
    var c := Context(Key(owner, id), h);
    assert ([c] + b.contexts)[1..] == b.contexts;
  }

  /** Removing one handler deletes it from its key and leaves every other handler in place. */
  lemma RemoveRefines(b: Bus, owner: string, id: int, h: Handler, k: Key)
    requires InDomain(owner, id) && h != 0
    ensures HandlersOf(Step(b, RemoveHandler(owner, id, h)).0.contexts, k) ==
              if k == Key(owner, id) then RemoveFirst(HandlersOf(b.contexts, k), h) else HandlersOf(b.contexts, k)
  {
    DomainKeys(owner, id);
    HandlersRemove(b.contexts, Context(Key(owner, id), h), k);
  }

  /** Removing a key empties it and leaves every other key alone. */
  lemma RemoveAllRefines(b: Bus, owner: string, id: int, k: Key)
    requires InDomain(owner, id)
    ensures HandlersOf(Step(b, RemoveAll(owner, id)).0.contexts, k) ==
              if k == Key(owner, id) then [] else HandlersOf(b.contexts, k)
  {
    DomainKeys(owner, id);
    HandlersDrop(b.contexts, Key(owner, id), k);
  }

  lemma {:induction false} HandlersSome(cs: seq<Context>, k: Key)
    ensures HasKey(cs, k) <==> HandlersOf(cs, k) != []
  {
    if cs != [] {
      HandlersSome(cs[1..], k);
      assert cs == [cs[0]] + cs[1..];
      if HasKey(cs[1..], k) {
        var c :| c in cs[1..] && c.key == k;
        assert c in cs;
      }
    }
  }

  /**
     While every listener is in place a removal reports success exactly when its handler was the key's last
     one. With others left it removes the handler and still returns INVALID_PARAM.
   */
  lemma RemoveReports(b: Bus, owner: string, id: int, h: Handler)
    requires Coherent(b) && Indexed(b) && Covered(b) && InDomain(owner, id) && h != 0
    ensures var (t, code) := Step(b, RemoveHandler(owner, id, h));
            && h !in HandlersOf(t.contexts, Key(owner, id))
            && code == if HandlersOf(b.contexts, Key(owner, id)) == [h] then SUCCESS else INVALID_PARAM
  {
    DomainKeys(owner, id);
    var k := Key(owner, id);
    var c := Context(k, h);
    HandlersMember(b.contexts, k, h);
    RemoveFirstNoDup(b.contexts, c);
    RemoveRefines(b, owner, id, h, k);
    HandlersMember(RemoveFirst(b.contexts, c), k, h);
    HandlersSome(RemoveFirst(b.contexts, c), k);
    if h in HandlersOf(b.contexts, k) {
      LastOne(HandlersOf(b.contexts, k), h);
    }
  }

  lemma LastOne(hs: seq<Handler>, h: Handler)
    requires h in hs
    ensures RemoveFirst(hs, h) == [] <==> hs == [h]
  {
    assert |RemoveFirst(hs, h)| == |hs| - 1;
  }

  /** A removal of what is not listed, or of NULL, changes nothing and says so, whatever the arguments. */
  lemma RemoveNothing(b: Bus, owner: string, id: int, h: Handler)
    requires h == 0 || h !in HandlersOf(b.contexts, SearchKey(owner, id))
    ensures Step(b, RemoveHandler(owner, id, h)) == (b, INVALID_PARAM)
  {
    HandlersMember(b.contexts, SearchKey(owner, id), h);
  }

  /**
     Whatever the state and the arguments: a duplicate or NULL is refused, a further handler of a key with
     handlers is taken, and a first one is listed in any case, with the code of its listener: success for
     an id the core does not know, and INVALID_PARAM if libdbus refused the filter.
   */
  lemma AddReports(b: Bus, owner: string, id: int, h: Handler, ok: bool)
    ensures var hs := HandlersOf(b.contexts, ContextKey(owner, id));
            var (t, code) := Step(b, AddHandler(owner, id, h, ok));
            && (h == 0 || h in hs ==> t == b && code == INVALID_PARAM)
            && (h != 0 && h !in hs && hs != [] ==> code == SUCCESS && t.registry == b.registry)
            && (h != 0 && hs == [] && 0 <= id < 255 && !ok ==> code == INVALID_PARAM && t.registry == b.registry)
            && (h != 0 && hs == [] && !(0 <= id < 255) ==> code == SUCCESS && t.registry == b.registry)
            && (h != 0 && hs == [] && 0 <= id < 255 && ok ==>
                  code == SUCCESS && t.registry == [CoreKey(owner, id)] + b.registry)
            && (h != 0 && h !in hs ==> t.contexts == [Context(ContextKey(owner, id), h)] + b.contexts)
  {
    HandlersMember(b.contexts, ContextKey(owner, id), h);
    HandlersSome(b.contexts, ContextKey(owner, id));
  }

  /** Removing a key reports success exactly if the core had a listener for it, and then drops that one. */
  lemma RemoveAllReports(b: Bus, owner: string, id: int)
    ensures var (t, code) := Step(b, RemoveAll(owner, id));
            var listens := 0 <= id < 255 && CoreKey(owner, id) in b.registry;
            && code == (if listens then SUCCESS else INVALID_PARAM)
            && multiset(t.registry) == multiset(b.registry) - (if listens then multiset{CoreKey(owner, id)} else multiset{})
  {
    RemoveFirstMultiset(b.registry, CoreKey(owner, id));
  }

  /** Publishing adds one component of its own name and one call at the end of the chain, or nothing. */
  lemma PublishReports(b: Bus, self: Name, call: Name, h: Handler, ok: bool)
    ensures var (t, code) := Step(b, PublishCall(self, call, h, ok));
            && code == (if ok then SUCCESS else INVALID_PARAM)
            && multiset(t.nodes) == multiset(b.nodes) + (if ok then multiset{CallNode(self, call)} else multiset{})
            && t.filters == b.filters + (if ok then [CallFilter(call, h)] else [])
            && t.contexts == b.contexts && t.registry == b.registry
    ensures var (t, code) := Step(b, PublishEvents(self));
            && code == SUCCESS
            && multiset(t.nodes) == multiset(b.nodes) + multiset{SourceNode(self)}
            && t == b.(nodes := t.nodes)
  {
  }

  /** While every listener is in place the other two calls report what they did. */
  lemma OthersReport(b: Bus, owner: string, id: int, h: Handler)
    requires Coherent(b) && Indexed(b) && Covered(b) && InDomain(owner, id) && h != 0
    ensures Step(b, AddHandler(owner, id, h, true)).1 == SUCCESS <==> h !in HandlersOf(b.contexts, Key(owner, id))
    ensures Step(b, RemoveAll(owner, id)).1 == SUCCESS <==> HandlersOf(b.contexts, Key(owner, id)) != []
  {
    DomainKeys(owner, id);
    HandlersMember(b.contexts, Key(owner, id), h);
    HandlersSome(b.contexts, Key(owner, id));
  }
}
