/** The bus core of one process: its allocator, filter chain, event registry and component list. */
module Core {
  import opened IarmTypes
  import opened Lists
  import opened Names
  import opened Bytes
  import opened EventSpec
  import opened Delivery
  import opened Rpc

  /** What a block was allocated for. */
  datatype Kind = ContextKind | ComponentKind | MemberKind | HandlerKind | CallKind | ArgumentKind

  /** A heap block: its bytes, header included, and what it is for. Its identity is its address. */
  class Block {
    const bytes: array<byte>
    ghost const kind: Kind

    constructor (size: nat, ghost kind: Kind)
      requires size < TWO63
      ensures this.kind == kind && fresh(bytes) && IsBlock(bytes[..], size)
    {
      var b := new byte[HEADER + size];
      var prefix, magic := ToLE(size, 8), ToLE(MAGIC, 4);
      forall i | 0 <= i < 8 {
        b[i] := prefix[i];
      }
      forall i | 8 <= i < 12 {
        b[i] := magic[i - 8];
      }
      assert b[..][0..8] == prefix && b[..][8..12] == magic;
      bytes := b;
      this.kind := kind;
    }
  }

  /** A list element and the block that it was allocated in. */
  datatype Owned<+T> = Owned(value: T, block: Block)

  /** sizeof the two records that the core allocates, on a 64-bit build. */
  const NODE_SIZE: nat := 88
  const CONTEXT_SIZE: nat := 384

  function Values<T>(ns: seq<Owned<T>>): (r: seq<T>)
    ensures |r| == |ns|
  {
    seq(|ns|, i requires 0 <= i < |ns| => ns[i].value)
  }

  /** The live blocks by kind; `orphans` are components that a termination left allocated. */
  datatype Ledger = Ledger(
    contexts: set<Block>,
    components: set<Block>,
    members: set<Block>,
    handlers: set<Block>,
    calls: set<Block>,
    arguments: set<Block>,
    orphans: set<Block>)
  {
    ghost function Of(k: Kind): set<Block> {
      match k
      case ContextKind => contexts
      case ComponentKind => components
      case MemberKind => members
      case HandlerKind => handlers
      case CallKind => calls
      case ArgumentKind => arguments
    }

    /** This ledger with other blocks of one kind. */
    ghost function With(k: Kind, s: set<Block>): Ledger {
      match k
      case ContextKind => this.(contexts := s)
      case ComponentKind => this.(components := s)
      case MemberKind => this.(members := s)
      case HandlerKind => this.(handlers := s)
      case CallKind => this.(calls := s)
      case ArgumentKind => this.(arguments := s)
    }

    ghost function Size(): nat {
      |contexts| + |components| + |members| + |handlers| + |calls| + |arguments| + |orphans|
    }
  }

  /** A block more or less of one kind is one live block more or less. */
  lemma LedgerCount(l: Ledger, k: Kind, b: Block)
    ensures b !in l.Of(k) ==> l.With(k, l.Of(k) + {b}).Size() == l.Size() + 1
    ensures b in l.Of(k) ==> l.With(k, l.Of(k) - {b}).Size() == l.Size() - 1
  {
    var more, less := l.With(k, l.Of(k) + {b}), l.With(k, l.Of(k) - {b});
    assert |more.Of(k)| == |l.Of(k)| + if b in l.Of(k) then 0 else 1;
    assert |less.Of(k)| == |l.Of(k)| - if b in l.Of(k) then 1 else 0;
  }

  /** Ending a connection: its context goes, and of its components all but `released` are left behind. */
  function Ended(l: Ledger, released: set<Block>): Ledger {
    l.(contexts := {}, components := {}, orphans := l.orphans + (l.components - released))
  }

  lemma EndedCount(l: Ledger, released: set<Block>)
    requires released <= l.components && l.orphans !! l.components
    ensures Ended(l, released).Size() == l.Size() - |l.contexts| - |released|
  {
    var left := l.components - released;
    assert |l.components| == |left| + |released|;
    assert |l.orphans + left| == |l.orphans| + |left|;
  }

  const NOTHING := Ledger({}, {}, {}, {}, {}, {}, {})

  /** The elements of the list sit in pairwise different blocks of kind `k`, which together are `s`. */
  ghost predicate Owns<T>(ns: seq<Owned<T>>, k: Kind, s: set<Block>) {
    if ns == [] then s == {}
    else ns[0].block in s && ns[0].block.kind == k && Owns(ns[1..], k, s - {ns[0].block})
  }

  lemma {:induction false} OwnsSize<T>(ns: seq<Owned<T>>, k: Kind, s: set<Block>)
    requires Owns(ns, k, s)
    ensures |s| == |ns|
  {
    if ns != [] {
      OwnsSize(ns[1..], k, s - {ns[0].block});
    }
  }

  lemma {:induction false} OwnsMember<T>(ns: seq<Owned<T>>, n: Owned<T>, k: Kind, s: set<Block>)
    requires Owns(ns, k, s) && n in ns
    ensures n.block in s && n.block.kind == k
  {
    if ns[0] != n {
      OwnsMember(ns[1..], n, k, s - {ns[0].block});
    }
  }

  lemma OwnsPrepend<T>(n: Owned<T>, ns: seq<Owned<T>>, k: Kind, s: set<Block>)
    requires Owns(ns, k, s) && n.block !in s && n.block.kind == k
    ensures Owns([n] + ns, k, s + {n.block})
    ensures Values([n] + ns) == [n.value] + Values(ns)
  {
    assert ([n] + ns)[1..] == ns && s + {n.block} - {n.block} == s;
  }

  lemma {:induction false} OwnsAppend<T>(ns: seq<Owned<T>>, n: Owned<T>, k: Kind, s: set<Block>)
    requires Owns(ns, k, s) && n.block !in s && n.block.kind == k
    ensures Owns(ns + [n], k, s + {n.block})
    ensures Values(ns + [n]) == Values(ns) + [n.value]
  {
    if ns == [] {
      assert ns + [n] == [n] && [n][1..] == [] && s + {n.block} - {n.block} == {};
    } else {
      var c := ns[0];
      OwnsAppend(ns[1..], n, k, s - {c.block});
      assert (ns + [n])[1..] == ns[1..] + [n];
      assert s + {n.block} - {c.block} == s - {c.block} + {n.block};
    }
  }

  lemma {:induction false} OwnsRemove<T>(ns: seq<Owned<T>>, n: Owned<T>, k: Kind, s: set<Block>)
    requires Owns(ns, k, s) && n in ns
    ensures Owns(RemoveFirst(ns, n), k, s - {n.block}) && n.block in s && n.block.kind == k
  {
    var c := ns[0];
    if c != n {
      OwnsMember(ns[1..], n, k, s - {c.block});
      OwnsRemove(ns[1..], n, k, s - {c.block});
      var r := RemoveFirst(ns[1..], n);
      assert ([c] + r)[1..] == r;
      assert s - {c.block} - {n.block} == s - {n.block} - {c.block};
    }
  }

  lemma ValuesCut<T>(ns: seq<Owned<T>>, i: nat)
    requires i < |ns|
    ensures Values(ns[..i] + ns[i+1..]) == Values(ns)[..i] + Values(ns)[i+1..]
  {
  }

  /** Unlinking the first element of a value drops that value. */
  lemma RemoveOwned<T>(ns: seq<Owned<T>>, i: nat)
    requires i < |ns| && ns[i].value !in Values(ns)[..i]
    ensures Values(RemoveFirst(ns, ns[i])) == RemoveFirst(Values(ns), ns[i].value)
    ensures RemoveFirst(ns, ns[i]) == ns[..i] + ns[i+1..]
    ensures ns[i] !in ns[..i]
  {
    var vs := Values(ns);
    forall j | 0 <= j < i ensures ns[j].value != ns[i].value {
      assert vs[..i][j] == ns[j].value;
    }
    RemoveFirstAt(ns, i);
    assert vs[i] == ns[i].value;
    RemoveFirstAt(vs, i);
    ValuesCut(ns, i);
  }

  class Core {
    var grpCtx: Block?
    var eventRegistry: seq<Key>
    var filters: seq<FilterInfo>
    var compList: seq<Owned<string>>
    var mallocLocalCount: int
    var freeLocalCount: int
    /** The blocks allocated and not freed. */
    ghost var live: Ledger

    /** The counters differ by the number of live blocks; context and components own theirs. */
    ghost predicate Valid()
      reads this
    {
      && mallocLocalCount - freeLocalCount == live.Size()
      && live.contexts == (if grpCtx == null then {} else {grpCtx})
      && (grpCtx != null ==> grpCtx.kind == ContextKind)
      && Owns(compList, ComponentKind, live.components)
      && live.orphans !! live.components
      && (grpCtx == null ==> eventRegistry == [] && filters == [] && compList == [])
    }

    /** Only blocks of kind `k` were allocated or freed. */
    twostate predicate OnlyKind(k: Kind)
      reads this`live
    {
      live == old(live).With(k, live.Of(k))
    }

    ghost function Bus(contexts: seq<Context>): Bus
      reads this`eventRegistry, this`filters, this`compList
    {
      EventSpec.Bus(contexts, eventRegistry, filters, Values(compList))
    }

    constructor ()
      ensures Valid() && grpCtx == null && live == NOTHING
      ensures mallocLocalCount == 0 && freeLocalCount == 0
    {
      grpCtx, eventRegistry, filters, compList := null, [], [], [];
      mallocLocalCount, freeLocalCount, live := 0, 0, NOTHING;
    }

    /** IARM_Malloc: a new block whose header holds its size and type. */
    method Malloc(size: nat, ghost kind: Kind) returns (b: Block)
      requires size < TWO63
      modifies this`mallocLocalCount, this`live
      ensures fresh(b) && fresh(b.bytes) && b.kind == kind && IsBlock(b.bytes[..], size)
      ensures b !in old(live).Of(kind) && live == old(live).With(kind, old(live).Of(kind) + {b})
      ensures mallocLocalCount == old(mallocLocalCount) + 1 && live.Size() == old(live.Size()) + 1
      ensures old(Valid()) && kind != ContextKind && kind != ComponentKind ==> Valid()
    {
      mallocLocalCount := mallocLocalCount + 1;
      b := new Block(size, kind);
      LedgerCount(live, kind, b);
      live := live.With(kind, live.Of(kind) + {b});
    }

    /** IARM_Free: of nothing, or of a block that is live as what it was allocated for, so never twice. */
    method Free(b: Block?)
      requires b != null ==> b in live.Of(b.kind)
      modifies this`freeLocalCount, this`live
      ensures b == null ==> live == old(live) && freeLocalCount == old(freeLocalCount)
      ensures b != null ==>
                && live == old(live).With(b.kind, old(live).Of(b.kind) - {b})
                && freeLocalCount == old(freeLocalCount) + 1 && live.Size() == old(live.Size()) - 1
      ensures old(Valid()) && (b != null ==> b.kind != ContextKind && b.kind != ComponentKind) ==> Valid()
    {
      if b != null {
        freeLocalCount := freeLocalCount + 1;
        LedgerCount(live, b.kind, b);
        live := live.With(b.kind, live.Of(b.kind) - {b});
      }
    }

    /** IARM_Init; `busOk` says whether every D-Bus connection and name was obtained. */
    method Init(memberName: string, busOk: bool) returns (ret: Code)
      requires Valid() && grpCtx == null
      modifies this
      ensures Valid() && OnlyKind(ContextKind)
      ensures ret == if |memberName| >= MAX_NAME_LEN then INVALID_PARAM else if !busOk then IPCCORE_FAIL else SUCCESS
      ensures ret == SUCCESS <==> grpCtx != null
      ensures Bus([]) == EMPTY
    {
      if |memberName| >= MAX_NAME_LEN {
        return INVALID_PARAM;
      }
      var cctx := Malloc(CONTEXT_SIZE, ContextKind);
      if !busOk {
        Free(cctx);
        assert live.contexts == old(live.contexts);
        return IPCCORE_FAIL;
      }
      grpCtx, eventRegistry, filters, compList := cctx, [], [], [];
      return SUCCESS;
    }

    /**
     IARM_Term past the shutdown handshake. Its loop over the component list steps through nodes it
     has already released, so which components it frees is left open: those in `released`.
     */
    method Term(ghost released: set<Block>, count: nat) returns (ret: Code)
      requires Valid() && count == |released| && released <= live.components
      modifies this
      ensures Valid() && grpCtx == null
      ensures old(grpCtx) == null ==> ret == INVALID_PARAM && unchanged(this)
      ensures old(grpCtx) != null ==>
                ret == SUCCESS && live == Ended(old(live), released)
    {
      if grpCtx == null {
        return INVALID_PARAM;
      }
      EndedCount(live, released);
      freeLocalCount := freeLocalCount + count + 1;
      live := Ended(live, released);
      grpCtx, eventRegistry, filters, compList := null, [], [], [];
      return SUCCESS;
    }

    /** Append a component of the given name. */
    method AddNode(name: string)
      requires Valid() && grpCtx != null
      modifies this`mallocLocalCount, this`live, this`compList
      ensures Valid() && OnlyKind(ComponentKind)
      ensures Values(compList) == Values(old(compList)) + [name]
    {
      ghost var mine := live.components;
      var b := Malloc(NODE_SIZE, ComponentKind);
      OwnsAppend(compList, Owned(name, b), ComponentKind, mine);
      compList := compList + [Owned(name, b)];
    }

    /** Unlink and free the first component of the given name. */
    method RemoveComponent(name: string)
      requires Valid() && grpCtx != null
      modifies this`compList, this`live, this`freeLocalCount
      ensures Valid() && OnlyKind(ComponentKind)
      ensures Values(compList) == RemoveFirst(Values(old(compList)), name)
    {
      var i := 0;
      while i < |compList| && compList[i].value != name
        invariant i <= |compList|
        invariant name !in Values(compList)[..i]
      {
        assert Values(compList)[..i+1] == Values(compList)[..i] + [compList[i].value];
        i := i + 1;
      }
      if i < |compList| {
        var node := compList[i];
        RemoveOwned(compList, i);
        OwnsRemove(compList, node, ComponentKind, live.components);
        compList := RemoveFirst(compList, node);
        Free(node.block);
      } else {
        assert Values(compList)[..i] == Values(compList);
      }
    }

    method RegisterListner(owner: string, id: int, filterOk: bool, ghost contexts: seq<Context>)
      returns (ret: Code)
      requires Valid()
      modifies this
      ensures Valid() && grpCtx == old(grpCtx) && OnlyKind(ComponentKind)
      ensures grpCtx != null ==> (Bus(contexts), ret) == Listen(old(Bus(contexts)), owner, id, filterOk)
      ensures grpCtx == null ==> ret == SUCCESS && unchanged(this)
    {
      ret := SUCCESS;
      if grpCtx != null && IsEventId(id) {
        if !filterOk {
          return INVALID_PARAM;
        }
        filters := filters + [EventFilter(CoreKey(owner, id))];
        eventRegistry := [CoreKey(owner, id)] + eventRegistry;
        AddNode(EventNode(id));
      }
    }

    method UnRegisterListner(owner: string, id: int, ghost contexts: seq<Context>) returns (ret: Code)
      requires Valid()
      modifies this
      ensures Valid() && grpCtx == old(grpCtx) && OnlyKind(ComponentKind)
      ensures grpCtx != null ==> (Bus(contexts), ret) == Unlisten(old(Bus(contexts)), owner, id)
      ensures grpCtx == null ==> ret == INVALID_PARAM && unchanged(this)
    {
      if grpCtx == null || !IsEventId(id) {
        return INVALID_PARAM;
      }
      var key := CoreKey(owner, id);
      if key !in eventRegistry {
        return INVALID_PARAM;
      }
      filters := RemoveLast(filters, EventFilter(key));
      eventRegistry := RemoveFirst(eventRegistry, key);
      RemoveComponent(EventNode(id));
      ret := SUCCESS;
    }

    method RegisterCall(owner: Name, call: Name, handler: Handler, filterOk: bool, ghost contexts: seq<Context>)
      returns (ret: Code)
      requires Valid()
      modifies this
      ensures Valid() && grpCtx == old(grpCtx) && OnlyKind(ComponentKind)
      ensures grpCtx != null ==> (Bus(contexts), ret) == Step(old(Bus(contexts)), PublishCall(owner, call, handler, filterOk))
      ensures grpCtx == null ==> ret == INVALID_PARAM && unchanged(this)
    {
      if grpCtx == null || !filterOk {
        return INVALID_PARAM;
      }
      filters := filters + [CallFilter(call, handler)];
      AddNode(CallNode(owner, call));
      return SUCCESS;
    }

    method RegisterEvent(owner: Name, ghost contexts: seq<Context>) returns (ret: Code)
      requires Valid()
      modifies this
      ensures Valid() && grpCtx == old(grpCtx) && OnlyKind(ComponentKind)
      ensures grpCtx != null ==> (Bus(contexts), ret) == Step(old(Bus(contexts)), PublishEvents(owner))
      ensures grpCtx == null ==> ret == INVALID_PARAM && unchanged(this)
    {
      if grpCtx == null {
        return INVALID_PARAM;
      }
      AddNode(SourceNode(owner));
      return SUCCESS;
    }

    /** IARM_NotifyEvent: send the record in a block of `size` bytes as a signal, if a message can hold it. */
    method NotifyEvent(owner: string, id: int, block: array<byte>, size: nat, sendOk: bool)
      returns (ret: Code, sent: Option<Message>)
      requires IsBlock(block[..], size)
      ensures ret == if grpCtx != null && IsEventId(id) && size % TWO32 <= MAX_ARRAY && sendOk then SUCCESS
                     else INVALID_PARAM
      ensures sent == if ret == SUCCESS then Some(EventSignal(owner, id, block[HEADER..])) else None
      ensures sent.Some? && size < TWO32 ==>
                sent.value == Signal([U32(id), Str(owner), U32(size), Blob(block[HEADER..])])
    {
      if grpCtx == null || !IsEventId(id) {
        return INVALID_PARAM, None;
      }
      var msg := EventSignal(owner, id, block[HEADER..]);
      assert size < TWO32 ==> block[HEADER..][..size % TWO32] == block[HEADER..];
      if msg.args[2].n > MAX_ARRAY || !sendOk {
        return INVALID_PARAM, None;
      }
      return SUCCESS, Some(msg);
    }

    /**
     IARM_CallWithTimeout of a method of member `owner`, which is the process `p`, on a block of `size`
     bytes: the method sees the shipped copy, and the reply is copied back over the argument in place.
     */
    method CallWithTimeout(owner: string, name: string, block: array<byte>, size: nat, p: Peer, ipc: Ipc)
      returns (retCode: Code, ret: Code)
      requires size < TWO63 && IsBlock(block[..], size) && IsPeer(p)
      modifies block
      ensures retCode == if grpCtx == null then INVALID_PARAM else CallCode(owner, name, size, p, ipc)
      ensures retCode == SUCCESS <==> grpCtx != null && Completes(owner, name, size, p, ipc)
      ensures grpCtx != null && |owner| <= 50 && size + 16 <= 0x400_0000 && ipc == Answered ==>
                forall i | FirstIs(p.ops, i, name) ::
                  retCode == SUCCESS && (block[HEADER..], ret) == p.table(p.ops[i].handler)(old(block[HEADER..]))
      ensures retCode != SUCCESS ==> block[..] == old(block[..])
    {
      ret := SUCCESS;
      CallCodes(owner, name, size, p, ipc);
      MethodIs(p, name);
      if grpCtx == null {
        return INVALID_PARAM, ret;
      }
      var serverName := Target(owner);
      TargetExact(owner, "");
      if serverName == "" {
        return INVALID_PARAM, ret;
      }
      if !Sendable(size) {
        return INVALID_PARAM, ret;
      }
      var msg := CallMessage(name, block[..], size);
      CalleeSeesArgument(name, block[..], size);
      if !IsWhole(msg.args[1].bs) {
        return INVALID_STATE, ret;
      }
      RemoteIsLocal(p, name, block[..], size);
      var reply := Respond(p, msg);
      if ipc.NoReply? || reply.None? {
        return INVALID_STATE, ret;
      }
      if ipc.Garbled? {
        return INVALID_PARAM, ret;
      }
      assert block[..][HEADER..] == block[HEADER..];
      ret := reply.value[0].v;
      var returnArg := reply.value[1].bs;
      forall i | 0 <= i < size {
        block[HEADER + i] := returnArg[i];
      }
      assert block[HEADER..] == returnArg;
      retCode := SUCCESS;
    }
  }
}
