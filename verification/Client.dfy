/** The client library of one process: its lifecycle, handler list, published calls and RPC. */
module Client {
  import opened IarmTypes
  import opened Lists
  import opened Names
  import opened Bytes
  import opened EventSpec
  import opened Delivery
  import opened Rpc
  import opened Core
  import EventData
  import DaemonSpec
  import Ownership

  // sizeof the records that the library allocates, on a 64-bit build.
  const MEMBER_SIZE: nat := 104
  const HANDLER_SIZE: nat := 80
  const CALL_SIZE: nat := 136
  const PRECHANGE_SIZE: nat := 128

  /** An IARM_Bus_CallContext_t. */
  datatype CallContext = CallContext(meth: Name, handler: Handler)

  predicate IsPreChangeMethod(meth: Name) {
    || meth == PowerPreChange.MethodName()
    || meth == DeepSleepWakeup.MethodName()
    || meth == ResolutionPreChange.MethodName()
    || meth == ResolutionPostChange.MethodName()
    || meth == SysModeChange.MethodName()
  }

  /** What the library announces to the daemon is exactly what broadcasts look for. */
  lemma AnnouncedAreLibrary(name: Name, meth: Name)
    ensures IsPreChangeMethod(meth) <==> DaemonSpec.LibrarySubscription(DaemonSpec.Subscribe(name, meth))
  {
    if p: PreChange :| meth == p.MethodName() {
      assert p.PowerPreChange? || p.DeepSleepWakeup? || p.ResolutionPreChange? || p.ResolutionPostChange? || p.SysModeChange?;
    }
  }

  lemma {:induction false} DropKeyNext(cs: seq<Context>, c: Context, k: Key)
    ensures DropKey(cs + [c], k) == if c.key != k then DropKey(cs, k) + [c] else DropKey(cs, k)
  {
    FilterAppend(cs, [c], (x: Context) => x.key != k);
    assert [c][1..] == [];
  }

  /** One turn of the deleting loop, with the cursor behind the entries kept so far. */
  lemma KeepOrDrop(kept: seq<Owned<Context>>, es: seq<Owned<Context>>, done: nat, key: Key)
    requires done < |es| && Values(kept) == DropKey(Values(es)[..done], key)
    requires forall e | e in kept :: e.value.key != key
    ensures if es[done].value.key == key then Values(kept) == DropKey(Values(es)[..done+1], key)
            else Values(kept + [es[done]]) == DropKey(Values(es)[..done+1], key)
    ensures es[done].value.key == key ==> es[done] !in kept
  {
    var vs := Values(es);
    assert vs[..done+1] == vs[..done] + [es[done].value];
    DropKeyNext(vs[..done], es[done].value, key);
    assert Values(kept + [es[done]]) == Values(kept) + [es[done].value];
  }

  class Client {
    const core: Core
    var initialized: bool
    var connected: bool
    var member: Block?
    var selfName: Name
    var eventHandlers: seq<Owned<Context>>
    var registeredCalls: seq<Owned<CallContext>>
    /** The calls made since the last initialization. */
    ghost var ops: seq<Op>

    /** The live blocks outside the core are the member record and those of the two lists. */
    ghost predicate Settled()
      reads this, core
    {
      SettledWith(core.live.handlers)
    }

    /** As `Settled`, with the handler list owning the given blocks. */
    ghost predicate SettledWith(handlers: set<Block>)
      reads this, core
    {
      && core.Valid()
      && core.live.members == (if member == null then {} else {member})
      && (member != null ==> member.kind == MemberKind)
      && Owns(eventHandlers, HandlerKind, handlers)
      && Owns(registeredCalls, CallKind, core.live.calls)
      && core.live.arguments == {}
    }

    ghost function View(): Bus
      reads this`eventHandlers, core`eventRegistry, core`filters, core`compList
    {
      core.Bus(Values(eventHandlers))
    }

    ghost predicate Valid()
      reads this, core
    {
      && Settled()
      && (connected ==> initialized)
      && (initialized <==> member != null)
      && (initialized <==> core.grpCtx != null)
      && (!initialized ==> eventHandlers == [] && registeredCalls == [])
      && (initialized ==> View() == Run(ops))
    }

    constructor ()
      ensures Valid() && !initialized && !connected && core.live == NOTHING && fresh(core)
      ensures core.mallocLocalCount == 0 && core.freeLocalCount == 0
    {
      core := new Core();
      initialized, connected, member, selfName := false, false, null, "";
      eventHandlers, registeredCalls, ops := [], [], [];
    }

    // -------------------------------------------------------------- lifecycle

    /** IARM_Bus_Init */
    method Init(name: string, busOk: bool) returns (ret: Code)
      requires Valid()
      modifies this, core
      ensures Valid() && core.live.orphans == old(core.live.orphans) && connected == old(connected)
      ensures ret == if old(initialized) then INVALID_STATE
                     else if |name| >= MAX_NAME_LEN then INVALID_PARAM
                     else if !busOk then IPCCORE_FAIL else SUCCESS
      ensures ret == SUCCESS ==> initialized && selfName == name && View() == EMPTY && registeredCalls == [] && ops == []
      ensures ret != SUCCESS ==> unchanged(this)
      ensures old(initialized) ==> unchanged(core)
    {
      if initialized || connected {
        return INVALID_STATE;
      }
      ret := core.Init(name, busOk);
      if ret == SUCCESS {
        NewMember();
        selfName, initialized, ops := name, true, [];
      }
    }

    method NewMember()
      requires Settled() && member == null
      modifies this`member, core`live, core`mallocLocalCount
      ensures Settled() && member != null && core.OnlyKind(MemberKind)
    {
      member := core.Malloc(MEMBER_SIZE, MemberKind);
    }

    /** IARM_Bus_Term; the core's own loop frees the components in `released`. */
    method Term(ghost released: set<Block>, count: nat) returns (ret: Code)
      requires Valid() && count == |released| && released <= core.live.components
      modifies this, core
      ensures Valid()
      ensures old(initialized && !connected) ==>
                && ret == SUCCESS && !initialized && !connected && member == null
                && eventHandlers == [] && registeredCalls == []
                && core.live == NOTHING.(orphans := old(core.live.orphans) + (old(core.live.components) - released))
      ensures !old(initialized && !connected) ==> ret == INVALID_PARAM && unchanged(this) && unchanged(core)
    {
      if !(initialized && !connected) {
        return INVALID_PARAM;
      }
      FreeRecords();
      initialized := false;
      ret := core.Term(released, count);
    }

    /** Free both lists' entries and the member record. */
    method FreeRecords()
      requires Settled() && member != null
      modifies this`eventHandlers, this`registeredCalls, this`member, core`live, core`freeLocalCount
      ensures Settled() && eventHandlers == [] && registeredCalls == [] && member == null
      ensures core.live == old(core.live).(handlers := {}, calls := {}, members := {})
    {
      FreeHandlers();
      FreeCalls();
      FreeMember();
    }

    method FreeMember()
      requires Settled() && member != null
      modifies this`member, core`live, core`freeLocalCount
      ensures Settled() && member == null && core.live == old(core.live).(members := {})
    {
      core.Free(member);
      member := null;
    }

    /** Free every entry of the handler list and empty it. */
    method FreeHandlers()
      requires Settled()
      modifies this`eventHandlers, core`live, core`freeLocalCount
      ensures Settled() && eventHandlers == [] && core.live == old(core.live).(handlers := {})
    {
      FreeAll(eventHandlers, HandlerKind);
      eventHandlers := [];
    }

    /** Free every entry of the call list and empty it. */
    method FreeCalls()
      requires Settled()
      modifies this`registeredCalls, core`live, core`freeLocalCount
      ensures Settled() && registeredCalls == [] && core.live == old(core.live).(calls := {})
    {
      FreeAll(registeredCalls, CallKind);
      registeredCalls := [];
    }

    /** Free the blocks of a list, front to back. */
    method FreeAll<T>(list: seq<Owned<T>>, ghost kind: Kind)
      requires core.Valid() && Owns(list, kind, core.live.Of(kind)) && kind != ContextKind && kind != ComponentKind
      modifies core`live, core`freeLocalCount
      ensures core.Valid() && core.live == old(core.live).With(kind, {})
    {
      for i := 0 to |list|
        invariant core.Valid() && Owns(list[i..], kind, core.live.Of(kind)) && core.OnlyKind(kind)
      {
        assert list[i..][1..] == list[i+1..];
        core.Free(list[i].block);
      }
    }

    /**
     IARM_Bus_Connect; `sent` is what it asks of the daemon, and the library connects whether or not the
     daemon hears of it.
     */
    method Connect() returns (ret: Code, sent: Option<DaemonSpec.Event>)
      requires Valid()
      modifies this`connected
      ensures Valid()
      ensures old(initialized && !connected) ==> ret == SUCCESS && connected
      ensures !old(initialized && !connected) ==> ret == INVALID_STATE && unchanged(this)
      ensures sent == if ret == SUCCESS && selfName != DAEMON_NAME then Some(DaemonSpec.Register(selfName)) else None
    {
      if initialized && !connected {
        sent := if selfName != DAEMON_NAME then Some(DaemonSpec.Register(selfName)) else None;
        connected := true;
        return SUCCESS, sent;
      }
      return INVALID_STATE, None;
    }

    /** IARM_Bus_Disconnect, with what it asks of the daemon. */
    method Disconnect() returns (ret: Code, sent: Option<DaemonSpec.Event>)
      requires Valid()
      modifies this`connected
      ensures Valid()
      ensures old(initialized && connected) ==> ret == SUCCESS && !connected
      ensures !old(initialized && connected) ==> ret == INVALID_STATE && unchanged(this)
      ensures sent == if ret == SUCCESS && selfName != DAEMON_NAME then Some(DaemonSpec.Unregister(selfName)) else None
    {
      if initialized && connected {
        sent := None;
        if member != null {
          sent := if selfName != DAEMON_NAME then Some(DaemonSpec.Unregister(selfName)) else None;
          connected := false;
        }
        return SUCCESS, sent;
      }
      return INVALID_STATE, None;
    }

    // -------------------------------------------------------------- event handlers

    /** IARM_Bus_RegisterEventHandler */
    method RegisterEventHandler(owner: string, id: int, handler: Handler, filterOk: bool) returns (ret: Code)
      requires Valid()
      modifies this`eventHandlers, this`ops, core
      ensures Valid() && core.live.orphans == old(core.live.orphans)
      ensures handler == 0 ==> ret == INVALID_PARAM && unchanged(this) && unchanged(core)
      ensures handler != 0 && !connected ==> ret == INVALID_STATE && unchanged(this) && unchanged(core)
      ensures handler != 0 && connected ==>
                && ops == old(ops) + [AddHandler(owner, id, handler, filterOk)]
                && (View(), ret) == Step(old(View()), AddHandler(owner, id, handler, filterOk))
    {
      if handler == 0 {
        return INVALID_PARAM;
      }
      if !(initialized && connected) {
        return INVALID_STATE;
      }
      ghost var was := View();
      ret := AddContext(Context(ContextKey(owner, id), handler), owner, id, filterOk);
      Log(AddHandler(owner, id, handler, filterOk), was);
    }

    /** Record a call that has just been carried out. */
    ghost method Log(op: Op, was: Bus)
      requires Settled() && initialized && member != null && core.grpCtx != null
      requires was == Run(ops) && View() == Step(was, op).0
      modifies this`ops
      ensures Valid() && ops == old(ops) + [op]
    {
      RunExtend(ops, op);
      var all := ops + [op];
      assert View() == Run(all);
      ops := all;
      assert Settled();
    }

    /** Allocate an entry, then reject it as a duplicate or list it, with a listener for a new key. */
    method AddContext(c: Context, owner: string, id: int, filterOk: bool) returns (ret: Code)
      requires Settled() && core.grpCtx != null
      modifies this`eventHandlers, core
      ensures Settled() && core.grpCtx == old(core.grpCtx) && core.live.orphans == old(core.live.orphans)
      ensures var b := old(View());
              var added := b.(contexts := [c] + b.contexts);
              (View(), ret) == if c in b.contexts then (b, INVALID_PARAM)
                               else if HasKey(b.contexts, c.key) then (added, SUCCESS)
                               else Listen(added, owner, id, filterOk)
    {
      ghost var owned;
      var b;
      b, owned := NewEntry();
      if c in Values(eventHandlers) {
        Discard(b, owned);
        return INVALID_PARAM;
      }
      ret := Enlist(Owned(c, b), owned, owner, id, filterOk);
    }

    /** Allocate a block for an entry that is not listed yet. */
    method NewEntry() returns (b: Block, ghost owned: set<Block>)
      requires Settled()
      modifies core`live, core`mallocLocalCount
      ensures SettledWith(owned) && b.kind == HandlerKind && b !in owned && core.live.handlers == owned + {b}
      ensures core.live.orphans == old(core.live.orphans)
    {
      owned := core.live.handlers;
      b := core.Malloc(HANDLER_SIZE, HandlerKind);
    }

    /** Free a block that was allocated for an entry and not listed. */
    method Discard(b: Block, ghost owned: set<Block>)
      requires SettledWith(owned) && b.kind == HandlerKind && b !in owned && core.live.handlers == owned + {b}
      modifies core`live, core`freeLocalCount
      ensures Settled() && core.live.orphans == old(core.live.orphans)
    {
      core.Free(b);
      assert core.live.handlers == owned;
    }

    /** Put an entry with its new block in front of the list, with a listener for a new key. */
    method Enlist(e: Owned<Context>, ghost owned: set<Block>, owner: string, id: int, filterOk: bool)
      returns (ret: Code)
      requires SettledWith(owned) && core.grpCtx != null
      requires e.block.kind == HandlerKind && e.block !in owned && core.live.handlers == owned + {e.block}
      modifies this`eventHandlers, core
      ensures Settled() && core.grpCtx == old(core.grpCtx) && core.live.orphans == old(core.live.orphans)
      ensures var b := old(View());
              var added := b.(contexts := [e.value] + b.contexts);
              (View(), ret) == if HasKey(b.contexts, e.value.key) then (added, SUCCESS)
                               else Listen(added, owner, id, filterOk)
    {
      var first := !HasKey(Values(eventHandlers), e.value.key);
      OwnsPrepend(e, eventHandlers, HandlerKind, owned);
      eventHandlers := [e] + eventHandlers;
      ret := SUCCESS;
      if first {
        ret := core.RegisterListner(owner, id, filterOk, Values(eventHandlers));
      }
    }

    /** IARM_Bus_UnRegisterEventHandler: delete under the cursor, then drop the listener. */
    method UnRegisterEventHandler(owner: string, id: int) returns (ret: Code)
      requires Valid()
      modifies this`eventHandlers, this`ops, core
      ensures Valid() && core.live.orphans == old(core.live.orphans)
      ensures !connected ==> ret == INVALID_STATE && unchanged(this) && unchanged(core)
      ensures connected ==>
                && ops == old(ops) + [RemoveAll(owner, id)]
                && (View(), ret) == Step(old(View()), RemoveAll(owner, id))
    {
      if !(initialized && connected) {
        return INVALID_STATE;
      }
      ghost var was := View();
      DropHandlers(SearchKey(owner, id));
      ret := core.UnRegisterListner(owner, id, Values(eventHandlers));
      Log(RemoveAll(owner, id), was);
    }

    /** Unlink and free every entry of a key; the others keep their order. */
    method DropHandlers(key: Key)
      requires Settled()
      modifies this`eventHandlers, core`live, core`freeLocalCount
      ensures Settled() && core.live.orphans == old(core.live.orphans)
      ensures Values(eventHandlers) == DropKey(old(Values(eventHandlers)), key)
    {
      ghost var es, done := eventHandlers, 0;
      ghost var kept: seq<Owned<Context>> := [];
      var i := 0;
      while i < |eventHandlers|
        invariant done <= |es| && i == |kept|
        invariant eventHandlers == kept + es[done..]
        invariant Values(kept) == DropKey(Values(es)[..done], key)
        invariant forall e | e in kept :: e.value.key != key
        invariant Settled() && core.live.orphans == old(core.live.orphans)
        decreases |es| - done
      {
        KeepOrDrop(kept, es, done, key);
        Seam(kept, es, done);
        var dropped := DropAt(i, key);
        if !dropped {
          kept := kept + [es[done]];
          i := i + 1;
        }
        done := done + 1;
      }
      assert Values(es)[..done] == Values(es);
    }

    /** Unlink and free the entry under the cursor if it has the key. */
    method DropAt(i: nat, key: Key) returns (dropped: bool)
      requires Settled() && i < |eventHandlers|
      requires eventHandlers[i].value.key == key ==> eventHandlers[i] !in eventHandlers[..i]
      modifies this`eventHandlers, core`live, core`freeLocalCount
      ensures Settled() && core.live.orphans == old(core.live.orphans)
      ensures dropped <==> old(eventHandlers[i]).value.key == key
      ensures eventHandlers == if dropped then old(eventHandlers[..i] + eventHandlers[i+1..]) else old(eventHandlers)
    {
      dropped := eventHandlers[i].value.key == key;
      if dropped {
        Unlink(i);
      }
    }

    /** Unlink the entry at `i`, the first of its kind, and free its block. */
    method Unlink(i: nat)
      requires Settled()
      requires i < |eventHandlers| && eventHandlers[i] !in eventHandlers[..i]
      modifies this`eventHandlers, core`live, core`freeLocalCount
      ensures Settled() && core.live.orphans == old(core.live.orphans)
      ensures eventHandlers == old(eventHandlers[..i] + eventHandlers[i+1..])
    {
      var e := eventHandlers[i];
      Detach(i);
      core.Free(e.block);
    }

    /** g_list_remove of the entry at `i`, the first of its kind; its block is still allocated. */
    method Detach(i: nat)
      requires Settled()
      requires i < |eventHandlers| && eventHandlers[i] !in eventHandlers[..i]
      modifies this`eventHandlers
      ensures SettledWith(core.live.handlers - {old(eventHandlers[i].block)})
      ensures old(eventHandlers[i].block) in core.live.handlers && old(eventHandlers[i].block).kind == HandlerKind
      ensures eventHandlers == old(eventHandlers[..i] + eventHandlers[i+1..])
    {
      RemoveFirstAt(eventHandlers, i);
      OwnsRemove(eventHandlers, eventHandlers[i], HandlerKind, core.live.handlers);
      eventHandlers := RemoveFirst(eventHandlers, eventHandlers[i]);
    }

    /** IARM_Bus_RemoveEventHandler: delete one handler; with its key's last one, the listener. */
    method RemoveEventHandler(owner: string, id: int, handler: Handler) returns (ret: Code)
      requires Valid()
      modifies this`eventHandlers, this`ops, core
      ensures Valid() && core.live.orphans == old(core.live.orphans)
      ensures handler == 0 ==> ret == INVALID_PARAM && unchanged(this) && unchanged(core)
      ensures handler != 0 && !connected ==> ret == INVALID_STATE && unchanged(this) && unchanged(core)
      ensures handler != 0 && connected ==>
                && ops == old(ops) + [RemoveHandler(owner, id, handler)]
                && (View(), ret) == Step(old(View()), RemoveHandler(owner, id, handler))
    {
      if handler == 0 {
        return INVALID_PARAM;
      }
      if !(initialized && connected) {
        return INVALID_STATE;
      }
      ghost var was := View();
      var i := FindContext(Context(SearchKey(owner, id), handler));
      ret := INVALID_PARAM;
      if i < |eventHandlers| {
        ret := RemoveAt(i, owner, id, handler);
      }
      Log(RemoveHandler(owner, id, handler), was);
    }

    /** The first entry with the given contents, or the list's length. */
    method FindContext(c: Context) returns (i: nat)
      ensures i <= |eventHandlers| && c !in Values(eventHandlers)[..i]
      ensures if i < |eventHandlers| then eventHandlers[i].value == c else c !in Values(eventHandlers)
    {
      ghost var vs := Values(eventHandlers);
      i := 0;
      while i < |eventHandlers| && eventHandlers[i].value != c
        invariant i <= |eventHandlers|
        invariant c !in vs[..i]
      {
        assert vs[..i+1] == vs[..i] + [eventHandlers[i].value];
        i := i + 1;
      }
      assert i == |eventHandlers| ==> vs[..i] == vs;
    }

    /** Unlink the entry at `i`, ask for its listener to go if it was the key's last, then free it. */
    method RemoveAt(i: nat, owner: string, id: int, handler: Handler) returns (ret: Code)
      requires Settled() && core.grpCtx != null && handler != 0
      requires i < |eventHandlers| && eventHandlers[i].value == Context(SearchKey(owner, id), handler)
      requires eventHandlers[i].value !in Values(eventHandlers)[..i]
      modifies this`eventHandlers, core
      ensures Settled() && core.grpCtx == old(core.grpCtx) && core.live.orphans == old(core.live.orphans)
      ensures (View(), ret) == Step(old(View()), RemoveHandler(owner, id, handler))
    {
      var e := eventHandlers[i];
      RemoveOwned(eventHandlers, i);
      Detach(i);
      ret := INVALID_PARAM;
      if !HasKey(Values(eventHandlers), e.value.key) {
        ret := core.UnRegisterListner(owner, id, Values(eventHandlers));
      }
      core.Free(e.block);
    }

    /** _EventHandler_FuncWrapper on an incoming record; the handlers leave the list alone. */
    method EventHandlerFuncWrapper(record: seq<byte>) returns (calls: seq<Invocation>)
      requires EventData.IsPacked(record)
      ensures calls == FanOut(Values(eventHandlers), EventData.Unpack(record))
    {
      var e := EventData.Unpack(record);
      ghost var cs := Values(eventHandlers);
      calls := [];
      var i := 0;
      while i < |eventHandlers|
        invariant i <= |eventHandlers|
        invariant calls == FanOut(cs[..i], e)
      {
        var c := eventHandlers[i].value;
        assert cs[..i+1] == cs[..i] + [c];
        FanOutNext(cs[..i], c, e);
        if c.key == Key(e.owner, e.id) {
          if c.handler != 0 {
            calls := calls + [HandlerRun(c.handler, e)];
          }
        }
        i := i + 1;
      }
      assert cs[..i] == cs;
    }

    // -------------------------------------------------------------- publishing

    /**
     IARM_Bus_RegisterCall; `subscribed` says that the method was also announced to the daemon as one
     to call on broadcasts.
     */
    method RegisterCall(meth: string, handler: Handler, filterOk: bool) returns (ret: Code, subscribed: bool)
      requires Valid()
      modifies this`registeredCalls, this`ops, core
      ensures Valid() && core.live.orphans == old(core.live.orphans)
      ensures |meth| >= MAX_NAME_LEN ==> ret == INVALID_PARAM && !subscribed && unchanged(this) && unchanged(core)
      ensures |meth| < MAX_NAME_LEN && !connected ==>
                ret == INVALID_STATE && !subscribed && unchanged(this) && unchanged(core)
      ensures |meth| < MAX_NAME_LEN && connected ==>
                && ops == old(ops) + [PublishCall(selfName, meth, handler, filterOk)]
                && (View(), ret) == Step(old(View()), PublishCall(selfName, meth, handler, filterOk))
                && Values(registeredCalls) == [CallContext(meth, handler)] + old(Values(registeredCalls))
                && (subscribed <==> selfName != DAEMON_NAME && IsPreChangeMethod(meth))
    {
      subscribed := false;
      if |meth| >= MAX_NAME_LEN {
        return INVALID_PARAM, false;
      }
      if !(initialized && connected) {
        return INVALID_STATE, false;
      }
      ghost var was := View();
      ret := AddCall(meth, handler, filterOk);
      if selfName != DAEMON_NAME && IsPreChangeMethod(meth) {
        AnnouncePreChange();
        subscribed := true;
      }
      Log(PublishCall(selfName, meth, handler, filterOk), was);
    }

    /** List an entry for the call and publish it; the entry stays whether or not that worked. */
    method AddCall(meth: Name, handler: Handler, filterOk: bool) returns (ret: Code)
      requires Settled() && core.grpCtx != null
      modifies this`registeredCalls, core
      ensures Settled() && core.grpCtx == old(core.grpCtx) && core.live.orphans == old(core.live.orphans)
      ensures (View(), ret) == Step(old(View()), PublishCall(selfName, meth, handler, filterOk))
      ensures Values(registeredCalls) == [CallContext(meth, handler)] + old(Values(registeredCalls))
    {
      ListCall(CallContext(meth, handler));
      ret := core.RegisterCall(selfName, meth, handler, filterOk, Values(eventHandlers));
    }

    /** Allocate an entry for a call and put it in front of the list. */
    method ListCall(c: CallContext)
      requires Settled()
      modifies this`registeredCalls, core`live, core`mallocLocalCount
      ensures Settled() && core.live.orphans == old(core.live.orphans)
      ensures Values(registeredCalls) == [c] + old(Values(registeredCalls))
    {
      ghost var owned := core.live.calls;
      var b := core.Malloc(CALL_SIZE, CallKind);
      PushCall(Owned(c, b), owned);
    }

    method PushCall(e: Owned<CallContext>, ghost owned: set<Block>)
      requires Owns(registeredCalls, CallKind, owned) && e.block !in owned && e.block.kind == CallKind
      modifies this`registeredCalls
      ensures Owns(registeredCalls, CallKind, owned + {e.block})
      ensures Values(registeredCalls) == [e.value] + Values(old(registeredCalls))
    {
      OwnsPrepend(e, registeredCalls, CallKind, owned);
      registeredCalls := [e] + registeredCalls;
    }

    /** The announcement is itself a remote call: one block out and back. */
    method AnnouncePreChange()
      requires Settled()
      modifies core`live, core`mallocLocalCount, core`freeLocalCount
      ensures Settled() && core.live == old(core.live)
    {
      var argOut := core.Malloc(PRECHANGE_SIZE, ArgumentKind);
      core.Free(argOut);
      assert core.live.arguments == old(core.live.arguments);
    }

    /** IARM_Bus_RegisterEvent */
    method RegisterEvent() returns (ret: Code)
      requires Valid()
      modifies this`ops, core
      ensures Valid() && core.live.orphans == old(core.live.orphans)
      ensures !connected ==> ret == INVALID_STATE && unchanged(this) && unchanged(core)
      ensures connected ==>
                && ops == old(ops) + [PublishEvents(selfName)]
                && (View(), ret) == Step(old(View()), PublishEvents(selfName))
    {
      if !(initialized && connected) {
        return INVALID_STATE;
      }
      ghost var was := View();
      ret := core.RegisterEvent(selfName, Values(eventHandlers));
      Log(PublishEvents(selfName), was);
    }

    /**
     IARM_Bus_BroadcastEvent: pack a record into a block of its own, send it, free the block. `mem` is
     what the fresh block happened to hold.
     */
    method BroadcastEvent(owner: string, id: int, data: array?<byte>, sendOk: bool)
      returns (ret: Code, sent: Option<Message>, ghost mem: seq<byte>)
      requires Valid() && IsText(owner) && IsInt32(id)
      requires data != null ==> data.Length + EventData.FIXED < TWO63
      modifies core`live, core`mallocLocalCount, core`freeLocalCount
      ensures Valid() && core.live == old(core.live)
      ensures ret == if !connected then INVALID_STATE
                     else if |owner| > MAX_NAME_LEN || data == null || !IsEventId(id) || !sendOk then INVALID_PARAM
                     else if (EventData.FIXED + data.Length) % TWO32 > MAX_ARRAY then INVALID_PARAM
                     else SUCCESS
      ensures data != null ==> |mem| == EventData.FIXED + data.Length
      ensures sent == if ret == SUCCESS
                      then Some(EventSignal(owner, id, EventData.Pack(mem, owner, id, data[..]))) else None
    {
      mem := if data == null then [] else seq(EventData.FIXED + data.Length, i => 0);
      sent := None;
      if !(initialized && connected) {
        return INVALID_STATE, None, mem;
      }
      if |owner| > MAX_NAME_LEN || data == null {
        return INVALID_PARAM, None, mem;
      }
      ret, sent, mem := SendRecord(owner, id, data[..], sendOk);
    }

    /** Allocate a block for the record, fill it, send it, free it. */
    method SendRecord(owner: string, id: int, data: seq<byte>, sendOk: bool)
      returns (ret: Code, sent: Option<Message>, ghost mem: seq<byte>)
      requires core.Valid() && core.grpCtx != null && IsText(owner) && IsInt32(id)
      requires |data| + EventData.FIXED < TWO63
      modifies core`live, core`mallocLocalCount, core`freeLocalCount
      ensures core.Valid() && core.live == old(core.live)
      ensures ret == if IsEventId(id) && (EventData.FIXED + |data|) % TWO32 <= MAX_ARRAY && sendOk then SUCCESS
                     else INVALID_PARAM
      ensures |mem| == EventData.FIXED + |data|
      ensures sent == if ret == SUCCESS then Some(EventSignal(owner, id, EventData.Pack(mem, owner, id, data))) else None
    {
      var size := EventData.FIXED + |data|;
      var b := core.Malloc(size, ArgumentKind);
      mem := b.bytes[HEADER..];
      var record := EventData.Pack(b.bytes[HEADER..], owner, id, data);
      CopyBehindHeader(b.bytes, size, record);
      ret, sent := core.NotifyEvent(owner, id, b.bytes, size, sendOk);
      core.Free(b);
      assert core.live.arguments == old(core.live.arguments);
    }

    /** memcpy into a block's payload. */
    static method CopyBehindHeader(b: array<byte>, size: nat, content: seq<byte>)
      requires IsBlock(b[..], size) && |content| == size
      modifies b
      ensures IsBlock(b[..], size) && b[HEADER..] == content
    {
      ghost var was := b[..];
      forall i | 0 <= i < size {
        b[HEADER + i] := content[i];
      }
      assert b[..][0..8] == was[0..8] && b[..][8..12] == was[8..12];
    }

    // -------------------------------------------------------------- remote calls

    /**
     IARM_Bus_Call of a method of member `owner`, which is the process `p`: a completed call leaves the
     caller's buffer as the method first published under that name made it, and returns its code.
     Without an argument the method gets one byte, `junk`.
     */
    method Call(owner: string, name: string, arg: array?<byte>, p: Peer, ipc: Ipc)
      returns (ret: Code, ghost junk: seq<byte>)
      requires Valid() && IsPeer(p)
      requires arg != null ==> arg.Length < TWO63
      modifies core`live, core`mallocLocalCount, core`freeLocalCount, arg
      ensures Valid() && core.live == old(core.live) && |junk| == 1
      ensures !connected ==> ret == INVALID_STATE && (arg != null ==> arg[..] == old(arg[..]))
      ensures connected && |owner| <= 50 && ipc == Answered && arg == null ==>
                forall i | FirstIs(p.ops, i, name) :: ret == p.table(p.ops[i].handler)(junk).1
      ensures connected && |owner| <= 50 && ipc == Answered && arg != null && arg.Length + 16 <= 0x400_0000 ==>
                forall i | FirstIs(p.ops, i, name) :: (arg[..], ret) == p.table(p.ops[i].handler)(old(arg[..]))
      ensures connected && arg == null && !Completes(owner, name, 1, p, ipc) ==>
                ret == CallCode(owner, name, 1, p, ipc) != SUCCESS
      ensures connected && arg != null && !Completes(owner, name, arg.Length, p, ipc) ==>
                ret == CallCode(owner, name, arg.Length, p, ipc) != SUCCESS && arg[..] == old(arg[..])
    {
      junk := [0];
      if !(initialized && connected) {
        return INVALID_STATE, junk;
      }
      var retVal, argOut;
      ret, retVal, argOut, junk := Exchange(owner, name, if arg != null then Some(arg[..]) else None, p, ipc);
      if ret == SUCCESS && arg != null {
        forall i | 0 <= i < arg.Length {
          arg[i] := argOut[i];
        }
        assert arg[..] == argOut;
      }
      if ret == SUCCESS {
        ret := retVal;
      }
    }

    /** Allocate a block for the argument, send it and take the reply in place, free it. */
    method Exchange(owner: string, name: string, arg: Option<seq<byte>>, p: Peer, ipc: Ipc)
      returns (ret: Code, retVal: Code, argOut: seq<byte>, ghost junk: seq<byte>)
      requires core.Valid() && core.grpCtx != null && IsPeer(p)
      requires arg.Some? ==> |arg.value| < TWO63
      modifies core`live, core`mallocLocalCount, core`freeLocalCount
      ensures core.Valid() && core.live == old(core.live) && |junk| == 1
      ensures var size := if arg.Some? then |arg.value| else 1;
              ret == CallCode(owner, name, size, p, ipc) && (ret == SUCCESS <==> Completes(owner, name, size, p, ipc))
      ensures ret == SUCCESS ==> forall i | FirstIs(p.ops, i, name) ::
                (argOut, retVal) == p.table(p.ops[i].handler)(if arg.Some? then arg.value else junk)
    {
      junk := [0];
      var size := if arg.Some? then |arg.value| else 1;
      var b := core.Malloc(size, ArgumentKind);
      if arg.Some? {
        CopyBehindHeader(b.bytes, size, arg.value);
      } else {
        junk := b.bytes[HEADER..];
      }
      ret, retVal := core.CallWithTimeout(owner, name, b.bytes, size, p, ipc);
      argOut := b.bytes[HEADER..];
      core.Free(b);
      assert core.live.arguments == old(core.live.arguments);
    }

    /**
     IARM_BusDaemon_RequestOwnership and, with `release`, IARM_BusDaemon_ReleaseOwnership, against the
     daemon `p` with history `es`, whose nested yield call would return `answer`.
     */
    method AskDaemon(release: bool, resource: int, p: Peer, es: seq<DaemonSpec.Event>, answer: Code,
                     t: Ownership.Transport)
      returns (ret: Code)
      requires Valid() && IsText(selfName) && IsInt32(answer)
      requires DaemonSpec.Legal(es) && Ownership.IsDaemon(p, DaemonSpec.Run(es), answer)
      modifies core`live, core`mallocLocalCount, core`freeLocalCount
      ensures Valid() && core.live == old(core.live)
      ensures !DaemonSpec.IsResource(resource) ==> ret == INVALID_PARAM
      ensures DaemonSpec.IsResource(resource) && !connected ==> ret == INVALID_STATE
      ensures DaemonSpec.IsResource(resource) && connected && !release ==>
                ret == Ownership.Outcome(DaemonSpec.Run(es), DaemonSpec.Request(selfName, resource, answer), t)
      ensures DaemonSpec.IsResource(resource) && connected && release ==>
                ret == Ownership.Outcome(DaemonSpec.Run(es), DaemonSpec.Release(selfName, resource), t)
      ensures DaemonSpec.IsResource(resource) && connected && !release ==>
                (ret == SUCCESS <==> Ownership.Grantable(es, selfName, resource, answer, t))
      ensures DaemonSpec.IsResource(resource) && connected && release ==>
                (ret == SUCCESS <==>
                   t == Ownership.Delivered && exists i :: DaemonSpec.Holds(es, i, selfName, resource))
    {
      if !DaemonSpec.IsResource(resource) {
        return INVALID_PARAM;
      }
      if !(initialized && connected) {
        return INVALID_STATE;
      }
      ret := SendRequest(release, resource, p, DaemonSpec.Run(es), answer, t);
      if release {
        Ownership.ReleaseEndToEnd(es, selfName, resource, t);
      } else {
        Ownership.GrantEndToEnd(es, selfName, resource, answer, t);
      }
    }

    /** Fill in the request record, call the daemon's method, and read both its code and the record's result. */
    method SendRequest(release: bool, resource: int, p: Peer, s: DaemonSpec.State, answer: Code,
                       t: Ownership.Transport)
      returns (ret: Code)
      requires Valid() && connected && IsText(selfName) && IsInt32(answer) && DaemonSpec.IsResource(resource)
      requires Ownership.IsDaemon(p, s, answer)
      modifies core`live, core`mallocLocalCount, core`freeLocalCount
      ensures Valid() && core.live == old(core.live)
      ensures ret == if release then Ownership.Outcome(s, DaemonSpec.Release(selfName, resource), t)
                     else Ownership.Outcome(s, DaemonSpec.Request(selfName, resource, answer), t)
    {
      ghost var mem;
      var req;
      req, mem := NewRequest(resource);
      Ownership.ClientReads(p, s, release, answer, mem, selfName, resource, t);
      var ipc := Ownership.Observed(s, Ownership.Asking(selfName, release, resource, answer), t);
      ghost var junk;
      ret, junk := Call(DAEMON_NAME, Ownership.MethodName(release), req, p, ipc);
      var rpcResult := IntAt(req[..], Ownership.RESULT_AT);
      if rpcResult != SUCCESS {
        ret := rpcResult;
      }
    }

    /** The request record of this member, written over fresh memory that held `mem`. */
    method NewRequest(resource: int) returns (req: array<byte>, ghost mem: seq<byte>)
      requires IsText(selfName) && IsInt32(resource)
      ensures fresh(req) && |mem| == Ownership.REQUEST_SIZE
      ensures req[..] == Ownership.RequestBytes(mem, selfName, resource)
    {
      req := new byte[Ownership.REQUEST_SIZE];
      mem := req[..];
      var content := Ownership.RequestBytes(req[..], selfName, resource);
      forall i | 0 <= i < Ownership.REQUEST_SIZE {
        req[i] := content[i];
      }
      assert req[..] == content;
    }

    // -------------------------------------------------------------- whole-run facts

    /** At every API boundary between Init and Term: counted blocks are context, member and list entries. */
    lemma BlockConservation()
      requires Valid() && initialized
      ensures core.mallocLocalCount - core.freeLocalCount
              == |core.live.orphans| + 2 + |eventHandlers| + |registeredCalls| + |core.compList|
    {
      OwnsSize(eventHandlers, HandlerKind, core.live.handlers);
      OwnsSize(registeredCalls, CallKind, core.live.calls);
      OwnsSize(core.compList, ComponentKind, core.live.components);
    }

    /** Whatever was called since Init, an event runs its handlers once for each listener it meets. */
    lemma DeliveryNow(msg: Message)
      requires Valid() && initialized
      requires IsEventSignal(msg)
      ensures var e := EventData.Unpack(msg.args[3].bs);
              var hs := HandlersOf(Values(eventHandlers), Key(e.owner, e.id));
              && Effects(Values(eventHandlers), core.filters, msg)
                 == Times(Runs(hs, e), multiset(core.eventRegistry)[SignalKey(msg)])
              && NoDup(hs)
              && (Effects(Values(eventHandlers), core.filters, msg) == Runs(hs, e) <==>
                    hs == [] || multiset(core.eventRegistry)[SignalKey(msg)] == 1)
    {
      DeliveryTimes(ops, msg);
      OnceExactly(ops, msg);
    }
  }
}
