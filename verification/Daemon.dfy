/**
 The daemon's handlers over the structures they really use: a list of member objects, seven slots
 that point into that list, and a list of subscription keys. `live` is the set of member
 objects that have been allocated and not freed; reading a member requires it to be live.
 */
module Daemon {
  import opened IarmTypes
  import opened Lists
  import opened Names
  import opened DaemonSpec

  /** The daemon's own copy of an IARM_Bus_Member_t. */
  class Member {
    const selfName: Name

    constructor (name: Name)
      ensures selfName == name
    {
      selfName := name;
    }
  }

  /** One call sent by a broadcast, with the two fields of its parameter block. */
  datatype RpcCall = RpcCall(member: Name, meth: Name, first: int, second: int)

  function MemberNames(ms: seq<Member>): (ns: seq<Name>)
    ensures |ns| == |ms|
  {
    seq(|ms|, i requires 0 <= i < |ms| => ms[i].selfName)
  }

  function SlotName(m: Member?): Option<Name> {
    if m == null then None else Some(m.selfName)
  }

  /** What the structures say, with names in place of pointers. */
  function Abstract(ms: seq<Member>, slots: seq<Member?>, subs: seq<string>): State
    requires |slots| == RESOURCES
  {
    State(MemberNames(ms), seq(RESOURCES, r requires 0 <= r < RESOURCES => SlotName(slots[r])), subs)
  }

  lemma ListedName(ms: seq<Member>, m: Member)
    requires m in ms
    ensures m.selfName in MemberNames(ms)
  {
    var i :| 0 <= i < |ms| && ms[i] == m;
    assert MemberNames(ms)[i] == m.selfName;
  }

  /** While names are distinct an object is determined by its name. */
  lemma SameName(ms: seq<Member>, m: Member, x: Member)
    requires NoDup(MemberNames(ms)) && m in ms && x in ms && m.selfName == x.selfName
    ensures m == x
  {
    var i :| 0 <= i < |ms| && ms[i] == m;
    var j :| 0 <= j < |ms| && ms[j] == x;
    assert MemberNames(ms)[i] == MemberNames(ms)[j];
  }

  /** The calls that carry one request to a list of members. */
  function CallsTo(ns: seq<Name>, meth: Name, first: int, second: int): seq<RpcCall> {
    seq(|ns|, i requires 0 <= i < |ns| => RpcCall(ns[i], meth, first, second))
  }

  /** One turn of a broadcast's loop: whom it tries to call, and what it sends. */
  lemma BroadcastNext(ns: seq<Name>, subs: seq<string>, p: PreChange, i: nat, first: int, second: int)
    requires i < |ns|
    ensures var tried := Subscribers(ns[..i], subs, p);
            var calls := CallsTo(Short(tried), p.MethodName(), first, second);
            var all := Subscribers(ns[..i+1], subs, p);
            && all == tried + (if Join(ns[i], p.MethodName()) in subs then [ns[i]] else [])
            && CallsTo(Short(all), p.MethodName(), first, second) == calls +
                 if Join(ns[i], p.MethodName()) in subs && Target(ns[i]) != ""
                 then [RpcCall(ns[i], p.MethodName(), first, second)] else []
  {
    SubscribersNext(ns, subs, p, i);
    TargetExact(ns[i], ns[i]);
    ShortNext(Subscribers(ns[..i], subs, p), ns[i]);
    assert Subscribers(ns[..i], subs, p) + [] == Subscribers(ns[..i], subs, p);
  }

  /** Appending a new object after the old one left is the registration step. */
  lemma AppendListed(ms: seq<Member>, slots: seq<Member?>, subs: seq<string>, m: Member, was: State)
    requires |slots| == RESOURCES && Sound(was)
    requires Abstract(ms, slots, subs) == Leave(was, m.selfName)
    ensures Abstract(ms + [m], slots, subs) == Next(was, Register(m.selfName))
    ensures NoDup(MemberNames(ms + [m]))
  {
    RemoveFirstNoDup(was.members, m.selfName);
    assert MemberNames(ms + [m]) == MemberNames(ms) + [m.selfName];
  }

  function Cleared(slots: seq<Member?>, m: Member): (r: seq<Member?>)
    ensures |r| == |slots|
  {
    seq(|slots|, i requires 0 <= i < |slots| => if slots[i] == m then null else slots[i])
  }

  lemma NoSuchMember(ms: seq<Member>, slots: seq<Member?>, subs: seq<string>, name: Name)
    requires |slots| == RESOURCES && name !in MemberNames(ms)
    ensures Leave(Abstract(ms, slots, subs), name) == Abstract(ms, slots, subs)
    ensures forall m | m in ms :: m.selfName != name
  {
    assert Leave(Abstract(ms, slots, subs), name).owner == Abstract(ms, slots, subs).owner;
    forall m | m in ms ensures m.selfName != name {
      ListedName(ms, m);
    }
  }

  /** Unlinking by object is leaving by name, and no slot or list node keeps the object. */
  lemma RemoveListed(ms: seq<Member>, slots: seq<Member?>, subs: seq<string>, m: Member)
    requires |slots| == RESOURCES && NoDup(MemberNames(ms)) && m in ms
    requires forall r | 0 <= r < RESOURCES :: slots[r] != null ==> slots[r] in ms
    ensures Abstract(RemoveFirst(ms, m), Cleared(slots, m), subs) == Leave(Abstract(ms, slots, subs), m.selfName)
    ensures NoDup(MemberNames(RemoveFirst(ms, m)))
    ensures forall x :: x in RemoveFirst(ms, m) <==> x in ms && x != m
    ensures forall x | x in ms && x.selfName == m.selfName :: x == m
  {
    RemoveMember(ms, m);
    RemoveFirstNoDup(MemberNames(ms), m.selfName);
    ListedName(ms, m);
    forall x ensures x in RemoveFirst(ms, m) <==> x in ms && x != m {
      Unlinked(ms, m, x);
    }
    forall x | x in ms && x.selfName == m.selfName ensures x == m {
      SameName(ms, m, x);
    }
    assert Abstract(RemoveFirst(ms, m), Cleared(slots, m), subs).owner
           == Leave(Abstract(ms, slots, subs), m.selfName).owner;
  }

  lemma NamesCut(ms: seq<Member>, i: nat)
    requires i < |ms|
    ensures MemberNames(ms[..i] + ms[i+1..]) == MemberNames(ms)[..i] + MemberNames(ms)[i+1..]
  {
  }

  /** Dropping a member object drops its name from the list of names. */
  lemma RemoveMember(ms: seq<Member>, m: Member)
    requires NoDup(MemberNames(ms)) && m in ms
    ensures MemberNames(RemoveFirst(ms, m)) == RemoveFirst(MemberNames(ms), m.selfName)
  {
    var ns := MemberNames(ms);
    var i := FirstIndex(ms, m);
    assert ns[i] == m.selfName;
    forall j | 0 <= j < i ensures ns[j] != ns[i] {
    }
    RemoveFirstAt(ms, i);
    RemoveFirstAt(ns, i);
    NamesCut(ms, i);
  }

  /** The object unlinked is no longer in the list, and everything else still is. */
  lemma Unlinked(ms: seq<Member>, m: Member, x: Member)
    requires NoDup(MemberNames(ms)) && m in ms
    ensures x in RemoveFirst(ms, m) <==> x in ms && x != m
  {
    forall i, j | 0 <= i < j < |ms| ensures ms[i] != ms[j] {
      assert MemberNames(ms)[i] != MemberNames(ms)[j];
    }
    RemoveFirstNoDup(ms, m);
  }

  class Daemon {
    var registered: seq<Member>
    const owners: array<Member?>
    var preChange: seq<string>
    ghost var live: set<Member>
    ghost var history: seq<Event>

    /**
     Nothing dangles and nothing leaks: the live objects are the listed ones and `pending`,
     the listed ones have pairwise distinct names, and every slot points into the list.
     */
    ghost predicate Linked(pending: set<Member>)
      reads this`registered, this`live, owners
    {
      && owners.Length == RESOURCES
      && NoDup(MemberNames(registered))
      && live == pending + (set m | m in registered)
      && (forall m | m in pending :: m !in registered)
      && (forall r | 0 <= r < RESOURCES :: owners[r] != null ==> owners[r] in registered)
    }

    ghost function View(): State
      requires owners.Length == RESOURCES
      reads this`registered, this`preChange, owners
    {
      Abstract(registered, owners[..], preChange)
    }

    /** The structures are sound and hold what the run so far determines. */
    ghost predicate Valid()
      reads this, owners
    {
      Linked({}) && Legal(history) && View() == Run(history)
    }

    constructor ()
      ensures Valid() && history == [] && fresh(owners)
    {
      registered, preChange, live, history := [], [], {}, [];
      owners := new Member?[RESOURCES](i => null);
    }

    /** Reading the name of a member that must not have been freed. */
    function SelfName(m: Member): Name
      requires m in live
      reads this
    {
      m.selfName
    }

    method FindRegisteredMember(name: Name, ghost pending: set<Member>) returns (m: Member?)
      requires Linked(pending)
      ensures m != null <==> name in MemberNames(registered)
      ensures m != null ==> m in registered && m.selfName == name
    {
      for i := 0 to |registered|
        invariant name !in MemberNames(registered)[..i]
      {
        if SelfName(registered[i]) == name {
          assert MemberNames(registered)[i] == name;
          return registered[i];
        }
      }
      return null;
    }

    method IsRegistered(name: Name, ghost pending: set<Member>) returns (found: bool)
      requires Linked(pending)
      ensures found <==> name in MemberNames(registered)
    {
      for i := 0 to |registered|
        invariant name !in MemberNames(registered)[..i]
      {
        if SelfName(registered[i]) == name {
          assert MemberNames(registered)[i] == name;
          return true;
        }
      }
      return false;
    }

    /** Take `name` out of the list, clear the slots that point to its object, free the object. */
    method Remove(name: Name, ghost pending: set<Member>) returns (ret: Code)
      requires Linked(pending)
      modifies this`registered, this`live, owners
      ensures Linked(pending)
      ensures View() == Leave(old(View()), name)
      ensures ret == if name in old(View()).members then SUCCESS else INVALID_STATE
      ensures forall m | m in old(registered) && m.selfName == name :: m !in live
    {
      var found := FindRegisteredMember(name, pending);
      if found == null {
        NoSuchMember(registered, owners[..], preChange, name);
        return INVALID_STATE;
      }
      var m: Member := found;
      ghost var before := owners[..];
      ListedName(registered, m);
      RemoveListed(registered, before, preChange, m);
      registered := RemoveFirst(registered, m);
      for i := 0 to RESOURCES
        modifies owners
        invariant forall r | 0 <= r < i :: owners[r] == if before[r] == m then null else before[r]
        invariant forall r | i <= r < RESOURCES :: owners[r] == before[r]
      {
        if owners[i] == m {
          owners[i] := null;
        }
      }
      assert owners[..] == Cleared(before, m);
      live := live - {m};
      ret := SUCCESS;
    }

    /** Record a handler that has just run to completion. */
    ghost method Log(e: Event, was: State)
      requires Linked({}) && Legal(history) && was == Run(history)
      requires Defined(was, e) && View() == Next(was, e)
      modifies this`history
      ensures Valid() && history == old(history) + [e]
    {
      RunExtend(history, e);
      history := history + [e];
    }

    method RegisterMember(name: Name) returns (ret: Code)
      requires Valid()
      modifies this, owners
      ensures Valid() && history == old(history) + [Register(name)]
      ensures ret == SUCCESS
      ensures registered != [] && fresh(registered[|registered|-1])
      ensures registered[|registered|-1].selfName == name
      ensures forall m | m in old(registered) && m.selfName == name :: m !in live
    {
      ghost var was := View();
      var member := new Member(name);
      live := live + {member};
      Displace(SelfName(member), member);
      RunSound(history);
      AppendListed(registered, owners[..], preChange, member, was);
      registered := registered + [member];
      Log(Register(name), was);
      return SUCCESS;
    }

    /** A member that registered before and has come back, perhaps after dying, is removed first. */
    method Displace(name: Name, ghost member: Member)
      requires Linked({member})
      modifies this`registered, this`live, owners
      ensures Linked({member}) && View() == Leave(old(View()), name)
      ensures forall m | m in old(registered) && m.selfName == name :: m !in live
    {
      var found := IsRegistered(name, {member});
      if found {
        var _ := Remove(name, {member});
      } else {
        NoSuchMember(registered, owners[..], preChange, name);
      }
    }

    method UnRegisterMember(name: Name) returns (ret: Code)
      requires Valid()
      modifies this, owners
      ensures Valid() && history == old(history) + [Unregister(name)]
      ensures ret == Reply(old(View()), Unregister(name))
      ensures forall m | m in old(registered) && m.selfName == name :: m !in live
    {
      ghost var was := View();
      ret := Remove(name, {});
      Log(Unregister(name), was);
    }

    /** 1 exactly when the member's latest step was a registration. */
    method CheckRegistration(name: Name) returns (isRegistered: int)
      requires Valid()
      ensures isRegistered == if LastRegistered(history, name) then 1 else 0
    {
      RegistrationHistory(history, name);
      var found := IsRegistered(name, {});
      isRegistered := if found then 1 else 0;
    }

    /**
     Grant a resource, asking its present owner to yield first. `answer` is what that nested call
     returns when it can be sent, `asked` the member it is sent to. The handler must not meet a NULL
     requestor.
     */
    method RequestOwnership(name: Name, resource: int, answer: Code)
      returns (ret: Code, asked: Option<Name>)
      requires Valid() && Defined(View(), Request(name, resource, answer))
      modifies this`history, owners
      ensures Valid() && history == old(history) + [Request(name, resource, answer)]
      ensures ret == Reply(old(View()), Request(name, resource, answer))
      ensures asked == Asked(old(View()), Request(name, resource, answer))
    {
      ghost var was := View();
      ghost var e := Request(name, resource, answer);
      ret, asked := SUCCESS, None;
      var requestor := FindRegisteredMember(name, {});
      if IsResource(resource) {
        var owner := owners[resource];
        assert was.owner[resource] == SlotName(owner);
        if owner != null {
          if SelfName(owner) != SelfName(requestor) {
            var rpcRet := INVALID_PARAM;
            TargetExact(SelfName(owner), SelfName(owner));
            if Target(SelfName(owner)) != "" {
              asked := Some(SelfName(owner));
              rpcRet := answer;
            }
            if rpcRet == SUCCESS {
              owners[resource] := requestor;
            } else {
              ret := rpcRet;
            }
          } else {
            ret := INVALID_STATE;
          }
        } else {
          owners[resource] := requestor;
        }
      } else {
        ret := INVALID_PARAM;
      }
      assert View().owner == Next(was, e).owner;
      Log(e, was);
    }

    /** Give a resource back; `announced` says that the resource-available event went out. */
    method ReleaseOwnership(name: Name, resource: int) returns (ret: Code, announced: bool)
      requires Valid() && Defined(View(), Release(name, resource))
      modifies this`history, owners
      ensures Valid() && history == old(history) + [Release(name, resource)]
      ensures ret == Reply(old(View()), Release(name, resource))
      ensures announced <==> old(View()).owner != View().owner
    {
      ghost var was := View();
      ghost var e := Release(name, resource);
      ret, announced := SUCCESS, false;
      var requestor := FindRegisteredMember(name, {});
      if IsResource(resource) {
        var owner := owners[resource];
        assert was.owner[resource] == SlotName(owner);
        if owner != null && SelfName(owner) == SelfName(requestor) {
          owners[resource] := null;
          announced := true;
          assert View().owner[resource] != was.owner[resource];
        } else {
          ret := INVALID_STATE;
        }
      } else {
        ret := INVALID_PARAM;
      }
      assert View().owner == Next(was, e).owner;
      Log(e, was);
    }

    method IsPreChangeRegistered(key: string) returns (found: bool)
      ensures found <==> key in preChange
    {
      for i := 0 to |preChange|
        invariant key !in preChange[..i]
      {
        if preChange[i] == key {
          return true;
        }
      }
      return false;
    }

    method RegisterPreChange(name: Name, meth: Name) returns (ret: Code)
      requires Valid()
      modifies this`preChange, this`history
      ensures Valid() && history == old(history) + [Subscribe(name, meth)]
      ensures ret == SUCCESS
    {
      ghost var was := View();
      var key := Join(name, meth);
      var found := IsPreChangeRegistered(key);
      if !found {
        preChange := preChange + [key];
      }
      Log(Subscribe(name, meth), was);
      return SUCCESS;
    }

    /**
     The loop shared by the five broadcast handlers: `tried` are the members for which it makes the
     call, `calls` what is sent. The calls' own results are not looked at.
     */
    method Broadcast(p: PreChange, first: int, second: int)
      returns (ret: Code, tried: seq<Name>, calls: seq<RpcCall>)
      requires Valid()
      ensures ret == SUCCESS
      ensures tried == Called(Run(history), p)
      ensures |calls| == |Reached(Run(history), p)|
      ensures forall i | 0 <= i < |calls| ::
                calls[i] == RpcCall(Reached(Run(history), p)[i], p.MethodName(), first, second)
    {
      tried, calls := [], [];
      ghost var ns := MemberNames(registered);
      for i := 0 to |registered|
        invariant tried == Subscribers(ns[..i], preChange, p)
        invariant calls == CallsTo(Short(Subscribers(ns[..i], preChange, p)), p.MethodName(), first, second)
      {
        BroadcastNext(ns, preChange, p, i, first, second);
        var name := SelfName(registered[i]);
        var found := IsPreChangeRegistered(Join(name, p.MethodName()));
        if found {
          tried := tried + [name];
          if Target(name) != "" {
            calls := calls + [RpcCall(name, p.MethodName(), first, second)];
          }
        }
      }
      assert ns[..|registered|] == ns;
      ret := SUCCESS;
    }

    /** In a valid daemon every owner is a live, listed object whose grant nothing has undone. */
    lemma OwnersAreGranted(r: int)
      requires Valid() && IsResource(r)
      ensures owners[r] != null ==>
                && owners[r] in live
                && owners[r] in registered
                && exists i :: Holds(history, i, owners[r].selfName, r)
    {
      if owners[r] != null {
        OwnershipLedger(history, owners[r].selfName, r);
        assert View().owner[r] == Some(owners[r].selfName);
      }
    }
  }
}
