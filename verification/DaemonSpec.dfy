/**
 The daemon's bookkeeping as a value: who is registered, who owns each resource and who
 subscribed to which broadcast. One Event is one handler run to completion on the dispatch
 thread; the answer of the nested yield call is part of the event, so it is free to be anything. It
 plays no part when the owner's name is too long for a call to be sent there.
 */
module DaemonSpec {
  import opened IarmTypes
  import opened Lists
  import opened Names

  /** IARM_BUS_RESOURCE_MAX */
  const RESOURCES: nat := 7

  predicate IsResource(r: int) {
    0 <= r < RESOURCES
  }

  type Slots = s: seq<Option<Name>> | |s| == RESOURCES witness [None, None, None, None, None, None, None]

  datatype State = State(members: seq<Name>, owner: Slots, subs: seq<string>)

  datatype Event =
    | Register(name: Name)
    | Unregister(name: Name)
    | Request(name: Name, resource: int, answer: Code)
    | Release(name: Name, resource: int)
    | Subscribe(name: Name, meth: Name)

  const INITIAL := State([], [None, None, None, None, None, None, None], [])

  /** The handler follows no NULL requestor: it looks at the requestor only when the slot is taken. */
  predicate Defined(s: State, e: Event) {
    (e.Request? || e.Release?) && IsResource(e.resource) && s.owner[e.resource].Some?
    ==> e.name in s.members
  }

  /** The code the handler returns. */
  function Reply(s: State, e: Event): Code {
    match e
    case Register(_) => SUCCESS
    case Unregister(n) => if n in s.members then SUCCESS else INVALID_STATE
    case Request(n, r, answer) =>
      if !IsResource(r) then INVALID_PARAM
      else if s.owner[r] == None then SUCCESS
      else if s.owner[r] == Some(n) then INVALID_STATE
      else if !Addressable(s.owner[r].value) then INVALID_PARAM
      else answer
    case Release(n, r) =>
      if !IsResource(r) then INVALID_PARAM
      else if s.owner[r] == Some(n) then SUCCESS
      else INVALID_STATE
    case Subscribe(_, _) => SUCCESS
  }

  /** The member, if any, to which the call to give the resource up is sent. */
  function Asked(s: State, e: Event): Option<Name> {
    if e.Request? && IsResource(e.resource) && s.owner[e.resource] != Some(e.name)
       && s.owner[e.resource].Some? && Addressable(s.owner[e.resource].value)
    then s.owner[e.resource] else None
  }

  function Leave(s: State, n: Name): State {
    State(RemoveFirst(s.members, n),
          seq(RESOURCES, r requires 0 <= r < RESOURCES =>
            if s.owner[r] == Some(n) && n in s.members then None else s.owner[r]),
          s.subs)
  }

  function Next(s: State, e: Event): State {
    match e
    case Register(n) => var t := Leave(s, n); t.(members := t.members + [n])
    case Unregister(n) => Leave(s, n)
    case Request(n, r, _) =>
      if Reply(s, e) == SUCCESS
      then s.(owner := s.owner[r := if n in s.members then Some(n) else None])
      else s
    case Release(_, r) => if Reply(s, e) == SUCCESS then s.(owner := s.owner[r := None]) else s
    case Subscribe(n, m) =>
      if Join(n, m) in s.subs then s else s.(subs := s.subs + [Join(n, m)])
  }

  /** The state after a run from the daemon's start. */
  function Run(es: seq<Event>): State {
    if es == [] then INITIAL else Next(Run(es[..|es|-1]), es[|es|-1])
  }

  /** Every step of the run is defined. */
  predicate Legal(es: seq<Event>) {
    es == [] || (Legal(es[..|es|-1]) && Defined(Run(es[..|es|-1]), es[|es|-1]))
  }

  lemma RunExtend(es: seq<Event>, e: Event)
    ensures Run(es + [e]) == Next(Run(es), e)
    ensures Legal(es + [e]) <==> Legal(es) && Defined(Run(es), e)
  {
    assert (es + [e])[..|es|] == es;
  }

  // ---------------------------------------------------------------- invariants

  /** Names are pairwise distinct, owners are registered, subscriptions are not repeated. */
  ghost predicate Sound(s: State) {
    && NoDup(s.members)
    && NoDup(s.subs)
    && (forall r | 0 <= r < RESOURCES :: s.owner[r].Some? ==> s.owner[r].value in s.members)
  }

  lemma NextSound(s: State, e: Event)
    requires Sound(s)
    ensures Sound(Next(s, e))
  {
    if e.Register? || e.Unregister? {
      RemoveFirstNoDup(s.members, e.name);
    }
  }

  lemma {:induction false} RunSound(es: seq<Event>)
    ensures Sound(Run(es))
  {
    if es != [] {
      RunSound(es[..|es|-1]);
      NextSound(Run(es[..|es|-1]), es[|es|-1]);
    }
  }

  // ---------------------------------------------------------------- ownership

  /** This step hands resource `r` to `n`. */
  predicate Grants(s: State, e: Event, n: Name, r: int) {
    e.Request? && e.name == n && e.resource == r && n in s.members && Reply(s, e) == SUCCESS
  }

  /** The four ways a member can lose resource `r`: replaced, removed, released or yielded. */
  predicate Takes(e: Event, n: Name, r: int) {
    || e == Register(n)
    || e == Unregister(n)
    || e == Release(n, r)
    || (e.Request? && e.resource == r && e.name != n && e.answer == SUCCESS && Addressable(n))
  }

  /** One step changes the owner of a slot exactly by a grant or by one of the four losses. */
  lemma OwnerStep(s: State, e: Event, n: Name, r: int)
    requires Sound(s) && Defined(s, e) && IsResource(r)
    ensures s.owner[r] == Some(n) ==> (Next(s, e).owner[r] != Some(n) <==> Takes(e, n, r))
    ensures s.owner[r] != Some(n) ==> (Next(s, e).owner[r] == Some(n) <==> Grants(s, e, n, r))
    ensures s.owner[r] == Some(n) && e.Request? && Takes(e, n, r) ==> Asked(s, e) == Some(n)
  {
  }

  /** `n` was granted `r` at step `i` of the run and no later step took it away. */
  ghost predicate Holds(es: seq<Event>, i: int, n: Name, r: int) {
    && 0 <= i < |es|
    && Grants(Run(es[..i]), es[i], n, r)
    && forall j | i < j < |es| :: !Takes(es[j], n, r)
  }

  /** Over every legal run a slot's owner is the member whose grant has not been undone since. */
  lemma {:induction false} OwnershipLedger(es: seq<Event>, n: Name, r: int)
    requires Legal(es) && IsResource(r)
    ensures Run(es).owner[r] == Some(n) <==> exists i :: Holds(es, i, n, r)
  {
    if es != [] {
      var f, e := es[..|es|-1], es[|es|-1];
      OwnershipLedger(f, n, r);
      RunSound(f);
      OwnerStep(Run(f), e, n, r);
      forall i | 0 <= i < |f| ensures Holds(es, i, n, r) <==> Holds(f, i, n, r) && !Takes(e, n, r) {
        HoldsPrefix(es, i, n, r);
      }
      assert es[..|f|] == f;
      assert Holds(es, |f|, n, r) <==> Grants(Run(f), e, n, r);
      if Run(f).owner[r] == Some(n) && !Takes(e, n, r) {
        var i :| Holds(f, i, n, r);
        assert Holds(es, i, n, r);
      }
      if i :| Holds(es, i, n, r) {
        assert i == |f| || Holds(f, i, n, r);
      }
    }
  }

  /** Two members never hold the same resource. */
  lemma MutualExclusion(es: seq<Event>, i: int, n: Name, j: int, m: Name, r: int)
    requires Legal(es) && IsResource(r)
    requires Holds(es, i, n, r) && Holds(es, j, m, r)
    ensures n == m
  {
    OwnershipLedger(es, n, r);
    OwnershipLedger(es, m, r);
  }

  /** Nobody holds the resource in the history sense. */
  ghost predicate Unheld(es: seq<Event>, r: int) {
    forall i, m :: !Holds(es, i, m, r)
  }

  /** The ledger for one resource and everybody: a holder is the owner, and without one the slot is empty. */
  lemma HolderIsOwner(es: seq<Event>, r: int)
    requires Legal(es) && IsResource(r)
    ensures forall i, m :: Holds(es, i, m, r) ==> Run(es).owner[r] == Some(m)
    ensures Unheld(es, r) <==> Run(es).owner[r] == None
  {
    forall i, m | Holds(es, i, m, r) ensures Run(es).owner[r] == Some(m) {
      OwnershipLedger(es, m, r);
    }
    if Run(es).owner[r].Some? {
      OwnershipLedger(es, Run(es).owner[r].value, r);
    }
  }

  /** A member whose name is too long to be called keeps its resource whatever others request. */
  lemma NeverYields(es: seq<Event>, e: Event, n: Name, r: int)
    requires Legal(es + [e]) && IsResource(r) && Run(es).owner[r] == Some(n)
    requires e.Request? && e.resource == r && e.name != n
    ensures Run(es + [e]).owner[r] == Some(n) <==> !Addressable(n) || e.answer != SUCCESS
    ensures Asked(Run(es), e) == if Addressable(n) then Some(n) else None
    ensures !Addressable(n) ==> Reply(Run(es), e) == INVALID_PARAM
  {
    RunExtend(es, e);
  }

  /** Whatever the others do, such a member keeps what it was granted until it gives it up itself. */
  lemma LongNamesKeep(es: seq<Event>, i: nat, n: Name, r: int)
    requires Legal(es) && IsResource(r) && i < |es| && Grants(Run(es[..i]), es[i], n, r) && !Addressable(n)
    requires forall j | i < j < |es| :: es[j] != Register(n) && es[j] != Unregister(n) && es[j] != Release(n, r)
    ensures Run(es).owner[r] == Some(n)
  {
    assert Holds(es, i, n, r);
    OwnershipLedger(es, n, r);
  }

  lemma HoldsPrefix(es: seq<Event>, i: int, n: Name, r: int)
    requires 0 <= i < |es| - 1
    ensures Holds(es, i, n, r) <==> Holds(es[..|es|-1], i, n, r) && !Takes(es[|es|-1], n, r)
  {
    var f := es[..|es|-1];
    assert es[..i] == f[..i];
    assert forall j :: 0 <= j < |f| ==> es[j] == f[j];
  }

  // ---------------------------------------------------------------- membership

  /** The latest step of the run about `n` was a registration. */
  ghost predicate LastRegistered(es: seq<Event>, n: Name) {
    exists i :: 0 <= i < |es| && es[i] == Register(n) && Unregister(n) !in es[i..]
  }

  lemma MemberStep(s: State, e: Event, n: Name)
    requires Sound(s)
    ensures n in Next(s, e).members <==> e == Register(n) || (n in s.members && e != Unregister(n))
  {
    if e.Register? || e.Unregister? {
      RemoveFirstNoDup(s.members, e.name);
    }
  }

  lemma LastRegisteredStep(f: seq<Event>, e: Event, n: Name)
    ensures LastRegistered(f + [e], n) <==> e == Register(n) || (LastRegistered(f, n) && e != Unregister(n))
  {
    var es := f + [e];
    assert es[|f|] == e && es[|f|..] == [e];
    forall i | 0 <= i < |f| ensures es[i] == f[i] && es[i..] == f[i..] + [e] {
    }
    if LastRegistered(f, n) {
      var i :| 0 <= i < |f| && f[i] == Register(n) && Unregister(n) !in f[i..];
      assert es[i] == Register(n) && es[i..] == f[i..] + [e];
    }
  }

  lemma {:induction false} RegistrationHistory(es: seq<Event>, n: Name)
    ensures n in Run(es).members <==> LastRegistered(es, n)
  {
    if es != [] {
      var f, e := es[..|es|-1], es[|es|-1];
      RegistrationHistory(f, n);
      RunSound(f);
      MemberStep(Run(f), e, n);
      LastRegisteredStep(f, e, n);
      assert es == f + [e];
    }
  }

  /** A member that registers again goes to the end, owns nothing, and disturbs nobody else. */
  lemma ReRegistration(s: State, n: Name)
    requires Sound(s)
    ensures var t := Next(s, Register(n));
            && t.members == RemoveFirst(s.members, n) + [n]
            && (forall m :: m in t.members <==> m in s.members || m == n)
            && (forall r | 0 <= r < RESOURCES :: t.owner[r] != Some(n))
            && (forall r, m | 0 <= r < RESOURCES && m != n :: t.owner[r] == Some(m) <==> s.owner[r] == Some(m))
  {
    RemoveFirstNoDup(s.members, n);
  }

  /**
     After a request that was answered with success the requestor holds the resource if its latest
     step about registration was to register, and otherwise nobody does.
   */
  lemma GrantMeaning(es: seq<Event>, n: Name, r: int, answer: Code)
    requires Legal(es) && Defined(Run(es), Request(n, r, answer))
    requires Reply(Run(es), Request(n, r, answer)) == SUCCESS
    ensures var all := es + [Request(n, r, answer)];
            if LastRegistered(es, n) then Holds(all, |es|, n, r) else Unheld(all, r) && Run(all) == Run(es)
  {
    var e := Request(n, r, answer);
    var all := es + [e];
    RunExtend(es, e);
    RunSound(es);
    RegistrationHistory(es, n);
    HolderIsOwner(all, r);
    assert all[..|es|] == es && all[|es|] == e;
    if n in Run(es).members {
      assert Holds(all, |es|, n, r);
    } else {
      assert Next(Run(es), e).owner == Run(es).owner;
    }
  }

  /** Such a request: a free resource, asked for by a member that never registered. */
  lemma UnregisteredGrant()
    ensures var e := Request("ghost", 0, SUCCESS);
            Defined(INITIAL, e) && Reply(INITIAL, e) == SUCCESS && Next(INITIAL, e) == INITIAL
  {
  }

  // ---------------------------------------------------------------- what each handler answers

  /** A request's code, and whom it asks, by what the history says of the resource. */
  lemma RequestCodes(es: seq<Event>, n: Name, r: int, answer: Code)
    requires Legal(es) && Defined(Run(es), Request(n, r, answer))
    ensures var reply, asked := Reply(Run(es), Request(n, r, answer)), Asked(Run(es), Request(n, r, answer));
            && (r < 0 || r >= 7 ==> reply == INVALID_PARAM && asked == None)
            && (0 <= r < 7 && Unheld(es, r) ==> reply == SUCCESS && asked == None)
            && (forall i, m: Name | 0 <= r < 7 && Holds(es, i, m, r) ::
                  if m == n then reply == INVALID_STATE && asked == None
                  else if |m| <= 50 then reply == answer && asked == Some(m)
                  else reply == INVALID_PARAM && asked == None)
            && (reply != SUCCESS ==> Run(es + [Request(n, r, answer)]) == Run(es))
  {
    RunExtend(es, Request(n, r, answer));
    if IsResource(r) {
      HolderIsOwner(es, r);
    }
  }

  /** A release's code: success for the holder and for nobody else. */
  lemma ReleaseCodes(es: seq<Event>, n: Name, r: int)
    requires Legal(es) && Defined(Run(es), Release(n, r))
    ensures var reply := Reply(Run(es), Release(n, r));
            && (r < 0 || r >= 7 ==> reply == INVALID_PARAM)
            && (0 <= r < 7 ==> reply == if exists i :: Holds(es, i, n, r) then SUCCESS else INVALID_STATE)
            && (reply != SUCCESS ==> Run(es + [Release(n, r)]) == Run(es))
            && Asked(Run(es), Release(n, r)) == None
  {
    RunExtend(es, Release(n, r));
    if IsResource(r) {
      OwnershipLedger(es, n, r);
    }
  }

  /** Registration and subscription always succeed; removal succeeds for a registered member only. */
  lemma RegistrationCodes(es: seq<Event>, n: Name, meth: Name)
    ensures Reply(Run(es), Register(n)) == SUCCESS && Reply(Run(es), Subscribe(n, meth)) == SUCCESS
    ensures Reply(Run(es), Unregister(n)) == if LastRegistered(es, n) then SUCCESS else INVALID_STATE
  {
    RegistrationHistory(es, n);
  }

  /** Step `i` registered `n`, which has neither registered again nor left since. */
  ghost predicate RegisteredAt(es: seq<Event>, i: int, n: Name) {
    0 <= i < |es| && es[i] == Register(n) && forall j | i < j < |es| :: es[j] != Register(n) && es[j] != Unregister(n)
  }

  lemma RegisteredBefore(f: seq<Event>, e: Event, i: int, n: Name)
    requires i < |f|
    ensures RegisteredAt(f + [e], i, n) <==> RegisteredAt(f, i, n) && e != Register(n) && e != Unregister(n)
  {
    var es := f + [e];
    assert es[|f|] == e && forall j | 0 <= j < |f| :: es[j] == f[j];
  }

  lemma {:induction false} RegisteredIsListed(es: seq<Event>, i: int, n: Name)
    requires RegisteredAt(es, i, n)
    ensures n in Run(es).members
  {
    RegistrationHistory(es, n);
    assert Unregister(n) !in es[i..] by {
      assert forall j | 0 <= j < |es[i..]| :: es[i..][j] == es[i + j];
    }
  }

  /** The registry lists members in the order of their latest registrations. */
  lemma {:induction false} RegistryOrder(es: seq<Event>, i: int, a: Name, j: int, b: Name)
    requires RegisteredAt(es, i, a) && RegisteredAt(es, j, b) && i < j
    ensures Before(Run(es).members, a, b)
  {
    var f, e := es[..|es|-1], es[|es|-1];
    var s := Run(f);
    assert es == f + [e];
    assert a != b;
    RegisteredBefore(f, e, i, a);
    if j == |f| {
      RegisteredIsListed(es, i, a);
      RunSound(f);
      RemoveFirstNoDup(s.members, b);
      var x :| 0 <= x < |Run(es).members| && Run(es).members[x] == a;
      assert Run(es).members == RemoveFirst(s.members, b) + [b];
      assert Run(es).members[|Run(es).members|-1] == b;
    } else {
      RegisteredBefore(f, e, j, b);
      RegistryOrder(f, i, a, j, b);
      if e.Register? || e.Unregister? {
        StillBefore(s.members, e.name, a, b);
        BeforeAppended(RemoveFirst(s.members, e.name), e.name, a, b);
      }
    }
  }

  lemma {:induction false} StillBefore(ns: seq<Name>, n: Name, a: Name, b: Name)
    requires Before(ns, a, b) && n != a && n != b
    ensures Before(RemoveFirst(ns, n), a, b)
  {
    var x, y :| 0 <= x < y < |ns| && ns[x] == a && ns[y] == b;
    if n in ns {
      var i := FirstIndex(ns, n);
      RemoveFirstAt(ns, i);
      var t := ns[..i] + ns[i+1..];
      assert t[if x < i then x else x - 1] == a && t[if y < i then y else y - 1] == b;
    }
  }

  lemma BeforeAppended(ns: seq<Name>, n: Name, a: Name, b: Name)
    requires Before(ns, a, b)
    ensures Before(ns + [n], a, b)
  {
    var x, y :| 0 <= x < y < |ns| && ns[x] == a && ns[y] == b;
    assert (ns + [n])[x] == a && (ns + [n])[y] == b;
  }

  // ---------------------------------------------------------------- broadcasts

  /** The members a broadcast of `p` tries to call. */
  function Called(s: State, p: PreChange): seq<Name> {
    Subscribers(s.members, s.subs, p)
  }

  /** Those of them to which the call can be sent. */
  function Reached(s: State, p: PreChange): seq<Name> {
    Short(Called(s, p))
  }

  /** The names short enough for a call to be addressed to them. */
  function Short(ns: seq<Name>): seq<Name> {
    Filter(ns, (n: Name) => Addressable(n))
  }

  lemma ShortNext(ns: seq<Name>, n: Name)
    ensures Short(ns + [n]) == Short(ns) + if Addressable(n) then [n] else []
  {
    var short := (m: Name) => Addressable(m);
    FilterAppend(ns, [n], short);
    assert [n][1..] == [];
    assert Filter([n], short) == if Addressable(n) then [n] else [];
    assert Short(ns) == Filter(ns, short) && Short(ns + [n]) == Filter(ns + [n], short);
  }

  function Subscribers(ns: seq<Name>, subs: seq<string>, p: PreChange): seq<Name> {
    Filter(ns, (n: Name) => Join(n, p.MethodName()) in subs)
  }

  lemma SubscribersNext(ns: seq<Name>, subs: seq<string>, p: PreChange, i: nat)
    requires i < |ns|
    ensures Subscribers(ns[..i+1], subs, p) ==
              Subscribers(ns[..i], subs, p) + if Join(ns[i], p.MethodName()) in subs then [ns[i]] else []
  {
    var test := (n: Name) => Join(n, p.MethodName()) in subs;
    assert ns[..i+1] == ns[..i] + [ns[i]];
    FilterAppend(ns[..i], [ns[i]], test);
    assert [ns[i]][1..] == [];
  }

  lemma {:induction false} SubscriptionHistory(es: seq<Event>, key: string)
    ensures key in Run(es).subs <==>
              exists i :: 0 <= i < |es| && es[i].Subscribe? && Join(es[i].name, es[i].meth) == key
  {
    if es != [] {
      var f, e := es[..|es|-1], es[|es|-1];
      SubscriptionHistory(f, key);
      assert forall i :: 0 <= i < |f| ==> es[i] == f[i];
      assert es[|f|] == e;
    }
  }

  /** Subscriptions only accumulate. */
  lemma {:induction false} SubscriptionsGrow(es: seq<Event>, i: nat)
    requires i <= |es|
    ensures Run(es[..i]).subs <= Run(es).subs
  {
    if i < |es| {
      var f := es[..|es|-1];
      assert es[..i] == f[..i];
      SubscriptionsGrow(f, i);
    } else {
      assert es[..i] == es;
    }
  }

  /** A subscription that the client library can send: its method is one of the five. */
  predicate LibrarySubscription(e: Event) {
    e.Subscribe? ==> exists p: PreChange :: e.meth == p.MethodName()
  }

  /** A broadcast calls, once each and in registry order, exactly the registered subscribers. */
  lemma BroadcastExact(es: seq<Event>, p: PreChange)
    requires forall e | e in es :: LibrarySubscription(e)
    ensures var called := Called(Run(es), p);
            && NoDup(called)
            && (forall n: Name :: n in called <==> LastRegistered(es, n) && Subscribe(n, p.MethodName()) in es)
            && (forall i, j | 0 <= i < j < |called| :: Before(Run(es).members, called[i], called[j]))
            && NoDup(Reached(Run(es), p))
            && (forall n: Name :: n in Reached(Run(es), p) <==> n in called && |n| <= 50)
            && (forall i, j | 0 <= i < j < |Reached(Run(es), p)| ::
                  Before(called, Reached(Run(es), p)[i], Reached(Run(es), p)[j]))
  {
    var s := Run(es);
    var test := (n: Name) => Join(n, p.MethodName()) in s.subs;
    RunSound(es);
    FilterNoDup(s.members, test);
    ReachedOrder(Called(s, p));
    forall i, j | 0 <= i < j < |Called(s, p)|
      ensures Before(s.members, Called(s, p)[i], Called(s, p)[j])
    {
      FilterOrder(s.members, test, i, j);
    }
    forall n: Name ensures n in Called(s, p) <==> LastRegistered(es, n) && Subscribe(n, p.MethodName()) in es {
      RegistrationHistory(es, n);
      SubscriberKey(es, n, p);
    }
  }

  lemma ReachedOrder(ns: seq<Name>)
    requires NoDup(ns)
    ensures NoDup(Short(ns)) && forall n: Name :: n in Short(ns) <==> n in ns && |n| <= 50
    ensures forall i, j | 0 <= i < j < |Short(ns)| :: Before(ns, Short(ns)[i], Short(ns)[j])
  {
    var short := (n: Name) => Addressable(n);
    FilterNoDup(ns, short);
    forall i, j | 0 <= i < j < |Short(ns)| ensures Before(ns, Short(ns)[i], Short(ns)[j]) {
      FilterOrder(ns, short, i, j);
    }
  }

  lemma SubscriberKey(es: seq<Event>, n: Name, p: PreChange)
    requires forall e | e in es :: LibrarySubscription(e)
    ensures Join(n, p.MethodName()) in Run(es).subs <==> Subscribe(n, p.MethodName()) in es
  {
    var key := Join(n, p.MethodName());
    SubscriptionHistory(es, key);
    forall i | 0 <= i < |es| && es[i].Subscribe?
      ensures Join(es[i].name, es[i].meth) == key <==> es[i] == Subscribe(n, p.MethodName())
    {
      assert LibrarySubscription(es[i]);
      JoinInjective(es[i].name, es[i].meth, n, p.MethodName());
    }
  }

  /** Without that restriction: who is called, for any subscriptions whatever. */
  lemma BroadcastMembers(es: seq<Event>, p: PreChange, n: Name)
    ensures n in Called(Run(es), p) <==>
              && LastRegistered(es, n)
              && exists i :: 0 <= i < |es| && es[i].Subscribe? && Reaches(es[i], n, p.MethodName())
  {
    RegistrationHistory(es, n);
    SubscriptionHistory(es, Join(n, p.MethodName()));
    forall i | 0 <= i < |es| && es[i].Subscribe?
      ensures Join(es[i].name, es[i].meth) == Join(n, p.MethodName()) <==> Reaches(es[i], n, p.MethodName())
    {
      JoinExact(es[i].name, es[i].meth, n, p.MethodName());
    }
  }

  /** The subscription is for `n` and `meth`, or its names join to the same key. */
  ghost predicate Reaches(e: Event, n: Name, meth: Name) {
    e.Subscribe? &&
    ((e.name == n && e.meth == meth) || (exists p :: e.meth == p + "_" + meth && n == e.name + "_" + p))
  }
}
