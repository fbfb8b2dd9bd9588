/**
 The daemon and its members together: what members publish decides whom the daemon's broadcasts
 call, and what runs there when the call comes in.
 */
module WholeSystem {
  import opened IarmTypes
  import opened Lists
  import opened Names
  import opened Bytes
  import opened Rpc
  import opened Delivery
  import opened DaemonSpec
  import EventSpec
  import Client
  import Ownership

  /**
     One step: the process of member `n` starts its library, or it ends, by terminating the library or by
     dying; or a call that it makes of its library. The message that the call sends to the daemon, if it
     sends one, may be lost; otherwise the daemon handles it in the same step. A start while the library
     is up is that of a process that died unnoticed.
   */
  datatype Step =
    | Started(n: Name)
    | Ended(n: Name)
    | Connects(n: Name, delivered: bool)
    | Disconnects(n: Name, delivered: bool)
    | Invoked(n: Name, op: EventSpec.Op, delivered: bool)
    | Asks(n: Name, release: bool, resource: int, answer: Code, delivered: bool)

  // ---------------------------------------------------------------- the members' libraries

  /** What the flags of a library say. */
  datatype Life = Off | Initialized | Connected

  function LifeAfter(before: Life, s: Step, n: Name): Life {
    if s.n != n then before
    else match s
      case Started(_) => Initialized
      case Ended(_) => Off
      case Connects(_, _) => Connected
      case Disconnects(_, _) => Initialized
      case _ => before
  }

  function LifeOf(run: seq<Step>, n: Name): Life {
    if run == [] then Off else LifeAfter(LifeOf(run[..|run|-1], n), run[|run|-1], n)
  }

  /** The library does not refuse the step. */
  predicate Allowed(before: Life, s: Step) {
    match s
    case Started(_) => true
    case Ended(_) => before != Off
    case Connects(_, _) => before == Initialized
    case _ => before == Connected
  }

  predicate IsRun(run: seq<Step>) {
    run == [] || (IsRun(run[..|run|-1]) && Allowed(LifeOf(run[..|run|-1], run[|run|-1].n), run[|run|-1]))
  }

  lemma RunNext(run: seq<Step>, s: Step, n: Name)
    ensures IsRun(run + [s]) <==> IsRun(run) && Allowed(LifeOf(run, s.n), s)
    ensures LifeOf(run + [s], n) == LifeAfter(LifeOf(run, n), s, n)
    ensures AtDaemon(run + [s]) == AtDaemon(run) + Reaching(s)
  {
    assert (run + [s])[..|run|] == run;
  }

  // ---------------------------------------------------------------- what reaches the daemon

  /** The step announces to the daemon that its member is to be called on `meth`. */
  predicate Announces(s: Step, meth: Name) {
    && s.Invoked? && s.op.PublishCall? && s.op.call == meth && s.delivered
    && s.n != DAEMON_NAME && Client.IsPreChangeMethod(meth)
  }

  /** What the daemon handles because of a step. A member named as the daemon does not register. */
  function Reaching(s: Step): seq<Event> {
    match s
    case Started(_) => []
    case Ended(_) => []
    case Connects(n, delivered) => if delivered && n != DAEMON_NAME then [Register(n)] else []
    case Disconnects(n, delivered) => if delivered && n != DAEMON_NAME then [Unregister(n)] else []
    case Invoked(n, op, _) => if op.PublishCall? && Announces(s, op.call) then [Subscribe(n, op.call)] else []
    case Asks(n, release, resource, answer, delivered) =>
      if delivered then [Ownership.Asking(n, release, resource, answer)] else []
  }

  /** The daemon's part of a run. */
  function AtDaemon(run: seq<Step>): seq<Event> {
    if run == [] then [] else AtDaemon(run[..|run|-1]) + Reaching(run[|run|-1])
  }

  /** A connection of `n` reached the daemon and no disconnection of it has since. */
  ghost predicate Enrolled(run: seq<Step>, n: Name) {
    n != DAEMON_NAME && exists i :: EnrolledAt(run, i, n)
  }

  ghost predicate EnrolledAt(run: seq<Step>, i: int, n: Name) {
    0 <= i < |run| && run[i] == Connects(n, true) && Disconnects(n, true) !in run[i..]
  }

  lemma EnrolledNext(f: seq<Step>, s: Step, n: Name)
    requires n != DAEMON_NAME
    ensures Enrolled(f + [s], n) <==> s == Connects(n, true) || (Enrolled(f, n) && s != Disconnects(n, true))
  {
    var run := f + [s];
    assert run[|f|] == s && run[|f|..] == [s];
    assert EnrolledAt(run, |f|, n) <==> s == Connects(n, true);
    forall i | 0 <= i < |f| ensures EnrolledAt(run, i, n) <==> EnrolledAt(f, i, n) && s != Disconnects(n, true) {
      assert run[i..] == f[i..] + [s];
    }
    if Enrolled(f, n) && s != Disconnects(n, true) {
      var i :| EnrolledAt(f, i, n);
      assert EnrolledAt(run, i, n);
    }
  }

  /** Whatever was lost and whoever died: the daemon's list has exactly the members enrolled. */
  lemma {:induction false} EnrolledIsRegistered(run: seq<Step>, n: Name)
    ensures n in Run(AtDaemon(run)).members <==> Enrolled(run, n)
  {
    if run != [] {
      var f, s := run[..|run|-1], run[|run|-1];
      assert run == f + [s];
      EnrolledIsRegistered(f, n);
      RegisteredNext(AtDaemon(f), s, n);
      if n != DAEMON_NAME {
        EnrolledNext(f, s, n);
      }
    }
  }

  lemma RegisteredNext(es: seq<Event>, s: Step, n: Name)
    ensures n in Run(es + Reaching(s)).members <==>
              || (s == Connects(n, true) && n != DAEMON_NAME)
              || (n in Run(es).members && !(s == Disconnects(n, true) && n != DAEMON_NAME))
  {
    if Reaching(s) == [] {
      assert es + Reaching(s) == es;
    } else {
      var e := Reaching(s)[0];
      assert Reaching(s) == [e];
      RunExtend(es, e);
      RunSound(es);
      MemberStep(Run(es), e, n);
    }
  }

  predicate ConnectsArrive(run: seq<Step>) {
    forall s | s in run && s.Connects? :: s.delivered
  }

  /** While no registration is lost a connected member is registered. */
  lemma {:induction false} ConnectedIsRegistered(run: seq<Step>, n: Name)
    requires IsRun(run) && ConnectsArrive(run)
    ensures LifeOf(run, n) == Connected && n != DAEMON_NAME ==> n in Run(AtDaemon(run)).members
  {
    if run != [] {
      var f, s := run[..|run|-1], run[|run|-1];
      assert forall x :: x in f ==> x in run;
      assert s in run;
      ConnectedIsRegistered(f, n);
      RegisteredNext(AtDaemon(f), s, n);
    }
  }

  /**
     When a member's ownership call reaches the daemon, the daemon follows no NULL pointer exactly if
     the member is enrolled or nobody holds the resource.
   */
  lemma AskDefined(run: seq<Step>, s: Step)
    requires s.Asks? && s.delivered && Legal(AtDaemon(run))
    ensures Legal(AtDaemon(run + [s])) <==>
              !IsResource(s.resource) || Enrolled(run, s.n) || Unheld(AtDaemon(run), s.resource)
  {
    RunNext(run, s, s.n);
    RunExtend(AtDaemon(run), Ownership.Asking(s.n, s.release, s.resource, s.answer));
    EnrolledIsRegistered(run, s.n);
    if IsResource(s.resource) {
      HolderIsOwner(AtDaemon(run), s.resource);
    }
  }

  /** So it never follows one in a run that loses no registration and where it does not ask itself. */
  lemma {:induction false} NeverUndefined(run: seq<Step>)
    requires IsRun(run) && ConnectsArrive(run)
    requires forall s | s in run && s.Asks? :: s.n != DAEMON_NAME
    ensures Legal(AtDaemon(run))
  {
    if run != [] {
      var f, s := run[..|run|-1], run[|run|-1];
      assert forall x :: x in f ==> x in run;
      assert s in run && run == f + [s];
      NeverUndefined(f);
      if s.Asks? && s.delivered {
        ConnectedIsRegistered(f, s.n);
        EnrolledIsRegistered(f, s.n);
        AskDefined(f, s);
      } else {
        StaysLegal(AtDaemon(f), s);
      }
    }
  }

  lemma StaysLegal(es: seq<Event>, s: Step)
    requires Legal(es) && !(s.Asks? && s.delivered)
    ensures Legal(es + Reaching(s))
  {
    var sent := Reaching(s);
    if sent == [] {
      assert es + sent == es;
    } else {
      var e := sent[0];
      NoAsking(s);
      assert es + sent == es + [e];
      RunExtend(es, e);
    }
  }

  /** Any other step sends at most one message, and no ownership request. */
  lemma NoAsking(s: Step)
    requires !(s.Asks? && s.delivered) && Reaching(s) != []
    ensures Reaching(s) == [Reaching(s)[0]] && !Reaching(s)[0].Request? && !Reaching(s)[0].Release?
  {
  }

  /**
     Both conditions are needed: after any run, a member whose registration is lost, or the daemon
     itself, makes the daemon follow a NULL pointer by asking for a resource that someone holds.
   */
  lemma LostRegistration(run: seq<Step>, n: Name, delivered: bool, ask: Step)
    requires IsRun(run) && Legal(AtDaemon(run)) && !Enrolled(run, n) && (n == DAEMON_NAME || !delivered)
    requires ask.Asks? && ask.n == n && ask.delivered && IsResource(ask.resource)
    requires !Unheld(AtDaemon(run), ask.resource)
    ensures var more := run + [Started(n)] + [Connects(n, delivered)];
            && IsRun(more + [ask]) && LifeOf(more, n) == Connected
            && Legal(AtDaemon(more)) && !Legal(AtDaemon(more + [ask]))
  {
    var started := run + [Started(n)];
    var more := started + [Connects(n, delivered)];
    RunNext(run, Started(n), n);
    RunNext(started, Connects(n, delivered), n);
    RunNext(more, ask, n);
    assert AtDaemon(more) == AtDaemon(run);
    EnrolledIsRegistered(run, n);
    EnrolledIsRegistered(more, n);
    AskDefined(more, ask);
  }

  /**
     What an ownership call that reaches the daemon does there: a request that can be granted makes an
     enrolled member the holder, whether the resource was free or was yielded to it; a release by the
     holder leaves nobody holding; and one that is refused changes nothing.
   */
  lemma AskHolds(run: seq<Step>, n: Name, r: int, answer: Code)
    requires Legal(AtDaemon(run)) && IsResource(r)
    ensures var es, all := AtDaemon(run), AtDaemon(run + [Asks(n, false, r, answer, true)]);
            && (Enrolled(run, n) && Unheld(es, r) ==> Legal(all) && |all| == |es| + 1 && Holds(all, |es|, n, r))
            && (Enrolled(run, n) && Ownership.YieldsTo(es, n, r) && answer == SUCCESS ==>
                  Legal(all) && |all| == |es| + 1 && Holds(all, |es|, n, r))
            && (Enrolled(run, n) && !Unheld(es, r) && answer != SUCCESS ==> Legal(all) && Run(all) == Run(es))
    ensures var es, all := AtDaemon(run), AtDaemon(run + [Asks(n, true, r, answer, true)]);
            && ((exists i :: Holds(es, i, n, r)) ==> Legal(all) && Unheld(all, r))
            && (Enrolled(run, n) && !(exists i :: Holds(es, i, n, r)) ==> Legal(all) && Run(all) == Run(es))
  {
    RunNext(run, Asks(n, false, r, answer, true), n);
    RunNext(run, Asks(n, true, r, answer, true), n);
    EnrolledIsRegistered(run, n);
    RequestAt(AtDaemon(run), n, r, answer);
    ReleaseAt(AtDaemon(run), n, r);
  }

  lemma RequestAt(es: seq<Event>, n: Name, r: int, answer: Code)
    requires Legal(es) && IsResource(r)
    ensures var all := es + [Request(n, r, answer)];
            && (n in Run(es).members ==> Legal(all))
            && (n in Run(es).members && (Unheld(es, r) || (answer == SUCCESS && Ownership.YieldsTo(es, n, r))) ==>
                  Holds(all, |es|, n, r))
            && (n in Run(es).members && !Unheld(es, r) && answer != SUCCESS ==> Run(all) == Run(es))
  {
    RunExtend(es, Request(n, r, answer));
    if n in Run(es).members {
      RegistrationHistory(es, n);
      Ownership.GrantedWhen(es, n, r, answer);
      RequestCodes(es, n, r, answer);
      HolderIsOwner(es, r);
      if Reply(Run(es), Request(n, r, answer)) == SUCCESS {
        GrantMeaning(es, n, r, answer);
      }
    }
  }

  lemma ReleaseAt(es: seq<Event>, n: Name, r: int)
    requires Legal(es) && IsResource(r)
    ensures var all := es + [Release(n, r)];
            && ((exists i :: Holds(es, i, n, r)) ==> Legal(all) && Unheld(all, r))
            && (n in Run(es).members && !(exists i :: Holds(es, i, n, r)) ==> Legal(all) && Run(all) == Run(es))
  {
    RunExtend(es, Release(n, r));
    RunSound(es);
    OwnershipLedger(es, n, r);
    if exists i :: Holds(es, i, n, r) {
      Ownership.Released(es, n, r);
    }
  }

  /** Only the arrival of a message changes the daemon: who holds what after any other step is as before. */
  lemma OtherStepsKeep(run: seq<Step>, s: Step)
    requires s.Started? || s.Ended? || (s.Invoked? && !s.op.PublishCall?) || (!s.Invoked? && !s.delivered)
    ensures AtDaemon(run + [s]) == AtDaemon(run)
  {
    RunNext(run, s, s.n);
    assert AtDaemon(run) + [] == AtDaemon(run);
  }

  /** Step `i` connected `n`, and it has neither disconnected, started anew nor ended since. */
  ghost predicate ConnectedAt(run: seq<Step>, i: int, n: Name) {
    && 0 <= i < |run| && run[i].Connects? && run[i].n == n
    && forall j | i < j < |run| && run[j].n == n :: run[j].Invoked? || run[j].Asks?
  }

  lemma ConnectedAtNext(f: seq<Step>, s: Step, i: nat, n: Name)
    requires i <= |f|
    ensures ConnectedAt(f + [s], i, n) <==>
              if i == |f| then s.Connects? && s.n == n
              else ConnectedAt(f, i, n) && (s.n == n ==> s.Invoked? || s.Asks?)
  {
    var run := f + [s];
    assert run[|f|] == s && forall j | 0 <= j < |f| :: run[j] == f[j];
  }

  /** In a run, that is what being connected means. */
  lemma {:induction false} ConnectedMeans(run: seq<Step>, n: Name)
    requires IsRun(run)
    ensures LifeOf(run, n) == Connected <==> exists i :: ConnectedAt(run, i, n)
  {
    if run != [] {
      var f, s := run[..|run|-1], run[|run|-1];
      assert run == f + [s];
      ConnectedMeans(f, n);
      forall i: nat | i <= |f|
        ensures ConnectedAt(run, i, n) <==>
                  if i == |f| then s.Connects? && s.n == n
                  else ConnectedAt(f, i, n) && (s.n == n ==> s.Invoked? || s.Asks?)
      {
        ConnectedAtNext(f, s, i, n);
      }
      if LifeOf(run, n) == Connected && !(s.Connects? && s.n == n) {
        var i :| ConnectedAt(f, i, n);
        assert ConnectedAt(run, i, n);
      }
      assert s.Connects? && s.n == n ==> ConnectedAt(run, |f|, n);
    }
  }

  /** The library takes a connection only between initialization and the end, and all else only while connected. */
  lemma WhatIsAllowed(run: seq<Step>, s: Step)
    requires IsRun(run)
    ensures IsRun(run + [s]) <==>
              || s.Started?
              || (s.Ended? && LifeOf(run, s.n) != Off)
              || (s.Connects? && LifeOf(run, s.n) == Initialized)
              || ((s.Disconnects? || s.Invoked? || s.Asks?) && LifeOf(run, s.n) == Connected)
    ensures s.Started? ==> LifeOf(run + [s], s.n) == Initialized
    ensures s.Ended? ==> LifeOf(run + [s], s.n) == Off
    ensures s.Disconnects? ==> LifeOf(run + [s], s.n) == Initialized
    ensures forall n: Name | n != s.n :: LifeOf(run + [s], n) == LifeOf(run, n)
  {
    assert (run + [s])[..|run|] == run;
  }

  // ---------------------------------------------------------------- broadcasts

  /** The calls made in the process of `n` since its library last started. */
  function AtMember(run: seq<Step>, n: Name): seq<EventSpec.Op> {
    if run == [] then []
    else
      var s, before := run[|run|-1], AtMember(run[..|run|-1], n);
      if s == Started(n) || s == Ended(n) then []
      else if s.Invoked? && s.n == n then before + [s.op]
      else before
  }

  /** Step `i` published `meth` in member `n`, and its announcement to the daemon arrived. */
  ghost predicate Announced(run: seq<Step>, i: int, n: Name, meth: Name) {
    && 0 <= i < |run| && run[i].Invoked? && run[i].n == n && run[i].delivered
    && run[i].op.PublishCall? && run[i].op.call == meth
    && n != DAEMON_NAME && Client.IsPreChangeMethod(meth)
  }

  lemma ReachingMember(s: Step, n: Name, meth: Name)
    ensures Subscribe(n, meth) in Reaching(s) <==> Announces(s, meth) && s.n == n
    ensures forall e | e in Reaching(s) :: LibrarySubscription(e)
  {
    if s.Invoked? && s.op.PublishCall? {
      Client.AnnouncedAreLibrary(s.n, s.op.call);
    }
  }

  lemma {:induction false} LibraryOnly(run: seq<Step>)
    ensures forall e | e in AtDaemon(run) :: LibrarySubscription(e)
  {
    if run != [] {
      LibraryOnly(run[..|run|-1]);
      ReachingMember(run[|run|-1], "", "");
    }
  }

  lemma {:induction false} Announcements(run: seq<Step>, n: Name, meth: Name)
    ensures Subscribe(n, meth) in AtDaemon(run) <==> exists i :: Announced(run, i, n, meth)
  {
    if run != [] {
      var f, s := run[..|run|-1], run[|run|-1];
      Announcements(f, n, meth);
      ReachingMember(s, n, meth);
      assert forall i | 0 <= i < |f| :: Announced(run, i, n, meth) <==> Announced(f, i, n, meth);
      assert Announced(run, |f|, n, meth) <==> Announces(s, meth) && s.n == n;
    }
  }

  /** The process of `n` neither ends nor starts anew. */
  predicate Stays(run: seq<Step>, n: Name) {
    Started(n) !in run && Ended(n) !in run
  }

  /** Step `i` made the call `op` in the process of `n`, which has gone on since. */
  ghost predicate Since(run: seq<Step>, i: int, n: Name, op: EventSpec.Op) {
    0 <= i < |run| && run[i].Invoked? && run[i].n == n && run[i].op == op && Stays(run[i..], n)
  }

  /** A call extends what the process has done since its start; a start or an end leaves nothing of it. */
  lemma MemberGoesOn(run: seq<Step>, s: Step, n: Name)
    ensures s.Invoked? && s.n == n ==>
              EventSpec.Run(AtMember(run + [s], n)) == EventSpec.Step(EventSpec.Run(AtMember(run, n)), s.op).0
    ensures s.Invoked? && s.n == n ==> AtMember(run + [s], n) == AtMember(run, n) + [s.op]
    ensures s == Started(n) || s == Ended(n) ==>
              AtMember(run + [s], n) == [] && EventSpec.Run(AtMember(run + [s], n)) == EventSpec.EMPTY
    ensures !(s.Invoked? && s.n == n) && s != Started(n) && s != Ended(n) ==> AtMember(run + [s], n) == AtMember(run, n)
  {
    assert (run + [s])[..|run|] == run;
    if s.Invoked? && s.n == n {
      EventSpec.RunExtend(AtMember(run, n), s.op);
    }
  }

  /** Step `i` published `meth` in the process of `n`, which has gone on since. */
  ghost predicate Serving(run: seq<Step>, i: int, n: Name, meth: Name) {
    0 <= i < |run| && run[i].Invoked? && Publishes(run[i].op, meth) && Since(run, i, n, run[i].op)
  }

  /** Step `i` is the first of those. */
  ghost predicate FirstServing(run: seq<Step>, i: int, n: Name, meth: Name) {
    Serving(run, i, n, meth) && forall j | 0 <= j < i :: !Serving(run, j, n, meth)
  }

  lemma ServingNext(f: seq<Step>, s: Step, i: nat, n: Name, meth: Name)
    requires i <= |f|
    ensures Serving(f + [s], i, n, meth) <==>
              if i == |f| then s.Invoked? && s.n == n && Publishes(s.op, meth)
              else Serving(f, i, n, meth) && s != Started(n) && s != Ended(n)
  {
    var run := f + [s];
    if i == |f| {
      assert run[i..] == [s];
    } else {
      assert run[i..] == f[i..] + [s];
    }
  }

  /** `served` is the handler of the first serving step, if there is one. */
  ghost predicate IsServer(run: seq<Step>, n: Name, meth: Name, served: Option<EventSpec.Handler>) {
    && (served.Some? <==> exists i :: Serving(run, i, n, meth))
    && (forall i | FirstServing(run, i, n, meth) :: served == Some(run[i].op.handler))
  }

  lemma ServerReset(f: seq<Step>, s: Step, n: Name, meth: Name)
    requires s == Started(n) || s == Ended(n)
    ensures IsServer(f + [s], n, meth, None)
  {
    forall i: nat | i <= |f| ensures !Serving(f + [s], i, n, meth) {
      ServingNext(f, s, i, n, meth);
    }
  }

  lemma ServerNext(f: seq<Step>, s: Step, n: Name, meth: Name, served: Option<EventSpec.Handler>)
    requires IsServer(f, n, meth, served) && s != Started(n) && s != Ended(n)
    ensures IsServer(f + [s], n, meth,
                     if served.Some? then served
                     else if s.Invoked? && s.n == n && Publishes(s.op, meth) then Some(s.op.handler) else None)
  {
    var run := f + [s];
    forall i: nat | i <= |f|
      ensures Serving(run, i, n, meth) <==>
                if i == |f| then s.Invoked? && s.n == n && Publishes(s.op, meth) else Serving(f, i, n, meth)
    {
      ServingNext(f, s, i, n, meth);
    }
    if served.Some? {
      var i :| Serving(f, i, n, meth);
      assert Serving(run, i, n, meth);
    } else if Serving(run, |f|, n, meth) {
      assert run[|f|] == s;
    }
    assert forall i | 0 <= i < |f| :: FirstServing(run, i, n, meth) ==> FirstServing(f, i, n, meth);
    assert FirstServing(run, |f|, n, meth) ==> served.None?;
  }

  /** The method that serves a name is the one of the first serving step. */
  lemma {:induction false} ServedBy(run: seq<Step>, n: Name, meth: Name)
    ensures IsServer(run, n, meth, FirstNamed(Published(AtMember(run, n)), meth))
  {
    if run != [] {
      var f, s := run[..|run|-1], run[|run|-1];
      assert run == f + [s];
      ServedBy(f, n, meth);
      MemberGoesOn(f, s, n);
      if s == Started(n) || s == Ended(n) {
        ServerReset(f, s, n, meth);
      } else {
        ServerNext(f, s, n, meth, FirstNamed(Published(AtMember(f, n)), meth));
        if s.Invoked? && s.n == n {
          PublishedNext(AtMember(f, n), s.op, meth);
        }
      }
    }
  }

  /** What a call of `meth` with this argument block runs in the process of `n`. */
  function RunsAt(run: seq<Step>, n: Name, meth: Name, block: seq<byte>, size: nat): seq<Invocation>
    requires |block| == HEADER + size
  {
    var b := EventSpec.Run(AtMember(run, n));
    Effects(b.contexts, b.filters, CallMessage(meth, block, size))
  }

  /**
     Whom a broadcast tries to call: once each, exactly the enrolled members whose announcement ever
     arrived; and whom it reaches: those with a name of at most 50 characters.
   */
  lemma BroadcastCalls(run: seq<Step>, p: PreChange, n: Name)
    ensures var wanted := Enrolled(run, n) && exists i :: Announced(run, i, n, p.MethodName());
            && multiset(Called(Run(AtDaemon(run)), p))[n] == (if wanted then 1 else 0)
            && multiset(Reached(Run(AtDaemon(run)), p))[n] == (if wanted && |n| <= 50 then 1 else 0)
  {
    LibraryOnly(run);
    Announcements(run, n, p.MethodName());
    BroadcastExact(AtDaemon(run), p);
    RegistrationHistory(AtDaemon(run), n);
    EnrolledIsRegistered(run, n);
    NoDupMultiset(Called(Run(AtDaemon(run)), p));
    FilterNoDup(Called(Run(AtDaemon(run)), p), (m: Name) => Addressable(m));
    NoDupMultiset(Reached(Run(AtDaemon(run)), p));
  }

  /**
     What a call runs: the handler of the first publication of the method in a process that has gone on
     since, on the caller's block, whatever else it listened for or published; without one, nothing.
   */
  lemma CallServed(run: seq<Step>, n: Name, meth: Name, block: seq<byte>, size: nat)
    requires size + HEADER < TWO32 && IsBlock(block, size)
    ensures var runs := RunsAt(run, n, meth, block, size);
            && (runs == [] <==> !exists i :: Serving(run, i, n, meth))
            && (forall i | FirstServing(run, i, n, meth) :: runs == [MethodRun(run[i].op.handler, block)])
            && |runs| <= 1
  {
    RunsWhat(AtMember(run, n), meth, block, size);
    ServedBy(run, n, meth);
  }

  lemma RunsWhat(ops: seq<EventSpec.Op>, meth: Name, block: seq<byte>, size: nat)
    requires size + HEADER < TWO32 && IsBlock(block, size)
    ensures var b := EventSpec.Run(ops);
            Effects(b.contexts, b.filters, CallMessage(meth, block, size)) ==
              match FirstNamed(Published(ops), meth)
              case None => []
              case Some(h) => [MethodRun(h, block)]
  {
    CallReaches(ops, meth, block, size);
    FirstPublishedIs(ops, meth);
  }

  /**
     An enrolled member that published and announced a pre-change method and whose process has gone on
     since is reached exactly once, and runs exactly one handler, if its name has at most 50 characters;
     a call to a longer name cannot be addressed to it.
   */
  lemma PublishedIsServed(run: seq<Step>, i: int, n: Name, p: PreChange, block: seq<byte>, size: nat)
    requires size + HEADER < TWO32 && IsBlock(block, size)
    requires Serving(run, i, n, p.MethodName()) && Announced(run, i, n, p.MethodName()) && Enrolled(run, n)
    ensures multiset(Reached(Run(AtDaemon(run)), p))[n] == if Target(n) == BusName(n) then 1 else 0
    ensures Target(n) == BusName(n) <==> |n| <= 50
    ensures |RunsAt(run, n, p.MethodName(), block, size)| == 1
  {
    BroadcastCalls(run, p, n);
    CallServed(run, n, p.MethodName(), block, size);
    TargetExact(n, n);
  }

  /** A member that announced one of the five methods and no other is called by its broadcast and no other. */
  lemma OneBroadcast(run: seq<Step>, i: int, n: Name, p: PreChange, q: PreChange)
    requires Enrolled(run, n) && Announced(run, i, n, p.MethodName())
    requires forall j, m: Name :: Announced(run, j, n, m) ==> m == p.MethodName()
    ensures multiset(Called(Run(AtDaemon(run)), q))[n] == if q == p then 1 else 0
  {
    BroadcastCalls(run, q, n);
    MethodNames(p, q);
  }

  /** A new start after a run, and a new connection. */
  function Again(run: seq<Step>, n: Name): seq<Step> {
    run + [Started(n)] + [Connects(n, true)]
  }

  lemma AgainParts(run: seq<Step>, n: Name)
    ensures IsRun(run) ==> IsRun(Again(run, n))
    ensures AtMember(Again(run, n), n) == []
    ensures n != DAEMON_NAME ==> Enrolled(Again(run, n), n)
  {
    var started := run + [Started(n)];
    assert Again(run, n)[..|run|+1] == started && started[..|run|] == run;
    RunNext(run, Started(n), n);
    RunNext(started, Connects(n, true), n);
    if n != DAEMON_NAME {
      EnrolledNext(started, Connects(n, true), n);
    }
  }

  /** A subscription outlives the published call: after a new start a member is called in vain. */
  lemma CalledInVain(run: seq<Step>, i: int, n: Name, p: PreChange, block: seq<byte>, size: nat)
    requires IsRun(run) && size + HEADER < TWO32 && IsBlock(block, size)
    requires Announced(run, i, n, p.MethodName())
    ensures IsRun(Again(run, n))
    ensures multiset(Called(Run(AtDaemon(Again(run, n))), p))[n] == 1
    ensures RunsAt(Again(run, n), n, p.MethodName(), block, size) == []
  {
    AgainParts(run, n);
    assert Announced(Again(run, n), i, n, p.MethodName());
    BroadcastCalls(Again(run, n), p, n);
    CallReaches([], p.MethodName(), block, size);
  }

  /** So it does when a member dies, or its disconnection is lost and it terminates: the daemon calls nobody. */
  lemma EndedIsCalled(run: seq<Step>, i: int, n: Name, p: PreChange, block: seq<byte>, size: nat)
    requires IsRun(run) && LifeOf(run, n) != Off && size + HEADER < TWO32 && IsBlock(block, size)
    requires Announced(run, i, n, p.MethodName()) && Enrolled(run, n)
    ensures var ended := run + [Ended(n)];
            && IsRun(ended)
            && multiset(Called(Run(AtDaemon(ended)), p))[n] == 1
            && RunsAt(ended, n, p.MethodName(), block, size) == []
  {
    var ended := run + [Ended(n)];
    RunNext(run, Ended(n), n);
    EnrolledNext(run, Ended(n), n);
    assert Announced(ended, i, n, p.MethodName());
    BroadcastCalls(ended, p, n);
    assert ended[..|run|] == run && AtMember(ended, n) == [];
    CallReaches([], p.MethodName(), block, size);
  }
}
