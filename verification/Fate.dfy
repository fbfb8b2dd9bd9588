/**
 How a shutdown can end: completed, in a deadlock over the library lock, or with the dispatch thread
 reading memory that Term has freed; and which of these a state still leaves open.
 */
module Fate {
  import opened Shutdown

  // ---------------------------------------------------------------- states that can complete

  /** Handlers that make no library calls. */
  predicate Quiet(handlers: seq<nat>) {
    handlers == [] || (handlers[0] == 0 && Quiet(handlers[1..]))
  }

  /** The dispatch thread can get back to its loop without the library lock and without a stale read. */
  predicate Unblocked(s: State) {
    match s.disp
    case Scanning(handlers) => s.handlers == Listed && Quiet(handlers)
    case Running(calls, next) => calls == 0 && (next.FanOut? ==> s.handlers == Listed && Quiet(next.handlers))
    case Stale => false
    case _ => true
  }

  /** Every queued method call can still read its context and needs no lock. Signals can wait for the list to go. */
  predicate Drainable(queue: seq<Message>, callsAlive: bool) {
    queue == [] ||
    ((queue[0].MethodCall? ==> callsAlive && queue[0].calls == 0) && Drainable(queue[1..], callsAlive))
  }

  /** From here Term can complete. */
  predicate Completable(s: State) {
    if s.term == Start then s.disp != Stale
    else s.term == TermDone || (Unblocked(s) && Drainable(s.queue, s.callsAlive))
  }

  lemma {:induction false} DrainableNext(queue: seq<Message>, callsAlive: bool, msg: Message)
    ensures Drainable(queue + [msg], callsAlive) <==>
              Drainable(queue, callsAlive) && (msg.MethodCall? ==> callsAlive && msg.calls == 0)
  {
    if queue == [] {
      assert (queue + [msg])[1..] == [];
    } else {
      assert (queue + [msg])[1..] == queue[1..] + [msg];
      DrainableNext(queue[1..], callsAlive, msg);
    }
  }

  lemma {:induction false} DrainableLess(queue: seq<Message>)
    ensures Drainable(queue, false) ==> Drainable(queue, true)
  {
    if queue != [] {
      DrainableLess(queue[1..]);
    }
  }

  /** Once Term can no longer complete it never can again. */
  lemma DoomedStep(self: bool, s: State, a: Action)
    requires Inv(s) && !Completable(s) && Enabled(self, s, a)
    ensures !Completable(Apply(s, a))
  {
    match a
    case TermStep => DrainableLess(s.queue);
    case DispatchStep => DoomedDispatch(self, s);
    case SpuriousWakeup =>
    case MessageArrives(msg) => DrainableNext(s.queue, s.callsAlive, msg);
    case BusLost =>
  }

  lemma DoomedDispatch(self: bool, s: State)
    requires Inv(s) && !Completable(s) && Enabled(self, s, DispatchStep)
    ensures !Completable(DispatchMove(s))
  {
    assert s.term != Start;
    if !Unblocked(s) {
      assert !Unblocked(DispatchMove(s));
    }
  }

  /** Off the dispatch thread, some step of a state that can complete brings the end closer. */
  lemma NextWorker(s: State) returns (a: Action)
    requires Inv(s) && Completable(s) && s.term != TermDone
    ensures Enabled(false, s, a) && Potential(Apply(s, a)) < Potential(s)
    ensures Completable(Apply(s, a))
  {
    var called := s.disp.Scanning? || s.disp.Running? || s.disp.Inside?;
    var busy := called || s.queue != [];
    if (s.term == Start && busy) || (s.term == Entered && called) || (s.term == Unlisted && busy) {
      a := DispatchStep;
    } else {
      a := if Enabled(false, s, TermStep) then TermStep else DispatchStep;
    }
    StepCost(false, s, a);
  }

  lemma {:induction false} Finish(s: State) returns (more: seq<Action>)
    requires Inv(s) && Completable(s)
    ensures Possible(false, s, more) && Forward(s, more).term == TermDone
    decreases Potential(s)
  {
    more := [];
    if s.term != TermDone {
      var a := NextWorker(s);
      InvStep(false, s, a);
      var rest := Finish(Apply(s, a));
      PossibleStep(false, s, a, rest);
      more := [a] + rest;
    }
  }

  lemma {:induction false} DoomedForward(self: bool, s: State, more: seq<Action>)
    requires Inv(s) && !Completable(s) && Possible(self, s, more)
    ensures !Completable(Forward(s, more))
    decreases |more|
  {
    if more != [] {
      InvStep(self, s, more[0]);
      DoomedStep(self, s, more[0]);
      DoomedForward(self, Apply(s, more[0]), more[1..]);
    }
  }

  // ---------------------------------------------------------------- on the dispatch thread itself

  /** Called on the dispatch thread: that thread is stuck in the callback, Term short of its wait's end. */
  predicate SelfStuck(s: State) {
    Inv(s) && s.disp == Loop && !AfterWait(s.term)
  }

  lemma SelfStep(s: State, a: Action)
    requires SelfStuck(s) && Enabled(true, s, a)
    ensures SelfStuck(Apply(s, a))
  {
    InvStep(true, s, a);
  }

  lemma {:induction false} SelfForward(s: State, more: seq<Action>)
    requires SelfStuck(s) && Possible(true, s, more)
    ensures SelfStuck(Forward(s, more))
    decreases |more|
  {
    if more != [] {
      SelfStep(s, more[0]);
      SelfForward(Apply(s, more[0]), more[1..]);
    }
  }

  /** Called on the dispatch thread, Term can never finish: it ends up waiting for itself. */
  lemma {:induction false} SelfTermNeverFinishes(run: seq<Action>)
    requires Legal(true, run)
    ensures SelfStuck(Run(run)) && Run(run).term != TermDone
    ensures Run(run).term == Waiting ==>
              !Enabled(true, Run(run), TermStep) && !Enabled(true, Run(run), DispatchStep)
  {
    if run != [] {
      SelfTermNeverFinishes(run[..|run|-1]);
      SelfStep(Run(run[..|run|-1]), run[|run|-1]);
    }
  }

  // ---------------------------------------------------------------- completion

  /** `more` takes the threads from `s` to the end of IARM_Bus_Term, with no stale read. */
  predicate Completes(self: bool, s: State, more: seq<Action>) {
    Possible(self, s, more) && Forward(s, more).term == TermDone && Forward(s, more).disp != Stale
  }

  /**
     From a point of a run Term can still complete exactly if it is off the dispatch thread and, when it
     already holds the library lock, the dispatch thread and every queued method call can do without that
     lock and without what has been freed.
   */
  lemma CanFinish(self: bool, run: seq<Action>)
    requires Legal(self, run)
    ensures !self && Completable(Run(run)) <==> exists more :: Completes(self, Run(run), more)
  {
    RunInv(self, run);
    if self {
      SelfTermNeverFinishes(run);
      forall more | Possible(self, Run(run), more) ensures !Completes(self, Run(run), more) {
        SelfForward(Run(run), more);
      }
    } else if !Completable(Run(run)) {
      forall more | Possible(self, Run(run), more) ensures !Completes(self, Run(run), more) {
        DoomedForward(self, Run(run), more);
      }
    } else {
      var more := Finish(Run(run));
      ForwardIsRun(false, run, more);
      RunInv(false, run + more);
      assert Completes(self, Run(run), more);
    }
  }

  predicate ConnectionsClosed(pc: TermPc) {
    pc !in {Start, Entered, Freeing, Unlisted, Uncalled}
  }

  lemma SealedStep(self: bool, s: State, a: Action)
    requires Inv(s) && ConnectionsClosed(s.term) && Enabled(self, s, a)
    ensures Completable(Apply(s, a)) <==> Completable(s)
    ensures ConnectionsClosed(Apply(s, a).term)
  {
    if !Completable(s) {
      DoomedStep(self, s, a);
    }
  }

  lemma {:induction false} SealedForward(self: bool, s: State, more: seq<Action>)
    requires Inv(s) && ConnectionsClosed(s.term) && Possible(self, s, more)
    ensures Inv(Forward(s, more)) && (Completable(Forward(s, more)) <==> Completable(s))
    decreases |more|
  {
    if more != [] {
      InvStep(self, s, more[0]);
      SealedStep(self, s, more[0]);
      SealedForward(self, Apply(s, more[0]), more[1..]);
    }
  }

  /**
     Once Term has closed the connections its end is settled. If it can complete then nothing that happens
     keeps it from it: no deadlock and no stale read can come any more. If it cannot, nothing saves it.
   */
  lemma FateIsSealed(self: bool, run: seq<Action>, more: seq<Action>)
    requires Legal(self, run) && ConnectionsClosed(Run(run).term) && Possible(self, Run(run), more)
    ensures Completable(Forward(Run(run), more)) <==> Completable(Run(run))
    ensures Deadlocked(Forward(Run(run), more)) || Forward(Run(run), more).disp == Stale ==> !Completable(Run(run))
  {
    RunInv(self, run);
    var t := Forward(Run(run), more);
    SealedForward(self, Run(run), more);
    if Deadlocked(t) || t.disp == Stale {
      Hopeless(t);
    }
  }

  lemma Hopeless(s: State)
    requires Inv(s) && (Deadlocked(s) || s.disp == Stale)
    ensures !Completable(s)
  {
  }

  // ---------------------------------------------------------------- stale reads

  /** The fan-out in progress has yet to read a list entry. */
  predicate ReadsOn(pc: DispatchPc) {
    pc.Scanning? || ((pc.Running? || pc.Inside?) && pc.next.FanOut?)
  }

  /** Some queued message will read what is, or may yet be, freed. */
  predicate Reads(queue: seq<Message>, handlers: Handlers) {
    queue != [] &&
    (queue[0].MethodCall? || (queue[0].Signal? && handlers != Gone) || Reads(queue[1..], handlers))
  }

  /** The dispatch thread needs the library lock next and Term holds it. */
  predicate Blocked(s: State) {
    HoldsLibrary(s.term) && s.disp.Running? && s.disp.calls > 0
  }

  /** From here the dispatch thread can get to read freed memory: a message can still come, or a read is due. */
  predicate StaleAhead(s: State) {
    s.disp == Stale ||
    (Dispatching(s.disp) && !Blocked(s) && (!s.disconnected || ReadsOn(s.disp) || Reads(s.queue, s.handlers)))
  }

  lemma {:induction false} ReadsLess(queue: seq<Message>, handlers: Handlers)
    ensures Reads(queue, Gone) ==> Reads(queue, handlers)
    ensures handlers != Gone ==> Reads(queue, handlers) == Reads(queue, Listed)
  {
    if queue != [] {
      ReadsLess(queue[1..], handlers);
    }
  }

  /** Where no stale read is ahead none ever will be. */
  lemma SafeStep(self: bool, s: State, a: Action)
    requires Inv(s) && !StaleAhead(s) && Enabled(self, s, a)
    ensures !StaleAhead(Apply(s, a))
  {
    match a
    case TermStep =>
      ReadsLess(s.queue, s.handlers);
      ReadsLess(s.queue, TermMove(s).handlers);
    case DispatchStep => SafeDispatch(self, s);
    case SpuriousWakeup =>
    case MessageArrives(_) =>
    case BusLost =>
  }

  lemma SafeDispatch(self: bool, s: State)
    requires Inv(s) && !StaleAhead(s) && Enabled(self, s, DispatchStep)
    ensures !StaleAhead(DispatchMove(s))
  {
    assert !Blocked(s);
  }

  lemma {:induction false} SafeForward(self: bool, s: State, more: seq<Action>)
    requires Inv(s) && !StaleAhead(s) && Possible(self, s, more)
    ensures Forward(s, more).disp != Stale
    decreases |more|
  {
    if more != [] {
      InvStep(self, s, more[0]);
      SafeStep(self, s, more[0]);
      SafeForward(self, Apply(s, more[0]), more[1..]);
    }
  }

  /** With the loop idle and every context freed, the next message would be read through a freed one. */
  predicate Exposed(s: State) {
    s.term == Uncalled && s.disp == Loop && s.queue == []
  }

  /** A step towards a stale read: let the dispatch thread begin what reads, and let Term free it first. */
  lemma NextReader(s: State) returns (a: Action)
    requires Inv(s) && StaleAhead(s) && s.disp != Stale && !Exposed(s)
    ensures Enabled(false, s, a) && Potential(Apply(s, a)) < Potential(s)
    ensures StaleAhead(Apply(s, a))
  {
    var first := if s.queue == [] then MethodCall(0) else s.queue[0];
    var wait := match s.term
      case Start => !(s.disp.Inside? || (s.disp.Running? && s.disp.calls > 0))
      case Entered => ReadsOn(s.disp) || (s.disp == Loop && first.MethodCall?)
      case Freeing => s.disp == Loop && first.MethodCall?
      case Unlisted => s.disp == Loop && first.MethodCall?
      case _ => false;
    a := if wait then TermStep else DispatchStep;
    StepCost(false, s, a);
    ReadsLess(s.queue, s.handlers);
    ReadsLess(s.queue, Apply(s, a).handlers);
  }

  lemma {:induction false} GoStale(s: State) returns (more: seq<Action>)
    requires Inv(s) && StaleAhead(s)
    ensures Possible(false, s, more) && Forward(s, more).disp == Stale
    decreases Potential(s)
  {
    more := [];
    if Exposed(s) {
      var arrives := MessageArrives(MethodCall(0));
      PossibleStep(false, Apply(s, arrives), DispatchStep, []);
      PossibleStep(false, s, arrives, [DispatchStep]);
      more := [arrives] + [DispatchStep];
      assert [DispatchStep] + [] == [DispatchStep];
    } else if s.disp != Stale {
      var a := NextReader(s);
      InvStep(false, s, a);
      var rest := GoStale(Apply(s, a));
      PossibleStep(false, s, a, rest);
      more := [a] + rest;
    }
  }

  /** `more` takes the dispatch thread from `s` to a read of freed memory. */
  predicate Spoils(self: bool, s: State, more: seq<Action>) {
    Possible(self, s, more) && Forward(s, more).disp == Stale
  }

  /**
     From a point of a run the dispatch thread can still read freed memory exactly if Term is off that
     thread, it still dispatches and does not wait for Term's lock, and the connection is open or it has
     a fan-out to go on with, a method call queued, or a signal queued before the list is gone.
   */
  lemma CanGoStale(self: bool, run: seq<Action>)
    requires Legal(self, run)
    ensures !self && StaleAhead(Run(run)) <==> exists more :: Spoils(self, Run(run), more)
  {
    RunInv(self, run);
    if self {
      SelfTermNeverFinishes(run);
      forall more | Possible(self, Run(run), more) ensures !Spoils(self, Run(run), more) {
        SelfForward(Run(run), more);
      }
    } else if StaleAhead(Run(run)) {
      var more := GoStale(Run(run));
      assert Spoils(self, Run(run), more);
    } else {
      forall more | Possible(self, Run(run), more) ensures !Spoils(self, Run(run), more) {
        SafeForward(self, Run(run), more);
      }
    }
  }

  // ---------------------------------------------------------------- witnesses

  function TermSteps(n: nat): seq<Action> {
    if n == 0 then [] else [TermStep] + TermSteps(n - 1)
  }

  /** Term's steps to its sleep, with the dispatch thread where it stands. */
  lemma {:induction false} TermAlone(s: State, n: nat)
    requires Inv(s) && BeforeSleep(s.term) && n <= StepsToSleep(s.term)
    requires s.term == Start ==> s.library == Nobody
    requires s.exitStatus != DISPATCH_EXIT && s.mutex != Dispatch
    ensures Possible(false, s, TermSteps(n))
    ensures var t := Forward(s, TermSteps(n));
            && Inv(t) && t.disp == s.disp && t.queue == s.queue
            && BeforeSleep(t.term) && StepsToSleep(t.term) == StepsToSleep(s.term) - n
    decreases n
  {
    if n > 0 {
      InvTerm(s);
      TermAlone(TermMove(s), n - 1);
      PossibleStep(false, s, TermStep, TermSteps(n - 1));
    }
  }

  predicate BeforeSleep(pc: TermPc) {
    pc == Waiting || StepsToSleep(pc) > 0
  }

  function StepsToSleep(pc: TermPc): nat {
    match pc
    case Start => 7
    case Entered => 6
    case Freeing => 5
    case Unlisted => 4
    case Uncalled => 3
    case Closed => 2
    case Locked => 1
    case _ => 0
  }

  /** A method that calls the library, releasing a resource for one, has begun when Term takes the lock. */
  lemma DeadlockRun(calls: nat)
    requires calls > 0
    ensures var run := [MessageArrives(MethodCall(calls))] + ([DispatchStep] + TermSteps(7));
            Legal(false, run) && Deadlocked(Run(run))
  {
    var s1 := Apply(INITIAL, MessageArrives(MethodCall(calls)));
    var s2 := Apply(s1, DispatchStep);
    assert s2.disp == Running(calls, Return);
    TermAlone(s2, 7);
    PossibleStep(false, s1, DispatchStep, TermSteps(7));
    PossibleStep(false, INITIAL, MessageArrives(MethodCall(calls)), [DispatchStep] + TermSteps(7));
    FromStart([MessageArrives(MethodCall(calls))] + ([DispatchStep] + TermSteps(7)));
  }

  /** Any method call still queued when Term has freed the call contexts is read through a freed one. */
  lemma StaleCallRun(calls: nat)
    ensures var run := [MessageArrives(MethodCall(calls))] + TermSteps(4) + [DispatchStep];
            Legal(false, run) && Run(run).disp == Stale
  {
    var msg := MessageArrives(MethodCall(calls));
    var s1 := Apply(INITIAL, msg);
    TermAlone(s1, 4);
    PossibleStep(false, INITIAL, msg, TermSteps(4));
    FromStart([msg] + TermSteps(4));
    RunExtend(false, [msg] + TermSteps(4), DispatchStep);
  }

  /** So is the list entry to which a signal's fan-out returns when Term has begun to free them. */
  lemma StaleSignalRun(handlers: seq<nat>)
    ensures var run := [MessageArrives(Signal(handlers))] + ([DispatchStep] + TermSteps(2)) + [DispatchStep];
            Legal(false, run) && Run(run).disp == Stale
  {
    var msg := MessageArrives(Signal(handlers));
    var s1 := Apply(INITIAL, msg);
    var s2 := Apply(s1, DispatchStep);
    assert s2.disp == Scanning(handlers);
    TermAlone(s2, 2);
    PossibleStep(false, s1, DispatchStep, TermSteps(2));
    PossibleStep(false, INITIAL, msg, [DispatchStep] + TermSteps(2));
    FromStart([msg] + ([DispatchStep] + TermSteps(2)));
    RunExtend(false, [msg] + ([DispatchStep] + TermSteps(2)), DispatchStep);
  }

  lemma FromStart(more: seq<Action>)
    requires Possible(false, INITIAL, more)
    ensures Legal(false, more) && Run(more) == Forward(INITIAL, more)
  {
    ForwardIsRun(false, [], more);
    assert [] + more == more;
  }
}
