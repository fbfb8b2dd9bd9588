/**
 IARM_Bus_Term and the IARM_Term inside it against the dispatch thread: one step per access to what the
 two share, which is the handler list and the call contexts, the library lock and the core's context.
 Term holds the library lock for as long as it runs, and every other call of the library takes it
 first. A run is any sequence of enabled actions, so it is any interleaving of the two threads, of
 wake-ups without a signal, of arriving messages and of losing the bus.
 */
module Shutdown {

  /** Where IARM_Bus_Term is: before an action that the name's comment describes. */
  datatype TermPc =
    | Start     // take the library lock
    | Entered   // free the handler contexts
    | Freeing   // free the list's nodes and forget the list
    | Unlisted  // free the call contexts
    | Uncalled  // close the connections
    | Closed    // lock
    | Locked    // test the exit status
    | Waiting   // asleep on the condition
    | Woken     // lock again
    | Leaving   // unlock
    | NoLock    // destroy the mutex
    | NoMutex   // destroy the condition
    | NoCond    // free the context
    | NoCtx     // release the library lock
    | TermDone

  /**
     A message, with the number of library calls that each callback it runs makes: a signal runs some
     handlers one after the other, a method call its method, any other message nothing.
   */
  datatype Message = Signal(handlers: seq<nat>) | MethodCall(calls: nat) | Other

  /** What follows a callback: the rest of the fan-out, or nothing. */
  datatype Next = FanOut(handlers: seq<nat>) | Return

  datatype DispatchPc =
    | Loop                            // read, write and dispatch
    | Scanning(handlers: seq<nat>)    // in the fan-out: read the next list entry
    | Running(calls: nat, next: Next) // in a callback: take the library lock for the next call, or return
    | Inside(calls: nat, next: Next)  // in such a call: release the library lock
    | Out                             // lock
    | InLock                          // set the exit bit
    | BitSet                          // signal
    | Signalled                       // unlock
    | DispatchDone
    | Stale                           // has read freed memory: nothing is known any more

  datatype Holder = Nobody | Term | Dispatch

  /** The handler list: intact, being freed, or NULL. A read while it is being freed counts as stale. */
  datatype Handlers = Listed | Dangling | Gone

  datatype State = State(
    term: TermPc,
    disp: DispatchPc,
    library: Holder,
    mutex: Holder,
    exitStatus: int,
    disconnected: bool,
    queue: seq<Message>,
    handlers: Handlers,
    callsAlive: bool,
    mutexAlive: bool,
    condAlive: bool,
    ctxAlive: bool)

  datatype Action = TermStep | DispatchStep | SpuriousWakeup | MessageArrives(msg: Message) | BusLost

  /** 1 << 1 */
  const DISPATCH_EXIT := 2

  const INITIAL := State(Start, Loop, Nobody, Nobody, 0, false, [], Listed, true, true, true, true)

  /** `self`: IARM_Bus_Term was called by a callback, that is, on the dispatch thread itself. */
  predicate Enabled(self: bool, s: State, a: Action) {
    match a
    case TermStep => (
      match s.term
      case Start => s.library == Nobody
      case Closed => s.mutex == Nobody
      case Woken => s.mutex == Nobody
      case Waiting => false
      case TermDone => false
      case _ => true)
    case DispatchStep => (
      match s.disp
      case Loop => (self ==> s.term == TermDone) && (s.queue != [] || s.disconnected)
      case Running(calls, _) => calls > 0 ==> s.library == Nobody
      case Out => s.mutex == Nobody
      case DispatchDone => false
      case Stale => false
      case _ => true)
    case SpuriousWakeup => s.term == Waiting
    case MessageArrives(_) => !s.disconnected
    case BusLost => !s.disconnected
  }

  function Apply(s: State, a: Action): State {
    match a
    case TermStep => TermMove(s)
    case DispatchStep => DispatchMove(s)
    case SpuriousWakeup => s.(term := Woken)
    case MessageArrives(msg) => s.(queue := s.queue + [msg])
    case BusLost => s.(disconnected := true)
  }

  /** Where Term's action leads it, and the fields that the action changes. */
  function TermNext(s: State): TermPc {
    match s.term
    case Start => Entered
    case Entered => Freeing
    case Freeing => Unlisted
    case Unlisted => Uncalled
    case Uncalled => Closed
    case Closed => Locked
    case Locked => if s.exitStatus != DISPATCH_EXIT then Waiting else Leaving
    case Waiting => Waiting
    case Woken => Locked
    case Leaving => NoLock
    case NoLock => NoMutex
    case NoMutex => NoCond
    case NoCond => NoCtx
    case NoCtx => TermDone
    case TermDone => TermDone
  }

  function TermMove(s: State): State {
    s.(
      term := TermNext(s),
      library := if s.term == Start then Term else if s.term == NoCtx then Nobody else s.library,
      mutex := if TermNext(s) == Locked then Term else if s.term in {Locked, Leaving} && TermNext(s) != Leaving
               then Nobody else s.mutex,
      handlers := if s.term == Entered then Dangling else if s.term == Freeing then Gone else s.handlers,
      callsAlive := s.callsAlive && s.term != Unlisted,
      disconnected := s.disconnected || s.term == Uncalled,
      mutexAlive := s.mutexAlive && s.term != NoLock,
      condAlive := s.condAlive && s.term != NoMutex,
      ctxAlive := s.ctxAlive && s.term != NoCond)
  }

  /** Where the dispatch thread's action leads it, and the fields that the action changes. */
  function DispatchNext(s: State): DispatchPc {
    match s.disp
    case Loop => if s.queue == [] then Out else Begin(s, s.queue[0])
    case Scanning(handlers) => Scan(s, handlers)
    case Running(calls, next) =>
      if calls > 0 then Inside(calls - 1, next) else if next.FanOut? then Scanning(next.handlers) else Loop
    case Inside(calls, next) => Running(calls, next)
    case Out => InLock
    case InLock => BitSet
    case BitSet => Signalled
    case Signalled => DispatchDone
    case DispatchDone => DispatchDone
    case Stale => Stale
  }

  function DispatchMove(s: State): State {
    s.(
      disp := DispatchNext(s),
      queue := if s.disp == Loop && s.queue != [] then s.queue[1..] else s.queue,
      library := if DispatchNext(s).Inside? then Dispatch else if s.disp.Inside? then Nobody else s.library,
      mutex := if s.disp == Out then Dispatch else if s.disp == Signalled then Nobody else s.mutex,
      exitStatus := if s.disp == InLock then DISPATCH_EXIT else s.exitStatus,
      term := if s.disp == BitSet && s.term == Waiting then Woken else s.term)
  }

  /**
     The wrapper of a signal's handlers looks at the list, and runs nothing if it is NULL; that of a
     method call reads its call context, and after the method only passes its address on.
   */
  function Begin(s: State, msg: Message): DispatchPc {
    match msg
    case Signal(handlers) =>
      if s.handlers == Gone then Loop else if s.handlers == Dangling then Stale else Scanning(handlers)
    case MethodCall(calls) => if s.callsAlive then Running(calls, Return) else Stale
    case Other => Loop
  }

  /** The fan-out goes on from an entry of the list that it took when the list was intact. */
  function Scan(s: State, handlers: seq<nat>): DispatchPc {
    if s.handlers != Listed then Stale
    else if handlers == [] then Loop
    else Running(handlers[0], FanOut(handlers[1..]))
  }

  function Run(run: seq<Action>): State {
    if run == [] then INITIAL else Apply(Run(run[..|run|-1]), run[|run|-1])
  }

  predicate Legal(self: bool, run: seq<Action>) {
    run == [] || (Legal(self, run[..|run|-1]) && Enabled(self, Run(run[..|run|-1]), run[|run|-1]))
  }

  lemma RunExtend(self: bool, run: seq<Action>, a: Action)
    ensures Run(run + [a]) == Apply(Run(run), a)
    ensures Legal(self, run + [a]) <==> Legal(self, run) && Enabled(self, Run(run), a)
  {
    assert (run + [a])[..|run|] == run;
  }

  predicate AfterWait(pc: TermPc) {
    pc in {Leaving, NoLock, NoMutex, NoCond, NoCtx, TermDone}
  }

  predicate HoldsLibrary(pc: TermPc) {
    pc != Start && pc != TermDone
  }

  /** The dispatch thread still reads messages or runs callbacks. */
  predicate Dispatching(pc: DispatchPc) {
    pc.Loop? || pc.Scanning? || pc.Running? || pc.Inside? || pc.Stale?
  }

  /** What every step keeps. */
  predicate Inv(s: State) {
    && (s.library == Term <==> HoldsLibrary(s.term))
    && (s.library == Dispatch <==> s.disp.Inside?)
    && (s.mutex == Term <==> s.term in {Locked, Leaving})
    && (s.mutex == Dispatch <==> s.disp in {InLock, BitSet, Signalled})
    && s.exitStatus == (if s.disp in {BitSet, Signalled, DispatchDone} then DISPATCH_EXIT else 0)
    && s.handlers == (if s.term in {Start, Entered} then Listed else if s.term == Freeing then Dangling else Gone)
    && (s.callsAlive <==> s.term in {Start, Entered, Freeing, Unlisted})
    && (s.term !in {Start, Entered, Freeing, Unlisted, Uncalled} ==> s.disconnected)
    && (!Dispatching(s.disp) ==> s.disconnected && s.queue == [])
    && (s.term == Waiting && s.exitStatus == DISPATCH_EXIT ==> s.disp == BitSet)
    && (AfterWait(s.term) ==> s.disp == DispatchDone)
    && (s.mutexAlive <==> s.term !in {NoMutex, NoCond, NoCtx, TermDone})
    && (s.condAlive <==> s.term !in {NoCond, NoCtx, TermDone})
    && (s.ctxAlive <==> s.term !in {NoCtx, TermDone})
  }

  lemma InvStep(self: bool, s: State, a: Action)
    requires Inv(s) && Enabled(self, s, a)
    ensures Inv(Apply(s, a))
  {
    match a
    case TermStep => InvTerm(s);
    case DispatchStep => InvDispatch(self, s);
    case SpuriousWakeup =>
    case MessageArrives(_) =>
    case BusLost =>
  }

  lemma InvTerm(s: State)
    requires Inv(s) && Enabled(false, s, TermStep)
    ensures Inv(TermMove(s))
  {
  }

  lemma InvDispatch(self: bool, s: State)
    requires Inv(s) && Enabled(self, s, DispatchStep)
    ensures Inv(DispatchMove(s))
  {
  }

  lemma {:induction false} RunInv(self: bool, run: seq<Action>)
    requires Legal(self, run)
    ensures Inv(Run(run))
  {
    if run != [] {
      RunInv(self, run[..|run|-1]);
      InvStep(self, Run(run[..|run|-1]), run[|run|-1]);
    }
  }

  /** Until the dispatch thread has made its last access, mutex, condition and context all exist. */
  lemma DestroyedOnlyAfterLastAccess(self: bool, run: seq<Action>)
    requires Legal(self, run)
    ensures Run(run).disp != DispatchDone ==> Run(run).mutexAlive && Run(run).condAlive && Run(run).ctxAlive
    ensures !Run(run).mutexAlive || !Run(run).condAlive || !Run(run).ctxAlive ==> Run(run).disp == DispatchDone
    ensures Run(run).term in {Closed, Locked, Waiting, Woken, Leaving} ==>
              Run(run).mutexAlive && Run(run).condAlive && Run(run).ctxAlive
  {
    RunInv(self, run);
  }

  /** Once the exit bit has been set and signalled Term neither sleeps nor can go to sleep. */
  lemma NoLostWakeup(self: bool, run: seq<Action>)
    requires Legal(self, run)
    ensures Run(run).disp in {Signalled, DispatchDone} ==> Run(run).term != Waiting
    ensures Run(run).exitStatus == DISPATCH_EXIT && Run(run).term == Waiting ==>
              Apply(Run(run), DispatchStep).term == Woken && Enabled(self, Run(run), DispatchStep)
    ensures Run(run).exitStatus == DISPATCH_EXIT && Run(run).term != Waiting ==>
              Apply(Run(run), TermStep).term != Waiting
  {
    RunInv(self, run);
  }

  // ---------------------------------------------------------------- continuing a run

  /** The state that actions lead to from a given one, and whether each is enabled in turn. */
  function Forward(s: State, more: seq<Action>): State
    decreases |more|
  {
    if more == [] then s else Forward(Apply(s, more[0]), more[1..])
  }

  predicate Possible(self: bool, s: State, more: seq<Action>)
    decreases |more|
  {
    more == [] || (Enabled(self, s, more[0]) && Possible(self, Apply(s, more[0]), more[1..]))
  }

  lemma PossibleStep(self: bool, s: State, a: Action, rest: seq<Action>)
    ensures Possible(self, s, [a] + rest) <==> Enabled(self, s, a) && Possible(self, Apply(s, a), rest)
    ensures Forward(s, [a] + rest) == Forward(Apply(s, a), rest)
  {
    assert ([a] + rest)[1..] == rest;
  }

  lemma {:induction false} ForwardLast(self: bool, s: State, more: seq<Action>, a: Action)
    ensures Possible(self, s, more + [a]) <==> Possible(self, s, more) && Enabled(self, Forward(s, more), a)
    ensures Forward(s, more + [a]) == Apply(Forward(s, more), a)
    decreases |more|
  {
    if more == [] {
      PossibleStep(self, s, a, []);
      assert more + [a] == [a] + [];
    } else {
      var b, rest := more[0], more[1..];
      ForwardLast(self, Apply(s, b), rest, a);
      PossibleStep(self, s, b, rest + [a]);
      assert more + [a] == [b] + (rest + [a]);
    }
  }

  lemma {:induction false} ForwardIsRun(self: bool, run: seq<Action>, more: seq<Action>)
    requires Legal(self, run) && Possible(self, Run(run), more)
    ensures Legal(self, run + more) && Run(run + more) == Forward(Run(run), more)
  {
    if more == [] {
      assert run + more == run;
    } else {
      var init, a := more[..|more|-1], more[|more|-1];
      assert more == init + [a] && run + more == (run + init) + [a];
      ForwardLast(self, Run(run), init, a);
      ForwardIsRun(self, run, init);
      RunExtend(self, run + init, a);
    }
  }

  // ---------------------------------------------------------------- bounded steps

  function TermRank(pc: TermPc): nat {
    match pc
    case Start => 13
    case Entered => 12
    case Freeing => 11
    case Unlisted => 10
    case Uncalled => 9
    case Closed => 8
    case Woken => 8
    case Locked => 7
    case Waiting => 6
    case Leaving => 5
    case NoLock => 4
    case NoMutex => 3
    case NoCond => 2
    case NoCtx => 1
    case TermDone => 0
  }

  /** Steps of a fan-out: one to end it, and for each handler two and two a library call. */
  function ScanRank(handlers: seq<nat>): nat {
    if handlers == [] then 1 else 2 + 2 * handlers[0] + ScanRank(handlers[1..])
  }

  function NextRank(next: Next): nat {
    if next.FanOut? then ScanRank(next.handlers) else 0
  }

  function DispatchRank(pc: DispatchPc): nat {
    match pc
    case Scanning(handlers) => 7 + ScanRank(handlers)
    case Running(calls, next) => 8 + 2 * calls + NextRank(next)
    case Inside(calls, next) => 9 + 2 * calls + NextRank(next)
    case Loop => 7
    case Out => 6
    case InLock => 5
    case BitSet => 4
    case Signalled => 1
    case DispatchDone => 0
    case Stale => 0
  }

  /** Steps that dispatching a message takes. */
  function MessageRank(msg: Message): nat {
    match msg
    case Signal(handlers) => 1 + ScanRank(handlers)
    case MethodCall(calls) => 2 + 2 * calls
    case Other => 1
  }

  function QueueRank(queue: seq<Message>): nat {
    if queue == [] then 0 else MessageRank(queue[0]) + QueueRank(queue[1..])
  }

  lemma {:induction false} QueueNext(queue: seq<Message>, msg: Message)
    ensures QueueRank(queue + [msg]) == QueueRank(queue) + MessageRank(msg)
  {
    if queue == [] {
      assert queue + [msg] == [msg];
    } else {
      assert (queue + [msg])[1..] == queue[1..] + [msg];
      QueueNext(queue[1..], msg);
    }
  }

  /** Steps the two threads can still take before something else happens. */
  function Potential(s: State): nat {
    TermRank(s.term) + DispatchRank(s.disp) + QueueRank(s.queue)
  }

  /** The steps of the two threads. */
  function Worked(a: Action): nat {
    if a == TermStep || a == DispatchStep then 1 else 0
  }

  /** The steps that what happens around them can add. */
  function Added(a: Action): nat {
    match a
    case MessageArrives(msg) => MessageRank(msg)
    case SpuriousWakeup => 2
    case _ => 0
  }

  function Sum(run: seq<Action>, weight: Action -> nat): nat {
    if run == [] then 0 else Sum(run[..|run|-1], weight) + weight(run[|run|-1])
  }

  /**
     Both threads together take at most 20 steps, plus two a spurious wake-up and, for each message, what
     its callbacks and their library calls take.
   */
  lemma {:induction false} BoundedSteps(self: bool, run: seq<Action>)
    requires Legal(self, run)
    ensures Sum(run, Worked) + Potential(Run(run)) <= 20 + Sum(run, Added)
  {
    if run != [] {
      BoundedSteps(self, run[..|run|-1]);
      StepCost(self, Run(run[..|run|-1]), run[|run|-1]);
    }
  }

  lemma StepCost(self: bool, s: State, a: Action)
    requires Enabled(self, s, a)
    ensures Potential(Apply(s, a)) + Worked(a) <= Potential(s) + Added(a)
  {
    match a
    case TermStep => TermCost(self, s);
    case DispatchStep => DispatchCost(self, s);
    case SpuriousWakeup =>
    case MessageArrives(msg) => QueueNext(s.queue, msg);
    case BusLost =>
  }

  lemma TermCost(self: bool, s: State)
    requires Enabled(self, s, TermStep)
    ensures Potential(TermMove(s)) < Potential(s)
  {
    assert TermRank(TermNext(s)) < TermRank(s.term);
  }

  lemma DispatchCost(self: bool, s: State)
    requires Enabled(self, s, DispatchStep)
    ensures Potential(DispatchMove(s)) < Potential(s)
  {
    var t := DispatchMove(s);
    if s.disp == BitSet {
      assert TermRank(t.term) <= TermRank(s.term) + 2;
    } else {
      assert DispatchRank(DispatchNext(s)) + QueueRank(t.queue) < DispatchRank(s.disp) + QueueRank(s.queue);
    }
  }

  /** What can happen around the two threads at any point, and that it does nothing else. */
  lemma Surroundings(self: bool, s: State, msg: Message)
    ensures Enabled(self, s, SpuriousWakeup) <==> s.term == Waiting
    ensures Enabled(self, s, MessageArrives(msg)) <==> !s.disconnected
    ensures Enabled(self, s, BusLost) <==> !s.disconnected
    ensures Apply(s, SpuriousWakeup) == s.(term := Woken)
    ensures Apply(s, MessageArrives(msg)) == s.(queue := s.queue + [msg])
    ensures Apply(s, BusLost) == s.(disconnected := true)
  {
  }

  // ---------------------------------------------------------------- deadlock

  /** Each of the two threads waits for the other. */
  predicate Deadlocked(s: State) {
    s.term == Waiting && s.disp.Running? && s.disp.calls > 0
  }

  predicate Finished(s: State) {
    s.term == TermDone && s.disp == DispatchDone
  }

  /**
     Off the dispatch thread, and unless freed memory has been read, neither thread can take a step exactly
     when both are through or Term sleeps, holding the library lock, while a callback waits for that lock.
   */
  lemma NeverStuck(run: seq<Action>)
    requires Legal(false, run) && Run(run).disp != Stale
    ensures !Enabled(false, Run(run), TermStep) && !Enabled(false, Run(run), DispatchStep) <==>
              Finished(Run(run)) || Deadlocked(Run(run))
  {
    RunInv(false, run);
    Stuck(Run(run));
  }

  lemma Stuck(s: State)
    requires Inv(s) && s.disp != Stale
    ensures !Enabled(false, s, TermStep) && !Enabled(false, s, DispatchStep) <==> Finished(s) || Deadlocked(s)
  {
    if s.term == Waiting && s.disp.Running? && s.disp.calls > 0 {
      assert s.library == Term;
    }
  }
}
