/**
 The fan-out loop when handlers themselves register and remove handlers. The loop takes no lock and
 follows the list's nodes: entries added meanwhile go in front of it, entries removed meanwhile are
 unlinked from what is left, and the removal of the entry it stands on frees the node it goes on from.
 */
module Reentry {
  import opened IarmTypes
  import opened Lists
  import opened EventSpec
  import Delivery
  import EventData

  /** The list around the loop's cursor: entries passed, the one it stands on unless freed, those to come. */
  datatype Cursor = Cursor(front: seq<Context>, here: Option<Context>, rest: seq<Context>)

  function Whole(z: Cursor): seq<Context> {
    z.front + (if z.here.Some? then [z.here.value] else []) + z.rest
  }

  /** The entry that a removal names. */
  predicate Unlists(op: Op, c: Context) {
    || (op.RemoveHandler? && op.handler != 0 && c == Context(SearchKey(op.owner, op.id), op.handler))
    || (op.RemoveAll? && c.key == SearchKey(op.owner, op.id))
  }

  function Without(cs: seq<Context>, op: Op): seq<Context> {
    Filter(cs, (c: Context) => !Unlists(op, c))
  }

  /** What one library call of a handler does to the list. */
  function Edit(z: Cursor, op: Op): (t: Cursor)
    ensures |t.rest| <= |z.rest|
  {
    WithoutLength(z.rest, op);
    if op.AddHandler? then
      var c := Context(ContextKey(op.owner, op.id), op.handler);
      if op.handler == 0 || c in Whole(z) then z else z.(front := [c] + z.front)
    else
      Cursor(Without(z.front, op),
             if z.here.Some? && Unlists(op, z.here.value) then None else z.here,
             Without(z.rest, op))
  }

  function EditAll(z: Cursor, ops: seq<Op>): (t: Cursor)
    ensures |t.rest| <= |z.rest|
    decreases |ops|
  {
    if ops == [] then z else EditAll(Edit(z, ops[0]), ops[1..])
  }

  lemma {:induction false} WithoutLength(cs: seq<Context>, op: Op)
    ensures |Without(cs, op)| <= |cs|
  {
    if cs != [] {
      WithoutLength(cs[1..], op);
    }
  }

  lemma WithoutAppend(s: seq<Context>, t: seq<Context>, op: Op)
    ensures Without(s + t, op) == Without(s, op) + Without(t, op)
  {
    FilterAppend(s, t, (c: Context) => !Unlists(op, c));
  }

  lemma WithoutOne(c: Context, op: Op)
    ensures Without([c], op) == if Unlists(op, c) then [] else [c]
  {
    var keep := (x: Context) => !Unlists(op, x);
    assert [c][1..] == [];
    assert Filter([c], keep) == if keep(c) then [c] else [];
  }

  lemma {:induction false} WithoutFirst(cs: seq<Context>, op: Op)
    requires NoDup(cs) && op.RemoveHandler? && op.handler != 0
    ensures Without(cs, op) == RemoveFirst(cs, Context(SearchKey(op.owner, op.id), op.handler))
  {
    if cs != [] {
      WithoutFirst(cs[1..], op);
      WithoutOne(cs[0], op);
      assert cs == [cs[0]] + cs[1..];
      WithoutAppend([cs[0]], cs[1..], op);
      if Unlists(op, cs[0]) {
        assert cs[0] !in cs[1..];
      }
    }
  }

  lemma {:induction false} WithoutNone(cs: seq<Context>, op: Op)
    requires forall c | c in cs :: !Unlists(op, c)
    ensures Without(cs, op) == cs
  {
    if cs != [] {
      WithoutNone(cs[1..], op);
    }
  }

  lemma WithoutWhole(z: Cursor, op: Op)
    requires !op.AddHandler?
    ensures Whole(Edit(z, op)) == Without(Whole(z), op)
  {
    var here := if z.here.Some? then [z.here.value] else [];
    WithoutAppend(z.front + here, z.rest, op);
    WithoutAppend(z.front, here, op);
    if z.here.Some? {
      WithoutOne(z.here.value, op);
    }
  }

  /** A call made by a handler changes the list as the same call made elsewhere does. */
  lemma EditIsStep(z: Cursor, b: Bus, op: Op)
    requires Coherent(b) && b.contexts == Whole(z)
    ensures Whole(Edit(z, op)) == Step(b, op).0.contexts
  {
    match op
    case AddHandler(_, _, _, _) =>
      if Edit(z, op) != z {
        assert Whole(Edit(z, op)) == [Edit(z, op).front[0]] + Whole(z);
      }
    case RemoveHandler(_, _, _) =>
      WithoutWhole(z, op);
      if op.handler != 0 {
        WithoutFirst(b.contexts, op);
      } else {
        WithoutNone(b.contexts, op);
      }
    case RemoveAll(owner, id) =>
      WithoutWhole(z, op);
      SameFilter(b.contexts, op);
    case PublishCall(_, _, _, _) =>
      WithoutWhole(z, op);
      WithoutNone(b.contexts, op);
    case PublishEvents(_) =>
      WithoutWhole(z, op);
      WithoutNone(b.contexts, op);
  }

  lemma {:induction false} SameFilter(cs: seq<Context>, op: Op)
    requires op.RemoveAll?
    ensures Without(cs, op) == DropKey(cs, SearchKey(op.owner, op.id))
  {
    if cs != [] {
      SameFilter(cs[1..], op);
      DropKeyCons(cs, SearchKey(op.owner, op.id));
    }
  }

  // ---------------------------------------------------------------- the loop

  /** A handler that was run, and the library calls it made meanwhile. */
  datatype Turn = Turn(entry: Context, calls: seq<Op>)

  /** The handlers that were run, whether the loop got to its end, and the list it left. */
  datatype Fan = Fan(runs: seq<Turn>, safe: bool, left: seq<Context>)

  predicate Matches(c: Context, e: EventData.Event) {
    c.key == Key(e.owner, e.id) && c.handler != 0
  }

  /** _EventHandler_FuncWrapper, where the handler run at turn `k` makes the library calls `acts(k)`. */
  function Walk(front: seq<Context>, rest: seq<Context>, e: EventData.Event, acts: nat -> seq<Op>, k: nat): Fan
    decreases |rest|
  {
    if rest == [] then Fan([], true, front)
    else if !Matches(rest[0], e) then Walk(front + [rest[0]], rest[1..], e, acts, k)
    else
      var z := EditAll(Cursor(front, Some(rest[0]), rest[1..]), acts(k));
      var turn := Turn(rest[0], acts(k));
      if z.here.None? then Fan([turn], false, Whole(z))
      else
        var fan := Walk(z.front + [rest[0]], z.rest, e, acts, k + 1);
        fan.(runs := [turn] + fan.runs)
  }

  predicate AnyUnlists(ops: seq<Op>, c: Context) {
    exists op | op in ops :: Unlists(op, c)
  }

  lemma AnyUnlistsCons(ops: seq<Op>, c: Context)
    requires ops != []
    ensures AnyUnlists(ops, c) <==> Unlists(ops[0], c) || AnyUnlists(ops[1..], c)
  {
    assert ops == [ops[0]] + ops[1..];
    if AnyUnlists(ops[1..], c) {
      var op :| op in ops[1..] && Unlists(op, c);
      assert op in ops;
    }
  }

  /** What a handler's calls leave of the entry the loop stands on, and of those to come. */
  lemma {:induction false} EditParts(z: Cursor, ops: seq<Op>)
    ensures var t := EditAll(z, ops);
            && (t.here == if z.here.Some? && !AnyUnlists(ops, z.here.value) then z.here else None)
            && (forall c :: c in t.rest <==> c in z.rest && !AnyUnlists(ops, c))
            && (NoDup(z.rest) ==> NoDup(t.rest))
    decreases |ops|
  {
    if ops != [] {
      var y := Edit(z, ops[0]);
      EditParts(y, ops[1..]);
      forall c ensures AnyUnlists(ops, c) <==> Unlists(ops[0], c) || AnyUnlists(ops[1..], c) {
        AnyUnlistsCons(ops, c);
      }
      if NoDup(z.rest) {
        FilterNoDup(z.rest, (c: Context) => !Unlists(ops[0], c));
      }
    }
  }

  lemma {:induction false} WithoutBefore(cs: seq<Context>, op: Op, a: Context, b: Context)
    requires Before(Without(cs, op), a, b)
    ensures Before(cs, a, b)
  {
    var x, y :| 0 <= x < y < |Without(cs, op)| && Without(cs, op)[x] == a && Without(cs, op)[y] == b;
    FilterOrder(cs, (c: Context) => !Unlists(op, c), x, y);
  }

  lemma {:induction false} EditBefore(z: Cursor, ops: seq<Op>, a: Context, b: Context)
    requires Before(EditAll(z, ops).rest, a, b)
    ensures Before(z.rest, a, b)
    decreases |ops|
  {
    if ops != [] {
      EditBefore(Edit(z, ops[0]), ops[1..], a, b);
      if !ops[0].AddHandler? {
        WithoutBefore(z.rest, ops[0], a, b);
      }
    }
  }

  /** Different handlers in list order, and none after an earlier one has unlisted it. */
  ghost predicate Orderly(rest: seq<Context>, runs: seq<Turn>) {
    forall i, j | 0 <= i < j < |runs| ::
      && runs[i].entry != runs[j].entry
      && Before(rest, runs[i].entry, runs[j].entry)
      && !AnyUnlists(runs[i].calls, runs[j].entry)
  }

  /**
     Only handlers of the event that were listed when the loop started are run, each at most once and in
     list order, and none after an earlier one has unlisted it.
   */
  lemma {:induction false} RunsListed(front: seq<Context>, rest: seq<Context>, e: EventData.Event,
                                      acts: nat -> seq<Op>, k: nat)
    requires NoDup(rest)
    ensures var runs := Walk(front, rest, e, acts, k).runs;
            Orderly(rest, runs) && (forall t | t in runs :: t.entry in rest && Matches(t.entry, e))
    decreases |rest|
  {
    if rest != [] {
      var c, tail := rest[0], rest[1..];
      assert rest == [c] + tail;
      if !Matches(c, e) {
        RunsListed(front + [c], tail, e, acts, k);
        OrderlyLater(c, tail, Walk(front + [c], tail, e, acts, k).runs);
      } else {
        var z := EditAll(Cursor(front, Some(c), tail), acts(k));
        EditParts(Cursor(front, Some(c), tail), acts(k));
        if z.here.Some? {
          RunsListed(z.front + [c], z.rest, e, acts, k + 1);
          OrderlyFirst(front, c, tail, acts(k), Walk(z.front + [c], z.rest, e, acts, k + 1).runs);
        }
      }
    }
  }

  lemma OrderlyLater(c: Context, tail: seq<Context>, runs: seq<Turn>)
    requires Orderly(tail, runs)
    ensures Orderly([c] + tail, runs)
  {
    forall i, j | 0 <= i < j < |runs| ensures Before([c] + tail, runs[i].entry, runs[j].entry) {
      BeforeCons(c, tail, runs[i].entry, runs[j].entry);
    }
  }

  lemma OrderlyFirst(front: seq<Context>, c: Context, tail: seq<Context>, ops: seq<Op>, more: seq<Turn>)
    requires NoDup([c] + tail)
    requires Orderly(EditAll(Cursor(front, Some(c), tail), ops).rest, more)
    requires forall t | t in more :: t.entry in EditAll(Cursor(front, Some(c), tail), ops).rest
    ensures Orderly([c] + tail, [Turn(c, ops)] + more)
    ensures forall t | t in more :: t.entry in tail
  {
    var z := Cursor(front, Some(c), tail);
    EditParts(z, ops);
    forall j | 0 <= j < |more| ensures Before([c] + tail, c, more[j].entry) && more[j].entry != c {
      assert more[j] in more;
      BeforeFirst(c, tail, more[j].entry);
    }
    forall j | 0 <= j < |more| ensures !AnyUnlists(ops, more[j].entry) {
      assert more[j] in more;
    }
    forall i, j | 0 <= i < j < |more| ensures Before([c] + tail, more[i].entry, more[j].entry) {
      EditBefore(z, ops, more[i].entry, more[j].entry);
      BeforeCons(c, tail, more[i].entry, more[j].entry);
    }
    OrderlyJoin([c] + tail, Turn(c, ops), more);
  }

  lemma OrderlyJoin(rest: seq<Context>, turn: Turn, more: seq<Turn>)
    requires forall j | 0 <= j < |more| ::
      Before(rest, turn.entry, more[j].entry) && more[j].entry != turn.entry && !AnyUnlists(turn.calls, more[j].entry)
    requires forall i, j | 0 <= i < j < |more| ::
      && more[i].entry != more[j].entry
      && Before(rest, more[i].entry, more[j].entry)
      && !AnyUnlists(more[i].calls, more[j].entry)
    ensures Orderly(rest, [turn] + more)
  {
    var runs := [turn] + more;
    forall i, j | 0 <= i < j < |runs|
      ensures runs[i].entry != runs[j].entry && Before(rest, runs[i].entry, runs[j].entry)
      ensures !AnyUnlists(runs[i].calls, runs[j].entry)
    {
      assert runs[j] == more[j-1];
      assert i > 0 ==> runs[i] == more[i-1];
    }
  }

  lemma BeforeCons(c: Context, tail: seq<Context>, a: Context, b: Context)
    requires Before(tail, a, b)
    ensures Before([c] + tail, a, b)
  {
    var x, y :| 0 <= x < y < |tail| && tail[x] == a && tail[y] == b;
    assert ([c] + tail)[x+1] == a && ([c] + tail)[y+1] == b;
  }

  lemma BeforeFirst(c: Context, tail: seq<Context>, b: Context)
    requires NoDup([c] + tail) && b in tail
    ensures Before([c] + tail, c, b) && b != c
  {
    var y :| 0 <= y < |tail| && tail[y] == b;
    assert ([c] + tail)[0] == c && ([c] + tail)[y+1] == b;
  }

  /** The loop reads no freed node exactly if no handler it runs removes its own entry. */
  lemma {:induction false} SafeExactly(front: seq<Context>, rest: seq<Context>, e: EventData.Event,
                                       acts: nat -> seq<Op>, k: nat)
    ensures var fan := Walk(front, rest, e, acts, k);
            fan.safe <==> forall t | t in fan.runs :: !AnyUnlists(t.calls, t.entry)
    decreases |rest|
  {
    if rest != [] {
      var c := rest[0];
      if !Matches(c, e) {
        SafeExactly(front + [c], rest[1..], e, acts, k);
      } else {
        var z := EditAll(Cursor(front, Some(c), rest[1..]), acts(k));
        var turn := Turn(c, acts(k));
        EditParts(Cursor(front, Some(c), rest[1..]), acts(k));
        if z.here.Some? {
          SafeExactly(z.front + [c], z.rest, e, acts, k + 1);
          var more := Walk(z.front + [c], z.rest, e, acts, k + 1).runs;
          assert forall t :: t in [turn] + more <==> t == turn || t in more;
        } else {
          assert turn in [turn];
        }
      }
    }
  }

  /** A safe loop leaves out a handler of the event only if one that it ran unlisted it. */
  lemma {:induction false} NobodyMissed(front: seq<Context>, rest: seq<Context>, e: EventData.Event,
                                        acts: nat -> seq<Op>, k: nat, c: Context)
    requires c in rest && Matches(c, e) && Walk(front, rest, e, acts, k).safe
    ensures var runs := Walk(front, rest, e, acts, k).runs;
            exists t :: t in runs && (t.entry == c || AnyUnlists(t.calls, c))
    decreases |rest|
  {
    var d, tail := rest[0], rest[1..];
    if !Matches(d, e) {
      NobodyMissed(front + [d], tail, e, acts, k, c);
    } else {
      var z := EditAll(Cursor(front, Some(d), tail), acts(k));
      var turn := Turn(d, acts(k));
      var more := Walk(z.front + [d], z.rest, e, acts, k + 1).runs;
      EditParts(Cursor(front, Some(d), tail), acts(k));
      assert turn in [turn] + more;
      if c != d && c in z.rest {
        NobodyMissed(z.front + [d], z.rest, e, acts, k + 1, c);
        var t :| t in more && (t.entry == c || AnyUnlists(t.calls, c));
        assert t in [turn] + more;
      }
    }
  }

  /** The calls that the handlers made, in order. */
  function CallsOf(runs: seq<Turn>): seq<Op> {
    if runs == [] then [] else runs[0].calls + CallsOf(runs[1..])
  }

  /** The run leaves that list. */
  predicate Leaves(ops: seq<Op>, cs: seq<Context>) {
    Run(ops).contexts == cs
  }

  lemma OneEditIsRun(z: Cursor, before: seq<Op>, op: Op)
    requires Leaves(before, Whole(z))
    ensures Leaves(before + [op], Whole(Edit(z, op)))
  {
    RunCoherent(before);
    EditIsStep(z, Run(before), op);
    RunExtend(before, op);
  }

  lemma {:induction false} EditAllIsRun(z: Cursor, before: seq<Op>, ops: seq<Op>)
    requires Leaves(before, Whole(z))
    ensures Leaves(before + ops, Whole(EditAll(z, ops)))
    decreases |ops|
  {
    if ops == [] {
      assert before + ops == before;
    } else {
      OneEditIsRun(z, before, ops[0]);
      EditAllIsRun(Edit(z, ops[0]), before + [ops[0]], ops[1..]);
      assert before + ops == before + [ops[0]] + ops[1..];
    }
  }

  /** Whether it got to its end or not, the loop leaves the list that the calls made meanwhile leave. */
  lemma {:induction false} LeftIsRun(front: seq<Context>, rest: seq<Context>, e: EventData.Event,
                                     acts: nat -> seq<Op>, k: nat, before: seq<Op>)
    requires Leaves(before, front + rest)
    ensures var fan := Walk(front, rest, e, acts, k);
            Leaves(before + CallsOf(fan.runs), fan.left)
    decreases |rest|
  {
    if rest == [] {
      assert before + [] == before && front + rest == front;
    } else if !Matches(rest[0], e) {
      assert front + [rest[0]] + rest[1..] == front + rest;
      LeftIsRun(front + [rest[0]], rest[1..], e, acts, k, before);
    } else {
      var c := rest[0];
      var y := Cursor(front, Some(c), rest[1..]);
      var z := EditAll(y, acts(k));
      assert Whole(y) == front + rest;
      EditAllIsRun(y, before, acts(k));
      EditParts(y, acts(k));
      if z.here.None? {
        CallsOfOne(c, acts(k));
      } else {
        LeftIsRun(z.front + [c], z.rest, e, acts, k + 1, before + acts(k));
        CallsOfMore(before, c, acts(k), Walk(z.front + [c], z.rest, e, acts, k + 1).runs);
      }
    }
  }

  lemma CallsOfOne(c: Context, calls: seq<Op>)
    ensures CallsOf([Turn(c, calls)]) == calls
  {
    assert [Turn(c, calls)][1..] == [];
  }

  lemma CallsOfMore(before: seq<Op>, c: Context, calls: seq<Op>, more: seq<Turn>)
    ensures before + CallsOf([Turn(c, calls)] + more) == before + calls + CallsOf(more)
  {
    assert ([Turn(c, calls)] + more)[1..] == more;
  }

  /** The handler run at each turn made the calls of that turn. */
  lemma {:induction false} TurnsAct(front: seq<Context>, rest: seq<Context>, e: EventData.Event,
                                    acts: nat -> seq<Op>, k: nat, i: nat)
    requires i < |Walk(front, rest, e, acts, k).runs|
    ensures Walk(front, rest, e, acts, k).runs[i].calls == acts(k + i)
    decreases |rest|
  {
    if !Matches(rest[0], e) {
      TurnsAct(front + [rest[0]], rest[1..], e, acts, k, i);
    } else if i > 0 {
      var z := EditAll(Cursor(front, Some(rest[0]), rest[1..]), acts(k));
      TurnsAct(z.front + [rest[0]], z.rest, e, acts, k + 1, i - 1);
    }
  }

  /**
     After any run of calls: whatever the handlers of an event do to the list meanwhile, the loop is safe
     exactly if none removes its own entry; those run were listed for the event and are run once, in list
     order; a safe loop misses only those that a handler it ran unlisted; and the list left is the one that
     the same calls leave when no event is delivered.
   */
  lemma ReentrantFanOut(ops: seq<Op>, e: EventData.Event, acts: nat -> seq<Op>)
    ensures var cs := Run(ops).contexts;
            var fan := Walk([], cs, e, acts, 0);
            && (fan.safe <==> forall t | t in fan.runs :: !AnyUnlists(t.calls, t.entry))
            && Orderly(cs, fan.runs)
            && (forall t | t in fan.runs :: t.entry in cs && Matches(t.entry, e))
            && (fan.safe ==> forall c | c in cs && Matches(c, e) ::
                  exists t :: t in fan.runs && (t.entry == c || AnyUnlists(t.calls, c)))
            && fan.left == Run(ops + CallsOf(fan.runs)).contexts
            && (forall i | 0 <= i < |fan.runs| :: fan.runs[i].calls == acts(i))
  {
    assert [] + Run(ops).contexts == Run(ops).contexts;
    LeftIsRun([], Run(ops).contexts, e, acts, 0, ops);
    forall i | 0 <= i < |Walk([], Run(ops).contexts, e, acts, 0).runs|
      ensures Walk([], Run(ops).contexts, e, acts, 0).runs[i].calls == acts(i)
    {
      TurnsAct([], Run(ops).contexts, e, acts, 0, i);
    }
    var cs := Run(ops).contexts;
    RunCoherent(ops);
    SafeExactly([], cs, e, acts, 0);
    RunsListed([], cs, e, acts, 0);
    if Walk([], cs, e, acts, 0).safe {
      forall c | c in cs && Matches(c, e)
        ensures exists t :: t in Walk([], cs, e, acts, 0).runs && (t.entry == c || AnyUnlists(t.calls, c))
      {
        NobodyMissed([], cs, e, acts, 0, c);
      }
    }
  }

  /** The runs as callbacks. */
  function Invocations(runs: seq<Turn>, e: EventData.Event): seq<Delivery.Invocation> {
    seq(|runs|, i requires 0 <= i < |runs| => Delivery.HandlerRun(runs[i].entry.handler, e))
  }

  /** With handlers that leave the list alone this is the fan-out used everywhere else. */
  lemma {:induction false} QuietWalk(front: seq<Context>, rest: seq<Context>, e: EventData.Event,
                                     acts: nat -> seq<Op>, k: nat)
    requires forall i :: acts(i) == []
    ensures var fan := Walk(front, rest, e, acts, k);
            fan.safe && fan.left == front + rest && Invocations(fan.runs, e) == Delivery.FanOut(rest, e)
    decreases |rest|
  {
    if rest != [] {
      var c := rest[0];
      QuietWalk(front + [c], rest[1..], e, acts, if Matches(c, e) then k + 1 else k);
      assert front + [c] + rest[1..] == front + rest;
    }
  }

  /** A handler that removes all handlers of its own event is the simplest one that is not safe. */
  lemma SelfRemoval(front: seq<Context>, c: Context, rest: seq<Context>, e: EventData.Event, acts: nat -> seq<Op>)
    requires Matches(c, e) && acts(0) == [RemoveAll(e.owner, e.id)] && |e.owner| <= MAX_NAME_LEN
    ensures !Walk(front, [c] + rest, e, acts, 0).safe
  {
    var op := RemoveAll(e.owner, e.id);
    EditParts(Cursor(front, Some(c), rest), acts(0));
    assert op in acts(0) && Unlists(op, c);
    assert ([c] + rest)[1..] == rest;
  }
}
