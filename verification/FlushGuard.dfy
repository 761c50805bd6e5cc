/** What the `flushing` flag guarantees, and what it does not: it is tested when a flush is
    called and set only after the pending operations were read, and whichever flush ends
    first clears it. */
module FlushGuard {
  import opened Common
  import opened SyncEngine
  import opened Outbox
  import opened SyncProtocol
  import opened SyncRefinement

  predicate RunningIn(s: State, f: FlushId) { f in s.flushes && Running(s.flushes[f]) }

  /** Two flushes run at once. */
  ghost predicate Overlap(s: State) {
    exists f, g :: f != g && RunningIn(s, f) && RunningIn(s, g)
  }

  // ---------------------------------------------------------------- history

  /** When things happened in a run: each flush's last test that passed, and when it set
      the flag; all the times the flag was set, and all the times a flush's `finally`
      cleared it. A time is the number of steps before. */
  datatype History = History(tested: map<FlushId, nat>, entered: map<FlushId, nat>, sets: set<nat>, ends: set<nat>)

  predicate Passes(s: State, f: FlushId) { !s.flushing && f !in s.flushes }

  predicate Enters(s: State, f: FlushId) { f in s.flushes && s.flushes[f].phase == Loaded && s.flushes[f].batch != [] }

  function Watch(h: History, s: State, a: Action, now: nat): History {
    if a.TestFlag? && Passes(s, a.f) then h.(tested := h.tested[a.f := now])
    else if a.SetFlag? && Enters(s, a.f) then h.(entered := h.entered[a.f := now], sets := h.sets + {now})
    else if a.EndFlush? && RunningIn(s, a.f) then h.(ends := h.ends + {now})
    else h
  }

  function HistoryOf(actions: seq<Action>): History {
    if actions == [] then History(map[], map[], {}, {})
    else
      var last := |actions| - 1;
      Watch(HistoryOf(actions[..last]), Exec(Initial, actions[..last]), actions[last], last)
  }

  // -------------------------------------------------------------- invariant

  ghost predicate Timed(h: History, s: State, now: nat) {
    && (forall t :: t in h.sets ==> t < now) && (forall e :: e in h.ends ==> e < now)
    && (forall f :: f in s.flushes ==> f in h.tested && h.tested[f] < now)
    && (forall f :: RunningIn(s, f) ==>
          f in h.entered && f in h.tested && h.tested[f] < h.entered[f] < now && h.entered[f] in h.sets)
  }

  /** The flag was last cleared, by a flush that ended at `e`. */
  ghost predicate LastCleared(h: History, e: nat) {
    e in h.ends && forall t :: t in h.sets ==> t < e
  }

  ghost predicate FlagExact(h: History, s: State) {
    forall f :: RunningIn(s, f) ==> (!s.flushing <==> exists e :: LastCleared(h, e))
  }

  predicate Within(low: nat, e: nat, high: nat) { low < e < high }

  /** Some flush ended, and cleared the flag, after `f` set it and before `g`'s test. */
  ghost predicate ClearedBetween(h: History, f: FlushId, g: FlushId)
    requires f in h.entered && g in h.tested
  {
    exists e :: e in h.ends && Within(h.entered[f], e, h.tested[g])
  }

  ghost predicate Explained(h: History, f: FlushId, g: FlushId) {
    f in h.entered && g in h.tested && (h.entered[f] <= h.tested[g] ==> ClearedBetween(h, f, g))
  }

  ghost predicate TestsExplained(h: History, s: State) {
    forall f, g :: RunningIn(s, f) && g in s.flushes ==> Explained(h, f, g)
  }

  ghost predicate OverlapAt(actions: seq<Action>, n: nat) {
    n <= |actions| && Overlap(Exec(Initial, actions[..n]))
  }

  /** Whoever ended after a flush that still runs had set the flag was running beside it. */
  ghost predicate EndsOverlapped(actions: seq<Action>, h: History, s: State) {
    forall f, e :: RunningIn(s, f) && e in h.ends ==> f in h.entered && (h.entered[f] < e ==> OverlapAt(actions, e))
  }

  /** What one step does to the flushes and the flag. */
  lemma Moves(s: State, a: Action)
    ensures var t := Apply(s, a);
            && (forall f :: f in t.flushes ==> f in s.flushes || (a == TestFlag(f) && Passes(s, f)))
            && (forall f :: RunningIn(t, f) ==> RunningIn(s, f) || (a == SetFlag(f) && Enters(s, f)))
            && t.flushing == (if a.SetFlag? && Enters(s, a.f) then true
                              else if a.Reload? || (a.EndFlush? && RunningIn(s, a.f)) then false
                              else s.flushing)
            && (a.Reload? ==> t.flushes == map[])
            && (a.EndFlush? && RunningIn(s, a.f) ==> a.f !in t.flushes)
  {
    hide UpdateOf, OpsAt, AllPending, Inputs, Resolve, Claim, Replay;
  }

  lemma StepTimed(h: History, s: State, a: Action, now: nat)
    requires Timed(h, s, now)
    ensures Timed(Watch(h, s, a, now), Apply(s, a), now + 1)
  {
    Moves(s, a);
    hide Apply;
  }

  lemma StepFlagExact(h: History, s: State, a: Action, now: nat)
    requires Timed(h, s, now) && FlagExact(h, s)
    ensures FlagExact(Watch(h, s, a, now), Apply(s, a))
  {
    var k, t := Watch(h, s, a, now), Apply(s, a);
    Moves(s, a);
    hide Apply;
    forall f | RunningIn(t, f)
      ensures !t.flushing <==> exists e :: LastCleared(k, e)
    {
      if a.EndFlush? && RunningIn(s, a.f) {
        assert LastCleared(k, now);
      } else if a.SetFlag? && Enters(s, a.f) {
        assert now in k.sets;
      } else {
        assert RunningIn(s, f);
        assert forall e :: LastCleared(k, e) <==> LastCleared(h, e);
      }
    }
  }

  lemma StepExplained(h: History, s: State, a: Action, now: nat)
    requires Timed(h, s, now) && FlagExact(h, s) && TestsExplained(h, s)
    ensures TestsExplained(Watch(h, s, a, now), Apply(s, a))
  {
    var k, t := Watch(h, s, a, now), Apply(s, a);
    StepTimed(h, s, a, now);
    Moves(s, a);
    hide Apply;
    forall f, g | RunningIn(t, f) && g in t.flushes
      ensures Explained(k, f, g)
    {
      if a.TestFlag? && Passes(s, a.f) && g == a.f {
        var e :| LastCleared(h, e);
        assert Within(k.entered[f], e, k.tested[g]);
      } else if !(a.SetFlag? && Enters(s, a.f) && f == a.f) {
        assert Explained(h, f, g);
        if k.entered[f] <= k.tested[g] {
          var e :| e in h.ends && Within(h.entered[f], e, h.tested[g]);
          assert e in k.ends && Within(k.entered[f], e, k.tested[g]);
        }
      }
    }
  }

  lemma StepOverlapped(actions: seq<Action>, h: History, s: State, a: Action)
    requires s == Exec(Initial, actions) && Timed(h, s, |actions|) && EndsOverlapped(actions, h, s)
    ensures EndsOverlapped(actions + [a], Watch(h, s, a, |actions|), Apply(s, a))
  {
    var now := |actions|;
    var k, t := Watch(h, s, a, now), Apply(s, a);
    StepTimed(h, s, a, now);
    Moves(s, a);
    hide Apply, Exec;
    forall f, e | RunningIn(t, f) && e in k.ends
      ensures f in k.entered && (k.entered[f] < e ==> OverlapAt(actions + [a], e))
    {
      if e == now {
        assert (actions + [a])[..now] == actions;
        assert RunningIn(s, f) && RunningIn(s, a.f) && f != a.f;
      } else if RunningIn(s, f) && k.entered[f] < e {
        assert OverlapAt(actions, e);
        assert (actions + [a])[..e] == actions[..e];
      }
    }
  }

  lemma {:induction false} HistoryTrue(actions: seq<Action>)
    ensures var h, s := HistoryOf(actions), Exec(Initial, actions);
            Timed(h, s, |actions|) && FlagExact(h, s) && TestsExplained(h, s) && EndsOverlapped(actions, h, s)
  {
    if actions != [] {
      var last := |actions| - 1;
      var before, a := actions[..last], actions[last];
      HistoryTrue(before);
      hide Timed, FlagExact, TestsExplained, EndsOverlapped, Watch, Apply;
      var h, s := HistoryOf(before), Exec(Initial, before);
      StepTimed(h, s, a, last);
      StepFlagExact(h, s, a, last);
      StepExplained(h, s, a, last);
      StepOverlapped(before, h, s, a);
      assert before + [a] == actions;
    }
  }

  // ---------------------------------------------------------------- theorems

  /** While a flush runs, another call passes the test if and only if the last to write
      the flag was some flush's `finally`. */
  lemma PassesUnder(actions: seq<Action>, f: FlushId, g: FlushId)
    requires RunningIn(Exec(Initial, actions), f) && g !in Exec(Initial, actions).flushes
    ensures Passes(Exec(Initial, actions), g) <==> exists e :: LastCleared(HistoryOf(actions), e)
  {
    HistoryTrue(actions);
  }

  /** Where the second test fell, when two flushes run at once: before the first had set
      the flag, if and only if no flush's `finally` cleared it in between. */
  lemma WhereTheTestFell(actions: seq<Action>, f: FlushId, g: FlushId)
    requires RunningIn(Exec(Initial, actions), f) && RunningIn(Exec(Initial, actions), g)
    ensures var h := HistoryOf(actions);
            && f in h.entered && g in h.tested
            && (h.tested[g] < h.entered[f] <==> !ClearedBetween(h, f, g))
  {
    HistoryTrue(actions);
    hide Exec, HistoryOf, FlagExact, EndsOverlapped;
    TestFell(HistoryOf(actions), Exec(Initial, actions), |actions|, f, g);
  }

  lemma TestFell(h: History, s: State, now: nat, f: FlushId, g: FlushId)
    requires Timed(h, s, now) && TestsExplained(h, s) && RunningIn(s, f) && RunningIn(s, g)
    ensures f in h.entered && g in h.tested
    ensures h.tested[g] < h.entered[f] <==> !ClearedBetween(h, f, g)
  {
    assert Explained(h, f, g);
  }

  /** Two flushes run after `n` steps, and one passed its test before the other set the flag. */
  ghost predicate TestedEarly(actions: seq<Action>, n: nat) {
    n <= |actions|
    && exists f, g :: f != g && RunningIn(Exec(Initial, actions[..n]), f) && RunningIn(Exec(Initial, actions[..n]), g)
                      && Early(HistoryOf(actions[..n]), f, g)
  }

  predicate Early(h: History, f: FlushId, g: FlushId) {
    f in h.entered && g in h.tested && h.tested[g] < h.entered[f]
  }

  /** Where the race starts: if flushes ever run at once, then at some point two run of
      which one passed its test before the other set the flag. A `finally` clearing the
      flag under a running flush only makes it worse after that has happened. */
  lemma {:induction false} RaceStartsEarly(actions: seq<Action>, n: nat)
    requires OverlapAt(actions, n)
    ensures exists m: nat :: TestedEarly(actions, m)
  {
    var run := actions[..n];
    var f, g :| f != g && RunningIn(Exec(Initial, run), f) && RunningIn(Exec(Initial, run), g);
    WhereTheTestFell(run, f, g);
    var h := HistoryOf(run);
    if h.tested[g] < h.entered[f] {
      assert Early(h, f, g);
      assert TestedEarly(actions, n);
    } else {
      var e :| e in h.ends && Within(h.entered[f], e, h.tested[g]);
      HistoryTrue(run);
      assert OverlapAt(run, e);
      assert run[..e] == actions[..e];
      RaceStartsEarly(actions, e);
    }
  }

  // -------------------------------------------------- the exact condition

  /** Step `n` sets the flag while it is already set: what a second test, made where the
      flag is set, would catch. */
  predicate SetsTwice(actions: seq<Action>, n: nat) {
    n < |actions| && actions[n].SetFlag?
    && Enters(Exec(Initial, actions[..n]), actions[n].f) && Exec(Initial, actions[..n]).flushing
  }

  /** The flag is the flag of the one flush that runs, if any. */
  ghost predicate FlagGuards(s: State) {
    !Overlap(s) && forall f :: RunningIn(s, f) ==> s.flushing
  }

  lemma StepGuards(s: State, a: Action)
    requires FlagGuards(s) && !(a.SetFlag? && Enters(s, a.f) && s.flushing)
    ensures FlagGuards(Apply(s, a))
  {
    Moves(s, a);
    hide Apply;
    var t := Apply(s, a);
    forall f, g | RunningIn(t, f) && RunningIn(t, g)
      ensures f == g && t.flushing
    {
      assert RunningIn(s, f) || a == SetFlag(f);
      assert RunningIn(s, g) || a == SetFlag(g);
    }
  }

  /** Unless the flag is set while set, it does guard. */
  lemma {:induction false} GuardsUnlessSetTwice(actions: seq<Action>)
    requires forall n: nat :: !SetsTwice(actions, n)
    ensures FlagGuards(Exec(Initial, actions))
  {
    if actions != [] {
      var last := |actions| - 1;
      forall n: nat
        ensures !SetsTwice(actions[..last], n)
      {
        if n < last {
          assert actions[..last][..n] == actions[..n];
          assert !SetsTwice(actions, n);
        }
      }
      GuardsUnlessSetTwice(actions[..last]);
      assert !SetsTwice(actions, last);
      hide Apply, FlagGuards;
      StepGuards(Exec(Initial, actions[..last]), actions[last]);
    }
  }

  /** A flag that is set is the flag of a flush that runs. */
  ghost predicate FlagOwned(s: State) {
    s.flushing ==> exists f :: RunningIn(s, f)
  }

  lemma StaysRunning(s: State, a: Action, f: FlushId)
    requires RunningIn(s, f) && a != EndFlush(f) && !a.Reload?
    ensures RunningIn(Apply(s, a), f)
  {
    hide UpdateOf, OpsAt, AllPending, Inputs, Resolve, Claim, Replay;
  }

  lemma StepOwned(s: State, a: Action)
    requires FlagOwned(s)
    ensures FlagOwned(Apply(s, a))
  {
    Moves(s, a);
    if Apply(s, a).flushing {
      if a.SetFlag? && Enters(s, a.f) {
        assert RunningIn(Apply(s, a), a.f);
      } else {
        hide Apply;
        var f :| RunningIn(s, f);
        StaysRunning(s, a, f);
      }
    }
  }

  lemma {:induction false} FlagOwnedAlways(actions: seq<Action>)
    ensures FlagOwned(Exec(Initial, actions))
  {
    if actions != [] {
      FlagOwnedAlways(actions[..|actions| - 1]);
      hide Apply, FlagOwned;
      StepOwned(Exec(Initial, actions[..|actions| - 1]), actions[|actions| - 1]);
    }
  }

  /** Setting a flag that is set makes two flushes run. */
  lemma SetTwiceOverlaps(actions: seq<Action>, n: nat)
    requires SetsTwice(actions, n)
    ensures OverlapAt(actions, n + 1)
  {
    var s, a := Exec(Initial, actions[..n]), actions[n];
    FlagOwnedAlways(actions[..n]);
    var f :| RunningIn(s, f);
    StaysRunning(s, a, f);
    assert RunningIn(Apply(s, a), a.f);
    assert actions[..n + 1][..n] == actions[..n];
  }

  /** The guard's exact condition. Over every run, two flushes ever run at once if and only
      if some flush sets the flag when it is already set. */
  lemma OverlapExactly(actions: seq<Action>)
    ensures (exists n: nat :: OverlapAt(actions, n)) <==> (exists n: nat :: SetsTwice(actions, n))
  {
    if n: nat :| SetsTwice(actions, n) {
      SetTwiceOverlaps(actions, n);
    }
    if n: nat :| OverlapAt(actions, n) {
      if forall k: nat :: !SetsTwice(actions, k) {
        forall k: nat
          ensures !SetsTwice(actions[..n], k)
        {
          if k < n {
            assert actions[..n][..k] == actions[..k];
            assert !SetsTwice(actions, k);
          }
        }
        GuardsUnlessSetTwice(actions[..n]);
        assert false;
      }
    }
  }

  // ----------------------------------------------------------------- a run

  function BothEnter(f: FlushId, g: FlushId, batch: seq<Op>): seq<Action> {
    ([TestFlag(f)] + [TestFlag(g)]) + ([ReadPending(f, KeysOf(batch))] + [ReadPending(g, KeysOf(batch))]) + ([SetFlag(f)] + [SetFlag(g)])
  }

  /** Both flushes at the same point, with the same batch. */
  function Side(s: State, f: FlushId, g: FlushId, fl: FlushState): State {
    s.(flushes := s.flushes[f := fl][g := fl])
  }

  lemma BothTest(s: State, f: FlushId, g: FlushId)
    requires !s.flushing && f != g && f !in s.flushes && g !in s.flushes
    ensures Exec(s, [TestFlag(f)] + [TestFlag(g)]) == Side(s, f, g, FlushState([], Admitted))
  {
    var half := s.(flushes := s.flushes[f := FlushState([], Admitted)]);
    assert Apply(s, TestFlag(f)) == half;
    assert Apply(half, TestFlag(g)) == Side(s, f, g, FlushState([], Admitted));
    hide Apply;
    Pair(s, TestFlag(f), TestFlag(g), Side(s, f, g, FlushState([], Admitted)));
  }

  lemma BothRead(s: State, f: FlushId, g: FlushId, batch: seq<Op>)
    requires f != g && TakenFrom(batch, s.store)
    ensures Exec(Side(s, f, g, FlushState([], Admitted)), [ReadPending(f, KeysOf(batch))] + [ReadPending(g, KeysOf(batch))])
            == Side(s, f, g, FlushState(batch, Loaded))
  {
    hide Apply, KeysOf, TakenFrom;
    var tested, loaded := Side(s, f, g, FlushState([], Admitted)), Side(s, f, g, FlushState(batch, Loaded));
    OneReads(tested, f, batch);
    var half := tested.(flushes := tested.flushes[f := FlushState(batch, Loaded)]);
    OneReads(half, g, batch);
    assert half.flushes[g := FlushState(batch, Loaded)] == loaded.flushes;
    Pair(tested, ReadPending(f, KeysOf(batch)), ReadPending(g, KeysOf(batch)), loaded);
  }

  lemma BothSet(s: State, f: FlushId, g: FlushId, batch: seq<Op>)
    requires f != g && batch != []
    ensures Exec(Side(s, f, g, FlushState(batch, Loaded)), [SetFlag(f)] + [SetFlag(g)])
            == Side(s, f, g, FlushState(batch, Marking)).(flushing := true)
  {
    var loaded, running := Side(s, f, g, FlushState(batch, Loaded)), Side(s, f, g, FlushState(batch, Marking)).(flushing := true);
    var half := s.(flushing := true, flushes := s.flushes[f := FlushState(batch, Marking)][g := FlushState(batch, Loaded)]);
    assert Apply(loaded, SetFlag(f)) == half by {
      assert loaded.flushes[f := FlushState(batch, Marking)] == half.flushes;
    }
    assert Apply(half, SetFlag(g)) == running by {
      assert half.flushes[g := FlushState(batch, Marking)] == running.flushes;
    }
    hide Apply;
    Pair(loaded, SetFlag(f), SetFlag(g), running);
  }

  lemma Pair(s: State, a: Action, b: Action, t: State)
    requires Apply(Apply(s, a), b) == t
    ensures Exec(s, [a] + [b]) == t
  {
    ExecPair(s, a, b);
    assert [a] + [b] == [a, b];
  }

  /** The flag does not keep flushes apart: wherever something is pending and the flag is
      clear, two calls made in turn both run. */
  lemma OverlapArises(s: State, f: FlushId, g: FlushId, batch: seq<Op>)
    requires !s.flushing && f != g && f !in s.flushes && g !in s.flushes && TakenFrom(batch, s.store) && batch != []
    ensures Exec(s, BothEnter(f, g, batch)) == Side(s, f, g, FlushState(batch, Marking)).(flushing := true)
  {
    BothTest(s, f, g);
    BothRead(s, f, g, batch);
    BothSet(s, f, g, batch);
    hide Exec, KeysOf, Side, TakenFrom;
    var tested, loaded := Side(s, f, g, FlushState([], Admitted)), Side(s, f, g, FlushState(batch, Loaded));
    Chained(s, [TestFlag(f)] + [TestFlag(g)], tested, [ReadPending(f, KeysOf(batch))] + [ReadPending(g, KeysOf(batch))], loaded);
    Chained(s, ([TestFlag(f)] + [TestFlag(g)]) + ([ReadPending(f, KeysOf(batch))] + [ReadPending(g, KeysOf(batch))]), loaded,
            [SetFlag(f)] + [SetFlag(g)], Side(s, f, g, FlushState(batch, Marking)).(flushing := true));
  }

  /** And once two run, the flag protects neither: when `f` ends without an answer, its
      `finally` clears the flag under `g`, and a third call, `h`, runs beside `g`. */
  lemma ClearedUnderRunning(s: State, f: FlushId, g: FlushId, h: FlushId, batch: seq<Op>, error: Option<string>)
    returns (op: Op)
    requires KeysMatch(s.store) && s.writes == map[] && f != g && h !in s.flushes
    requires RunningIn(s, f) && RunningIn(s, g) && s.flushes[f].batch == batch && batch != [] && batch[0].id in s.store
    ensures var ended := Exec(s, GivingUp(f, |batch|, error));
            && RunningIn(ended, g) && f !in ended.flushes && Passes(ended, h)
            && Exec(ended, Entering(h, [op])) == Started(ended, h, [op])
  {
    RestoredRun(s, f, batch, error);
    RestoringKeeps(s.store, batch, error);
    op := Restored(s.store, batch, error)[batch[0].id];
    var ended := s.(store := Restored(s.store, batch, error), flushing := false, flushes := s.flushes - {f});
    assert Stored(op, ended.store);
    Starting(ended, h, [op]);
  }

  /** From a first queued operation: two flushes enter, both mark it, the first fails and
      clears the flag under the second, and a third enters beside the second. */
  lemma ThreeFlushes(id: OpId, content: Content) returns (two: seq<Action>, cleared: seq<Action>, three: seq<Action>)
    ensures two < cleared < three
    ensures RunningIn(Exec(Initial, two), 1) && RunningIn(Exec(Initial, two), 2)
    ensures var s := Exec(Initial, cleared); RunningIn(s, 2) && Passes(s, 3)
    ensures var s := Exec(Initial, three); RunningIn(s, 2) && RunningIn(s, 3)
  {
    var queued := Op(id, content, "", 0, Waiting, 0, None, None);
    var entered := TwoFlushes(queued);
    var marked := BothMark(entered, queued);
    var op := ClearedUnderRunning(marked, 1, 2, 3, [queued], None);
    var ended := Exec(marked, GivingUp(1, 1, None));
    hide Exec, Apply, BothEnter, Updates, GivingUp, KeysMatch;
    var marking := Updates(1, 1, None) + Updates(2, 1, None);
    two := [Enqueue(id, content, "", 0)] + BothEnter(1, 2, [queued]);
    cleared := two + (marking + GivingUp(1, 1, None));
    three := cleared + Entering(3, [op]);
    Chained(entered, marking, marked, GivingUp(1, 1, None), ended);
    Chained(Initial, two, entered, marking + GivingUp(1, 1, None), ended);
    Chained(Initial, cleared, ended, Entering(3, [op]), Started(ended, 3, [op]));
    GivingUpActs(1, 1, None);
  }

  lemma GivingUpActs(f: FlushId, n: nat, error: Option<string>)
    ensures GivingUp(f, n, error) != []
  {
  }

  lemma TwoFlushes(op: Op) returns (entered: State)
    requires op == Op(op.id, op.content, "", 0, Waiting, 0, None, None)
    ensures Exec(Initial, [Enqueue(op.id, op.content, "", 0)] + BothEnter(1, 2, [op])) == entered
    ensures entered.store == map[op.id := op] && entered.writes == map[]
    ensures entered.flushes == map[1 := FlushState([op], Marking), 2 := FlushState([op], Marking)]
  {
    var enqueue := Enqueue(op.id, op.content, "", 0);
    var s := Initial.(queued := map[op.id := op.content], store := map[op.id := op]);
    ExecOne(Initial, enqueue);
    assert Apply(Initial, enqueue) == s;
    assert Stored(op, s.store);
    hide Exec, Apply, BothEnter;
    OverlapArises(s, 1, 2, [op]);
    entered := Side(s, 1, 2, FlushState([op], Marking)).(flushing := true);
    Chained(Initial, [enqueue], s, BothEnter(1, 2, [op]), entered);
  }

  lemma BothMark(s: State, op: Op) returns (marked: State)
    requires s.store == map[op.id := op] && s.writes == map[]
    requires s.flushes == map[1 := FlushState([op], Marking), 2 := FlushState([op], Marking)]
    ensures Exec(s, Updates(1, 1, None) + Updates(2, 1, None)) == marked
    ensures marked == s.(store := marked.store) && KeysMatch(marked.store) && op.id in marked.store
  {
    assert [op][..1] == [op];
    MarkAll(s, 1, 1);
    MarkingKeeps(s.store, [op]);
    var once := s.(store := Marked(s.store, [op]));
    MarkAll(once, 2, 1);
    MarkingKeeps(once.store, [op]);
    marked := once.(store := Marked(once.store, [op]));
    hide Exec, Marked, Updates;
    Chained(s, Updates(1, 1, None), once, Updates(2, 1, None), marked);
  }
}
