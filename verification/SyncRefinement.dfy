/** An undisturbed flush is one run of the protocol: what `Device.Flush` and
    `SyncService.SubmitBatch` compute from start to finish is what the protocol's small
    steps lead to, so every guarantee about runs is one about them. */
module SyncRefinement {
  import opened Common
  import opened SyncEngine
  import opened Outbox
  import opened SyncProtocol

  lemma {:induction false} ExecAppend(s: State, first: seq<Action>, second: seq<Action>)
    ensures Exec(s, first + second) == Exec(Exec(s, first), second)
  {
    if second == [] {
      assert first + second == first;
    } else {
      assert (first + second)[..|first + second| - 1] == first + second[..|second| - 1];
      ExecAppend(s, first, second[..|second| - 1]);
    }
  }

  lemma ExecOne(s: State, a: Action)
    ensures Exec(s, [a]) == Apply(s, a)
  {
  }

  lemma ExecPair(s: State, a: Action, b: Action)
    ensures Exec(s, [a, b]) == Apply(Apply(s, a), b)
  {
    assert [a, b][..1] == [a];
    ExecOne(s, a);
  }

  lemma Chained(s: State, first: seq<Action>, mid: State, second: seq<Action>, last: State)
    requires Exec(s, first) == mid && Exec(mid, second) == last
    ensures Exec(s, first + second) == last
  {
    ExecAppend(s, first, second);
  }

  // ------------------------------------------------------------- the device

  function Update(f: FlushId, k: nat, error: Option<string>): seq<Action> {
    [ReadForUpdate(0, f, k, error), WriteBack(0)]
  }

  /** The first `n` updates of flush `f`, one after the other. */
  function Updates(f: FlushId, n: nat, error: Option<string>): seq<Action> {
    if n == 0 then [] else Updates(f, n - 1, error) + Update(f, n - 1, error)
  }

  /** Reading and writing back, with nothing in between, is `outbox.update`. */
  lemma UpdateIsAtomic(s: State, f: FlushId, k: nat, error: Option<string>)
    requires KeysMatch(s.store) && s.writes == map[] && f in s.flushes
    requires UpdateOf(s.flushes[f], k, error).Some?
    ensures var update := UpdateOf(s.flushes[f], k, error).value;
            Exec(s, Update(f, k, error)) == s.(store := Updated(s.store, update.0, update.1))
  {
    hide UpdateOf, Exec;
    var update := UpdateOf(s.flushes[f], k, error).value;
    ExecPair(s, ReadForUpdate(0, f, k, error), WriteBack(0));
    if update.0 in s.store {
      var merged := Merged(s.store[update.0], update.1);
      assert merged.id == update.0;
      assert Apply(s, ReadForUpdate(0, f, k, error)) == s.(writes := map[0 := merged]);
    }
  }

  /** After `n` updates that led to `mid`, one more. */
  lemma OneMore(s: State, mid: State, f: FlushId, n: nat, error: Option<string>, id: OpId, changes: Changes)
    requires Exec(s, Updates(f, n, error)) == mid
    requires KeysMatch(mid.store) && mid.writes == map[] && f in mid.flushes
    requires UpdateOf(mid.flushes[f], n, error) == Some((id, changes))
    ensures var store := Updated(mid.store, id, changes);
            KeysMatch(store) && Exec(s, Updates(f, n + 1, error)) == mid.(store := store)
  {
    hide UpdateOf, Exec;
    ExecAppend(s, Updates(f, n, error), Update(f, n, error));
    UpdateIsAtomic(mid, f, n, error);
  }

  lemma {:induction false} MarkAll(s: State, f: FlushId, n: nat)
    requires KeysMatch(s.store) && s.writes == map[] && f in s.flushes
    requires s.flushes[f].phase == Marking && n <= |s.flushes[f].batch|
    ensures var store := Marked(s.store, s.flushes[f].batch[..n]);
            KeysMatch(store) && Exec(s, Updates(f, n, None)) == s.(store := store)
  {
    if n > 0 {
      var batch := s.flushes[f].batch;
      MarkAll(s, f, n - 1);
      assert batch[..n][..n - 1] == batch[..n - 1];
      hide Exec, Updated, Updates, KeysMatch;
      OneMore(s, s.(store := Marked(s.store, batch[..n - 1])), f, n - 1, None, batch[n - 1].id, MarkSyncing);
    }
  }

  lemma {:induction false} SettleAll(s: State, f: FlushId, n: nat, message: string)
    requires KeysMatch(s.store) && s.writes == map[] && f in s.flushes
    requires s.flushes[f].phase.Settling? && n <= |s.flushes[f].phase.answers|
    ensures var store := Settled(s.store, s.flushes[f].batch, s.flushes[f].phase.answers[..n], message);
            KeysMatch(store) && Exec(s, Updates(f, n, Some(message))) == s.(store := store)
  {
    if n > 0 {
      var batch, answers := s.flushes[f].batch, s.flushes[f].phase.answers;
      SettleAll(s, f, n - 1, message);
      assert answers[..n][..n - 1] == answers[..n - 1];
      hide Exec, Updated, Updates, KeysMatch, AnswerChanges;
      OneMore(s, s.(store := Settled(s.store, batch, answers[..n - 1], message)), f, n - 1, Some(message),
              answers[n - 1].id, AnswerChanges(batch, answers[n - 1], message));
    }
  }

  lemma RestoredNext(store: Store, batch: seq<Op>, n: nat, error: Option<string>)
    requires 0 < n <= |batch|
    ensures Restored(store, batch[..n], error) ==
            Updated(Restored(store, batch[..n - 1], error), batch[n - 1].id, MarkWaiting(batch[n - 1].attempts + 1, error))
  {
    assert batch[..n][..n - 1] == batch[..n - 1];
  }

  lemma {:induction false} RestoreAll(s: State, f: FlushId, n: nat, error: Option<string>)
    requires KeysMatch(s.store) && s.writes == map[] && f in s.flushes
    requires s.flushes[f].phase == Recovering && n <= |s.flushes[f].batch|
    ensures var store := Restored(s.store, s.flushes[f].batch[..n], error);
            KeysMatch(store) && Exec(s, Updates(f, n, error)) == s.(store := store)
  {
    if n > 0 {
      var batch := s.flushes[f].batch;
      RestoreAll(s, f, n - 1, error);
      RestoredNext(s.store, batch, n, error);
      var changes := MarkWaiting(batch[n - 1].attempts + 1, error);
      assert UpdateOf(s.flushes[f], n - 1, error) == Some((batch[n - 1].id, changes));
      hide Exec, Updated, Updates, KeysMatch, Restored, UpdateOf;
      OneMore(s, s.(store := Restored(s.store, batch[..n - 1], error)), f, n - 1, error, batch[n - 1].id, changes);
    }
  }

  // ------------------------------------------------------------- the server

  /** The server's steps for one operation of request `r`. */
  function Serving(r: nat, submission: Submission): seq<Action> {
    if submission.admitted then [ServerTake(r), ServerFinish(r, submission.verdict)] else [ServerTurnAway(r)]
  }

  function ServingAll(r: nat, batch: seq<Submission>): seq<Action> {
    if batch == [] then [] else ServingAll(r, batch[..|batch| - 1]) + Serving(r, batch[|batch| - 1])
  }

  /** One operation, met by a request that has no claim open, is `apply_operation`. */
  lemma ServingOne(s: State, r: nat, submission: Submission)
    requires r < |s.requests| && !s.requests[r].claimed && |s.requests[r].answers| < |s.requests[r].batch|
    requires NextOp(s.requests[r]) == submission.op
    ensures var (server, answer) := ApplyOperation(s.server, submission.op, submission.admitted, submission.verdict);
            var q := s.requests[r];
            Exec(s, Serving(r, submission)) == s.(requests := s.requests[r := q.(answers := q.answers + [answer])], server := server)
  {
    var q, op := s.requests[r], submission.op;
    hide Exec, Apply, Resolve, Claim, Replay;
    if !submission.admitted {
      ExecOne(s, ServerTurnAway(r));
      TurnedAway(s, r);
    } else {
      ExecPair(s, ServerTake(r), ServerFinish(r, submission.verdict));
      if op.id in s.server.ledger {
        ReplayThenFinish(s, r, submission);
      } else {
        var claimed := s.(requests := s.requests[r := q.(claimed := true)], server := Claim(s.server, op));
        Claiming(s, r);
        ClaimThenFinish(s, claimed, r, submission);
      }
    }
  }

  lemma TurnedAway(s: State, r: nat)
    requires r < |s.requests| && !s.requests[r].claimed && |s.requests[r].answers| < |s.requests[r].batch|
    ensures var q := s.requests[r];
            Apply(s, ServerTurnAway(r))
            == s.(requests := s.requests[r := q.(answers := q.answers + [Answer(NextOp(q).id, AnsweredRejected, None)])])
  {
  }

  lemma Claiming(s: State, r: nat)
    requires r < |s.requests| && !s.requests[r].claimed && |s.requests[r].answers| < |s.requests[r].batch|
    requires NextOp(s.requests[r]).id !in s.server.ledger
    ensures Apply(s, ServerTake(r))
            == s.(requests := s.requests[r := s.requests[r].(claimed := true)], server := Claim(s.server, NextOp(s.requests[r])))
  {
  }

  lemma ReplayThenFinish(s: State, r: nat, submission: Submission)
    requires r < |s.requests| && !s.requests[r].claimed && |s.requests[r].answers| < |s.requests[r].batch|
    requires NextOp(s.requests[r]) == submission.op && submission.op.id in s.server.ledger
    ensures var q := s.requests[r];
            Apply(Apply(s, ServerTake(r)), ServerFinish(r, submission.verdict))
            == s.(requests := s.requests[r := q.(answers := q.answers + [Replay(s.server, submission.op)])])
  {
  }

  lemma ClaimThenFinish(s: State, claimed: State, r: nat, submission: Submission)
    requires r < |s.requests| && !s.requests[r].claimed && |s.requests[r].answers| < |s.requests[r].batch|
    requires NextOp(s.requests[r]) == submission.op
    requires claimed == s.(requests := s.requests[r := s.requests[r].(claimed := true)], server := Claim(s.server, submission.op))
    ensures var (server, answer) := Resolve(Claim(s.server, submission.op), submission.op, submission.verdict);
            var q := s.requests[r];
            Apply(claimed, ServerFinish(r, submission.verdict))
            == s.(requests := s.requests[r := q.(answers := q.answers + [answer])], server := server)
  {
  }

  /** Request `r` as it is when `server` has answered `answers`. */
  function Answered(s: State, r: nat, server: Server, answers: seq<Answer>): State
    requires r < |s.requests|
  {
    s.(requests := s.requests[r := s.requests[r].(answers := answers)], server := server)
  }

  lemma ServingNext(s: State, r: nat, server: Server, answers: seq<Answer>, submission: Submission)
    requires r < |s.requests| && !s.requests[r].claimed && |answers| < |s.requests[r].batch|
    requires s.requests[r].batch[|answers|] == submission.op
    ensures var (after, answer) := ApplyOperation(server, submission.op, submission.admitted, submission.verdict);
            Exec(Answered(s, r, server, answers), Serving(r, submission)) == Answered(s, r, after, answers + [answer])
  {
    hide Exec, ApplyOperation, Serving;
    ServingOne(Answered(s, r, server, answers), r, submission);
  }

  lemma {:induction false} ServingBatch(s: State, r: nat, batch: seq<Submission>)
    requires r < |s.requests| && s.requests[r].answers == [] && !s.requests[r].claimed
    requires |batch| <= |s.requests[r].batch| && forall i :: 0 <= i < |batch| ==> s.requests[r].batch[i] == batch[i].op
    ensures var (server, answers) := ApplyBatch(s.server, batch);
            |answers| == |batch| && Exec(s, ServingAll(r, batch)) == Answered(s, r, server, answers)
  {
    if batch == [] {
      assert s.requests[r := s.requests[r].(answers := [])] == s.requests;
    } else {
      var rest, last := batch[..|batch| - 1], batch[|batch| - 1];
      ServingBatch(s, r, rest);
      var (server, answers) := ApplyBatch(s.server, rest);
      ServingNext(s, r, server, answers, last);
      hide Exec, ApplyOperation, Serving, Answered;
      var (after, answer) := ApplyOperation(server, last.op, last.admitted, last.verdict);
      Chained(s, ServingAll(r, rest), Answered(s, r, server, answers), Serving(r, last),
              Answered(s, r, after, answers + [answer]));
    }
  }

  // --------------------------------------------------------- one whole flush

  function KeysOf(batch: seq<Op>): seq<OpId> {
    if batch == [] then [] else KeysOf(batch[..|batch| - 1]) + [batch[|batch| - 1].id]
  }

  /** What `flush` takes up: pending operations as they are stored, one batch of them. */
  ghost predicate TakenFrom(batch: seq<Op>, store: Store) {
    |batch| <= MAX_BATCH && forall i :: 0 <= i < |batch| ==> Stored(batch[i], store)
  }

  predicate Stored(op: Op, store: Store) {
    op.id in store && store[op.id] == op && IsPending(op)
  }

  lemma {:induction false} KeysRead(batch: seq<Op>, store: Store)
    requires forall i :: 0 <= i < |batch| ==> Stored(batch[i], store)
    ensures |KeysOf(batch)| == |batch| && AllPending(store, KeysOf(batch))
    ensures OpsAt(store, KeysOf(batch)) == batch
  {
    if batch != [] {
      var rest, last := batch[..|batch| - 1], batch[|batch| - 1];
      KeysRead(rest, store);
      assert Stored(last, store);
      assert KeysOf(batch)[..|KeysOf(batch)| - 1] == KeysOf(rest);
    }
  }

  lemma {:induction false} InputsAt(batch: seq<Op>)
    ensures |Inputs(batch)| == |batch|
    ensures forall i :: 0 <= i < |batch| ==> Inputs(batch)[i] == Input(batch[i].id, batch[i].content)
  {
    if batch != [] {
      InputsAt(batch[..|batch| - 1]);
    }
  }

  /** The way in: the flag is tested, the pending operations are read, the flag is set. */
  function Entering(f: FlushId, batch: seq<Op>): seq<Action> {
    [TestFlag(f)] + [ReadPending(f, KeysOf(batch))] + [SetFlag(f)]
  }

  /** The first half: the batch is read, marked, and sent. */
  function Sending(f: FlushId, batch: seq<Op>): seq<Action> {
    Entering(f, batch) + (Updates(f, |batch|, None) + [Send(f)])
  }

  function Started(s: State, f: FlushId, batch: seq<Op>): State {
    s.(flushing := true, flushes := s.flushes[f := FlushState(batch, Marking)])
  }

  function Sent(s: State, f: FlushId, batch: seq<Op>): State {
    s.(store := Marked(s.store, batch), flushing := true, flushes := s.flushes[f := FlushState(batch, Awaiting(|s.requests|))],
       requests := s.requests + [Request(Inputs(batch), [], false)])
  }

  lemma OneReads(s: State, f: FlushId, batch: seq<Op>)
    requires f in s.flushes && s.flushes[f] == FlushState([], Admitted) && TakenFrom(batch, s.store)
    ensures Apply(s, ReadPending(f, KeysOf(batch))) == s.(flushes := s.flushes[f := FlushState(batch, Loaded)])
  {
    KeysRead(batch, s.store);
    hide OpsAt, AllPending, KeysOf;
  }

  lemma ReadingRun(s: State, f: FlushId, batch: seq<Op>)
    requires !s.flushing && f !in s.flushes && TakenFrom(batch, s.store)
    ensures Exec(s, [TestFlag(f)] + [ReadPending(f, KeysOf(batch))])
            == s.(flushes := s.flushes[f := FlushState(batch, Loaded)])
  {
    var admitted := s.(flushes := s.flushes[f := FlushState([], Admitted)]);
    assert Apply(s, TestFlag(f)) == admitted;
    hide Exec, Apply, KeysOf, TakenFrom;
    ExecOne(s, TestFlag(f));
    ExecOne(admitted, ReadPending(f, KeysOf(batch)));
    OneReads(admitted, f, batch);
    var loaded := s.(flushes := s.flushes[f := FlushState(batch, Loaded)]);
    assert admitted.flushes[f := FlushState(batch, Loaded)] == loaded.flushes;
    Chained(s, [TestFlag(f)], admitted, [ReadPending(f, KeysOf(batch))], loaded);
  }

  lemma Starting(s: State, f: FlushId, batch: seq<Op>)
    requires !s.flushing && f !in s.flushes && TakenFrom(batch, s.store) && batch != []
    ensures Exec(s, Entering(f, batch)) == Started(s, f, batch)
  {
    ReadingRun(s, f, batch);
    var loaded := s.(flushes := s.flushes[f := FlushState(batch, Loaded)]);
    ExecOne(loaded, SetFlag(f));
    assert Apply(loaded, SetFlag(f)) == Started(s, f, batch);
    hide Exec, Apply, KeysOf, TakenFrom, Started;
    Chained(s, [TestFlag(f)] + [ReadPending(f, KeysOf(batch))], loaded, [SetFlag(f)], Started(s, f, batch));
  }

  lemma MarkedAndSent(s: State, f: FlushId, batch: seq<Op>)
    requires KeysMatch(s.store) && s.writes == map[]
    ensures Exec(Started(s, f, batch), Updates(f, |batch|, None) + [Send(f)]) == Sent(s, f, batch)
    ensures KeysMatch(Sent(s, f, batch).store)
  {
    var started := Started(s, f, batch);
    assert batch[..|batch|] == batch;
    MarkAll(started, f, |batch|);
    var marked := started.(store := Marked(s.store, batch));
    ExecOne(marked, Send(f));
    hide Exec, KeysMatch, Marked, Updates, Inputs;
    assert Apply(marked, Send(f)) == Sent(s, f, batch);
    Chained(started, Updates(f, |batch|, None), marked, [Send(f)], Sent(s, f, batch));
  }

  lemma SendingRun(s: State, f: FlushId, batch: seq<Op>)
    requires KeysMatch(s.store) && s.writes == map[] && !s.flushing && f !in s.flushes && TakenFrom(batch, s.store) && batch != []
    ensures Exec(s, Sending(f, batch)) == Sent(s, f, batch) && KeysMatch(Sent(s, f, batch).store)
  {
    Starting(s, f, batch);
    MarkedAndSent(s, f, batch);
    hide Exec, KeysMatch, Updates, Entering, Sent, Started;
    Chained(s, Entering(f, batch), Started(s, f, batch), Updates(f, |batch|, None) + [Send(f)], Sent(s, f, batch));
  }

  /** The second half: the answers come back and are recorded... */
  function Recording(f: FlushId, n: nat, message: string): seq<Action> {
    [Deliver(f)] + Updates(f, n, Some(message)) + [EndFlush(f)]
  }

  /** ...or none does, and the batch goes back to pending. */
  function GivingUp(f: FlushId, n: nat, error: Option<string>): seq<Action> {
    [FailFlush(f)] + Updates(f, n, error) + [EndFlush(f)]
  }

  /** `submissions` say, for each operation sent, whether the server admits it and how its
      handler would end. */
  ghost predicate Submits(submissions: seq<Submission>, batch: seq<Op>) {
    |submissions| == |batch|
    && forall i :: 0 <= i < |batch| ==> submissions[i].op == Input(batch[i].id, batch[i].content)
  }

  lemma {:induction false} ServedRun(s: State, f: FlushId, batch: seq<Op>, submissions: seq<Submission>)
    requires Submits(submissions, batch)
    ensures var (server, answers) := ApplyBatch(s.server, submissions);
            && |answers| == |batch|
            && Exec(Sent(s, f, batch), ServingAll(|s.requests|, submissions))
               == Sent(s, f, batch).(requests := s.requests + [Request(Inputs(batch), answers, false)], server := server)
  {
    InputsAt(batch);
    hide Exec, ApplyBatch, ServingAll, Inputs, Marked;
    var sent := Sent(s, f, batch);
    ServingBatch(sent, |s.requests|, submissions);
    var (server, answers) := ApplyBatch(s.server, submissions);
    assert sent.requests[|s.requests| := Request(Inputs(batch), answers, false)]
        == s.requests + [Request(Inputs(batch), answers, false)];
  }

  /** The answers come back and are recorded. */
  lemma SettledRun(s: State, f: FlushId, batch: seq<Op>, answers: seq<Answer>, message: string)
    requires KeysMatch(s.store) && s.writes == map[] && f in s.flushes && s.requests != [] && |answers| == |batch|
    requires s.flushes[f] == FlushState(batch, Awaiting(|s.requests| - 1))
    requires s.requests[|s.requests| - 1].answers == answers && |s.requests[|s.requests| - 1].batch| == |batch|
    ensures Exec(s, Recording(f, |batch|, message))
            == s.(store := Settled(s.store, batch, answers, message), flushing := false, flushes := s.flushes - {f})
  {
    var delivered := s.(flushes := s.flushes[f := FlushState(batch, Settling(answers))]);
    ExecOne(s, Deliver(f));
    assert Apply(s, Deliver(f)) == delivered;
    assert answers[..|batch|] == answers;
    SettleAll(delivered, f, |batch|, message);
    var settled := delivered.(store := Settled(s.store, batch, answers, message));
    ExecOne(settled, EndFlush(f));
    var ended := s.(store := Settled(s.store, batch, answers, message), flushing := false, flushes := s.flushes - {f});
    assert Apply(settled, EndFlush(f)) == ended;
    hide Exec, Apply, KeysMatch, Settled, Updates;
    Chained(s, [Deliver(f)], delivered, Updates(f, |batch|, Some(message)), settled);
    Chained(s, [Deliver(f)] + Updates(f, |batch|, Some(message)), settled, [EndFlush(f)], ended);
  }

  /** From the request's arrival to the last answer recorded. */
  lemma FinishedRun(s: State, f: FlushId, batch: seq<Op>, submissions: seq<Submission>, message: string)
    requires !s.flushing && f !in s.flushes && s.writes == map[] && KeysMatch(Marked(s.store, batch)) && Submits(submissions, batch)
    ensures var (server, answers) := ApplyBatch(s.server, submissions);
            Exec(Sent(s, f, batch), ServingAll(|s.requests|, submissions) + Recording(f, |batch|, message))
            == s.(store := Settled(Marked(s.store, batch), batch, answers, message),
                  requests := s.requests + [Request(Inputs(batch), answers, false)], server := server)
  {
    ServedRun(s, f, batch, submissions);
    InputsAt(batch);
    hide Exec, ApplyBatch, ServingAll, Inputs, Marked, Settled, Recording, Submits, KeysMatch;
    var (server, answers) := ApplyBatch(s.server, submissions);
    var served := Sent(s, f, batch).(requests := s.requests + [Request(Inputs(batch), answers, false)], server := server);
    SettledRun(served, f, batch, answers, message);
    assert served.flushes - {f} == s.flushes;
    Chained(Sent(s, f, batch), ServingAll(|s.requests|, submissions), served, Recording(f, |batch|, message),
            served.(store := Settled(served.store, batch, answers, message), flushing := false, flushes := s.flushes));
  }

  /** An answered flush, from reading the store to recording the last answer. */
  lemma AnsweredFlush(s: State, f: FlushId, batch: seq<Op>, submissions: seq<Submission>, message: string)
    requires KeysMatch(s.store) && s.writes == map[] && !s.flushing && f !in s.flushes && TakenFrom(batch, s.store) && batch != []
    requires Submits(submissions, batch)
    ensures var (server, answers) := ApplyBatch(s.server, submissions);
            Exec(s, Sending(f, batch) + (ServingAll(|s.requests|, submissions) + Recording(f, |batch|, message)))
            == s.(store := Settled(Marked(s.store, batch), batch, answers, message),
                  requests := s.requests + [Request(Inputs(batch), answers, false)], server := server)
  {
    SendingRun(s, f, batch);
    assert KeysMatch(Marked(s.store, batch));
    hide *;
    FinishedRun(s, f, batch, submissions, message);
    Chained(s, Sending(f, batch), Sent(s, f, batch), ServingAll(|s.requests|, submissions) + Recording(f, |batch|, message),
            Exec(Sent(s, f, batch), ServingAll(|s.requests|, submissions) + Recording(f, |batch|, message)));
  }

  /** A flush that gets no answer: its request may still arrive, later or never. */
  lemma UnansweredFlush(s: State, f: FlushId, batch: seq<Op>, error: Option<string>)
    requires KeysMatch(s.store) && s.writes == map[] && !s.flushing && f !in s.flushes && TakenFrom(batch, s.store) && batch != []
    ensures Exec(s, Sending(f, batch) + GivingUp(f, |batch|, error))
            == s.(store := Restored(Marked(s.store, batch), batch, error),
                  requests := s.requests + [Request(Inputs(batch), [], false)])
  {
    SendingRun(s, f, batch);
    hide Exec, Inputs, Marked, Sending, Restored, GivingUp, KeysMatch, TakenFrom;
    assert Sent(s, f, batch).flushes - {f} == s.flushes;
    RestoredRun(Sent(s, f, batch), f, batch, error);
    Chained(s, Sending(f, batch), Sent(s, f, batch), GivingUp(f, |batch|, error), Exec(Sent(s, f, batch), GivingUp(f, |batch|, error)));
  }

  lemma RestoredRun(s: State, f: FlushId, batch: seq<Op>, error: Option<string>)
    requires KeysMatch(s.store) && s.writes == map[] && f in s.flushes && s.flushes[f].batch == batch && Running(s.flushes[f])
    ensures Exec(s, GivingUp(f, |batch|, error))
            == s.(store := Restored(s.store, batch, error), flushing := false, flushes := s.flushes - {f})
  {
    var failed := s.(flushes := s.flushes[f := FlushState(batch, Recovering)]);
    ExecOne(s, FailFlush(f));
    assert Apply(s, FailFlush(f)) == failed;
    assert batch[..|batch|] == batch;
    RestoreAll(failed, f, |batch|, error);
    var restored := failed.(store := Restored(s.store, batch, error));
    ExecOne(restored, EndFlush(f));
    var ended := s.(store := Restored(s.store, batch, error), flushing := false, flushes := s.flushes - {f});
    assert Apply(restored, EndFlush(f)) == ended;
    hide Exec, Apply, KeysMatch, Restored, Updates;
    Chained(s, [FailFlush(f)], failed, Updates(f, |batch|, error), restored);
    Chained(s, [FailFlush(f)] + Updates(f, |batch|, error), restored, [EndFlush(f)], ended);
  }

  /** The batch `flush` takes from the store is one the protocol can start with. */
  lemma BatchTaken(ops: seq<Op>, store: Store)
    requires ListsStore(ops, store)
    ensures TakenFrom(Batch(ops), store)
  {
    forall i | 0 <= i < |Batch(ops)|
      ensures Stored(Batch(ops)[i], store)
    {
      PendingMember(ops, Batch(ops)[i]);
    }
  }

  lemma Leaving(s: State, f: FlushId)
    requires f !in s.flushes
    ensures Exec(s.(flushes := s.flushes[f := FlushState([], Loaded)]), [Leave(f)]) == s
  {
    var loaded := s.(flushes := s.flushes[f := FlushState([], Loaded)]);
    ExecOne(loaded, Leave(f));
    assert loaded.flushes - {f} == s.flushes;
  }

  /** A flush that finds nothing pending leaves everything as it was. */
  lemma EmptyFlush(s: State, f: FlushId)
    requires !s.flushing && f !in s.flushes
    ensures Exec(s, [TestFlag(f)] + [ReadPending(f, [])] + [Leave(f)]) == s
  {
    assert KeysOf([]) == [];
    hide Exec, KeysOf;
    ReadingRun(s, f, []);
    Leaving(s, f);
    Chained(s, [TestFlag(f)] + [ReadPending(f, [])], s.(flushes := s.flushes[f := FlushState([], Loaded)]), [Leave(f)], s);
  }

  /** What `Device.Flush` and `SyncService.SubmitBatch` leave behind is what a run of the
      protocol leaves behind: with an answer... */
  lemma FlushIsRun(s: State, f: FlushId, ops: seq<Op>, submissions: seq<Submission>, message: string) returns (actions: seq<Action>)
    requires KeysMatch(s.store) && s.writes == map[] && !s.flushing && f !in s.flushes
    requires ListsStore(ops, s.store) && Submits(submissions, Batch(ops))
    ensures var (server, answers) := ApplyBatch(s.server, submissions);
            var after := Exec(s, actions);
            && after.store == Settled(Marked(s.store, Batch(ops)), Batch(ops), answers, message)
            && after.server == server && !after.flushing && after.flushes == s.flushes && after.writes == map[]
  {
    BatchTaken(ops, s.store);
    if Batch(ops) == [] {
      EmptyFlush(s, f);
      actions := [TestFlag(f)] + [ReadPending(f, [])] + [Leave(f)];
    } else {
      AnsweredFlush(s, f, Batch(ops), submissions, message);
      actions := Sending(f, Batch(ops)) + (ServingAll(|s.requests|, submissions) + Recording(f, |Batch(ops)|, message));
    }
  }

  /** ...and without one. */
  lemma FailedFlushIsRun(s: State, f: FlushId, ops: seq<Op>, error: Option<string>) returns (actions: seq<Action>)
    requires KeysMatch(s.store) && s.writes == map[] && !s.flushing && f !in s.flushes && ListsStore(ops, s.store)
    ensures var after := Exec(s, actions);
            && after.store == Restored(Marked(s.store, Batch(ops)), Batch(ops), error)
            && after.server == s.server && !after.flushing && after.flushes == s.flushes && after.writes == map[]
  {
    BatchTaken(ops, s.store);
    if Batch(ops) == [] {
      EmptyFlush(s, f);
      actions := [TestFlag(f)] + [ReadPending(f, [])] + [Leave(f)];
    } else {
      UnansweredFlush(s, f, Batch(ops), error);
      actions := Sending(f, Batch(ops)) + GivingUp(f, |Batch(ops)|, error);
    }
  }

  lemma {:induction false} AnswersInOrder(s: Server, submissions: seq<Submission>)
    ensures |ApplyBatch(s, submissions).1| == |submissions|
    ensures forall i :: 0 <= i < |submissions| ==> ApplyBatch(s, submissions).1[i].id == submissions[i].op.id
  {
    if submissions != [] {
      AnswersInOrder(s, submissions[..|submissions| - 1]);
    }
  }

  /** What recording one answer for each operation of a batch does. */
  ghost predicate SettlesAll(store: Store, batch: seq<Op>, answers: seq<Answer>, message: string, after: Store) {
    && after.Keys == store.Keys && |answers| == |batch|
    && (forall i :: 0 <= i < |batch| ==>
          batch[i].id in after && RecordedAs(batch[i], after[batch[i].id], answers[i], batch[i].attempts, message))
    && (forall id :: id in store && !InBatch(batch, id) ==> after[id] == store[id])
    && (forall id :: id in store && after[id].status == Syncing ==> after[id] == store[id])
  }

  lemma SettledOne(store: Store, batch: seq<Op>, answers: seq<Answer>, message: string, i: nat)
    requires DistinctOps(batch) && |answers| == |batch| && DistinctAnswers(answers) && i < |batch|
    requires answers[i].id == batch[i].id && Stored(batch[i], store)
    ensures var after := Settled(Marked(store, batch), batch, answers, message);
            batch[i].id in after && RecordedAs(batch[i], after[batch[i].id], answers[i], batch[i].attempts, message)
  {
    MarkingKeeps(store, batch);
    SettlingKeeps(Marked(store, batch), batch, answers, message);
    AttemptsInBatch(batch, i);
    assert InBatch(batch, batch[i].id);
    hide Marked, Settled, AttemptsOf;
    assert Marked(store, batch)[batch[i].id] == batch[i].(status := Syncing);
    assert RecordedAs(batch[i].(status := Syncing), Settled(Marked(store, batch), batch, answers, message)[batch[i].id], answers[i],
                      batch[i].attempts, message);
  }

  lemma OthersUntouched(store: Store, batch: seq<Op>, answers: seq<Answer>, message: string)
    requires |answers| == |batch| && forall i :: 0 <= i < |batch| ==> answers[i].id == batch[i].id
    ensures var after := Settled(Marked(store, batch), batch, answers, message);
            after.Keys == store.Keys && forall id :: id in store && !InBatch(batch, id) ==> after[id] == store[id]
  {
    MarkingKeeps(store, batch);
    SettlingKeeps(Marked(store, batch), batch, answers, message);
    hide Marked, Settled, AttemptsOf;
    forall id | HasAnswer(answers, id)
      ensures InBatch(batch, id)
    {
      var i :| 0 <= i < |answers| && answers[i].id == id;
      assert batch[i].id == id;
    }
  }

  lemma BatchSettles(store: Store, batch: seq<Op>, answers: seq<Answer>, message: string)
    requires DistinctOps(batch) && |answers| == |batch|
    requires forall i :: 0 <= i < |batch| ==> answers[i].id == batch[i].id && Stored(batch[i], store)
    ensures SettlesAll(store, batch, answers, message, Settled(Marked(store, batch), batch, answers, message))
  {
    var after := Settled(Marked(store, batch), batch, answers, message);
    OthersUntouched(store, batch, answers, message);
    forall i | 0 <= i < |batch|
      ensures batch[i].id in after && RecordedAs(batch[i], after[batch[i].id], answers[i], batch[i].attempts, message)
    {
      SettledOne(store, batch, answers, message, i);
    }
    hide Marked, Settled, AttemptsOf, Stored;
  }

  /** After an undisturbed answered flush every operation it sent is synced or failed, as
      its own answer says, with that answer's result or the error and one more attempt; and
      every other one is as it was: nothing is left syncing that was not syncing before. */
  lemma FlushSettlesAll(store: Store, ops: seq<Op>, server: Server, submissions: seq<Submission>, message: string)
    requires KeysMatch(store) && ListsStore(ops, store) && Submits(submissions, Batch(ops))
    ensures var batch, answers := Batch(ops), ApplyBatch(server, submissions).1;
            SettlesAll(store, batch, answers, message, Settled(Marked(store, batch), batch, answers, message))
  {
    var batch, answers := Batch(ops), ApplyBatch(server, submissions).1;
    BatchTaken(ops, store);
    BatchDistinct(ops, store);
    AnswersInOrder(server, submissions);
    hide Marked, Settled, Batch, ApplyBatch, ListsStore, SettlesAll;
    BatchSettles(store, batch, answers, message);
  }

  // --------------------------------------------------- the other operations

  /** Queueing and removing are steps, with the effect of `Device.Enqueue` and
      `Device.Remove`; what is queued is remembered. */
  lemma QueueingIsStep(s: State, op: Op)
    requires op.id !in s.queued && op == Op(op.id, op.content, op.caption, op.createdAt, Waiting, 0, None, None)
    ensures Apply(s, Enqueue(op.id, op.content, op.caption, op.createdAt))
            == s.(store := s.store[op.id := op], queued := s.queued[op.id := op.content])
    ensures forall id :: Apply(s, Remove(id)) == s.(store := s.store - {id})
  {
  }

  function ClearEach(ids: seq<OpId>): seq<Action> {
    if ids == [] then [] else ClearEach(ids[..|ids| - 1]) + [ClearOne(ids[|ids| - 1])]
  }

  function Without(s: State, gone: set<OpId>): State {
    s.(store := s.store - gone, clearing := s.clearing - gone)
  }

  lemma ClearOneMore(s: State, gone: set<OpId>, id: OpId)
    requires id in s.clearing && id !in gone
    ensures Apply(Without(s, gone), ClearOne(id)) == Without(s, gone + {id})
  {
    assert s.store - gone - {id} == s.store - (gone + {id}) && s.clearing - gone - {id} == s.clearing - (gone + {id});
  }

  function IdSet(ids: seq<OpId>): set<OpId> { set id | id in ids }

  lemma {:induction false} ClearEachRun(s: State, ids: seq<OpId>)
    requires forall i :: 0 <= i < |ids| ==> ids[i] in s.clearing
    requires forall i, j :: 0 <= i < j < |ids| ==> ids[i] != ids[j]
    ensures Exec(s, ClearEach(ids)) == Without(s, IdSet(ids))
  {
    if ids == [] {
      assert IdSet(ids) == {} && s.store - {} == s.store && s.clearing - {} == s.clearing;
    } else {
      var rest, last := ids[..|ids| - 1], ids[|ids| - 1];
      ClearEachRun(s, rest);
      assert IdSet(ids) == IdSet(rest) + {last} && last !in IdSet(rest);
      hide Exec, Apply, Without, IdSet;
      ClearOneMore(s, IdSet(rest), last);
      ExecOne(Without(s, IdSet(rest)), ClearOne(last));
      ExecAppend(s, ClearEach(rest), [ClearOne(last)]);
    }
  }

  /** Undisturbed, `clearSynced` is a run as well, with the effect of `Device.ClearSynced`:
      exactly the synced operations go. */
  lemma ClearIsRun(s: State, ids: seq<OpId>)
    requires s.clearing == {} && forall i, j :: 0 <= i < j < |ids| ==> ids[i] != ids[j]
    requires forall id :: id in ids <==> id in s.store && s.store[id].status == Synced
    ensures var after := Exec(s, [BeginClear] + ClearEach(ids));
            && after == s.(store := after.store)
            && (forall id :: id in after.store <==> id in s.store && s.store[id].status != Synced)
            && (forall id :: id in after.store ==> after.store[id] == s.store[id])
  {
    BeginsClearing(s, ids);
    var begun := s.(clearing := IdSet(ids));
    ExecOne(s, BeginClear);
    hide Exec, Apply;
    ClearEachRun(begun, ids);
    ExecAppend(s, [BeginClear], ClearEach(ids));
    assert IdSet(ids) - IdSet(ids) == {};
  }

  lemma BeginsClearing(s: State, ids: seq<OpId>)
    requires s.clearing == {} && forall id :: id in ids <==> id in s.store && s.store[id].status == Synced
    ensures Apply(s, BeginClear) == s.(clearing := IdSet(ids))
  {
    var t := Apply(s, BeginClear);
    forall id
      ensures id in t.clearing <==> id in IdSet(ids)
    {
    }
    assert t.clearing == IdSet(ids);
  }
}
