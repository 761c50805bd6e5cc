/** The offline protocol over every run: overlapping flushes, lost requests, lost
    responses, page reloads, and a server that claims, applies and answers. Each access
    to the device's store is a step of its own, as each is a separate await. */
module SyncProtocol {
  import opened Common
  import opened SyncEngine
  import opened Outbox

  type FlushId = int
  type WriteId = int

  /** How far a flush is: past the guard, with the pending operations read, and then on. */
  datatype Phase =
    | Admitted | Loaded | Marking | Awaiting(request: nat) | Settling(answers: seq<Answer>) | Recovering

  /** A flush in progress: the operations it read, and how far it is. */
  datatype FlushState = FlushState(batch: seq<Op>, phase: Phase)

  /** The flush has set the flag and will clear it when it ends. */
  predicate Running(fl: FlushState) { fl.phase != Admitted && fl.phase != Loaded }

  /** A request on its way or on the server: its operations, the answers so far, and
      whether the next operation's ledger row has been claimed by it. A request that is
      lost, or whose server process dies, simply takes no further step. */
  datatype Request = Request(batch: seq<Input>, answers: seq<Answer>, claimed: bool)

  /** `queued` remembers what every operation was queued with; `flushing` is the module's
      flag, which a flush tests when it is called and sets only after reading what is
      pending; `writes` are updates that
      have read the store and not yet written it; `clearing` are the operations a running
      `clearSynced` has read as synced. */
  datatype State = State(
    queued: map<OpId, Content>,
    store: Store,
    flushing: bool,
    flushes: map<FlushId, FlushState>,
    writes: map<WriteId, Op>,
    clearing: set<OpId>,
    requests: seq<Request>,
    server: Server)

  const Initial := State(map[], map[], false, map[], map[], {}, [], EmptyServer)

  datatype Action =
    | Enqueue(id: OpId, content: Content, caption: string, now: int)
    | Remove(id: OpId)
    | BeginClear
    | ClearOne(id: OpId)
    | Reload
    | TestFlag(f: FlushId)
    | ReadPending(f: FlushId, ids: seq<OpId>)
    | SetFlag(f: FlushId)
    | Leave(f: FlushId)
    | ReadForUpdate(w: WriteId, f: FlushId, k: nat, error: Option<string>)
    | WriteBack(w: WriteId)
    | Send(f: FlushId)
    | Deliver(f: FlushId)
    | FailFlush(f: FlushId)
    | EndFlush(f: FlushId)
    | ServerTurnAway(r: nat)
    | ServerTake(r: nat)
    | ServerFinish(r: nat, verdict: Verdict)

  function OpsAt(store: Store, ids: seq<OpId>): seq<Op>
    requires forall i :: 0 <= i < |ids| ==> ids[i] in store
  {
    if ids == [] then [] else OpsAt(store, ids[..|ids| - 1]) + [store[ids[|ids| - 1]]]
  }

  function Inputs(batch: seq<Op>): seq<Input> {
    if batch == [] then []
    else Inputs(batch[..|batch| - 1]) + [Input(batch[|batch| - 1].id, batch[|batch| - 1].content)]
  }

  /** The update a flush makes next: the `k`th of its batch, or of its answers. `error` is
      the message it stores with a refusal or a failed send. */
  function UpdateOf(fl: FlushState, k: nat, error: Option<string>): Option<(OpId, Changes)> {
    match fl.phase
    case Marking => if k < |fl.batch| then Some((fl.batch[k].id, MarkSyncing)) else None
    case Settling(answers) =>
      if k < |answers| then Some((answers[k].id, AnswerChanges(fl.batch, answers[k], error.GetOr("")))) else None
    case Recovering =>
      if k < |fl.batch| then Some((fl.batch[k].id, MarkWaiting(fl.batch[k].attempts + 1, error))) else None
    case _ => None
  }

  predicate AllPending(store: Store, ids: seq<OpId>) {
    forall i :: 0 <= i < |ids| ==> ids[i] in store && IsPending(store[ids[i]])
  }

  function OnDevice(s: State, a: Action): State {
    match a
    case Enqueue(id, content, caption, now) =>
      if id in s.queued then s
      else s.(queued := s.queued[id := content], store := s.store[id := Op(id, content, caption, now, Waiting, 0, None, None)])
    case Remove(id) => s.(store := s.store - {id})
    case BeginClear => s.(clearing := s.clearing + set id | id in s.store && s.store[id].status == Synced)
    case ClearOne(id) => if id in s.clearing then s.(store := s.store - {id}, clearing := s.clearing - {id}) else s
    case Reload => s.(flushing := false, flushes := map[], writes := map[], clearing := {})
    case ReadForUpdate(w, f, k, error) =>
      if w in s.writes || f !in s.flushes then s
      else
        var update := UpdateOf(s.flushes[f], k, error);
        if update.None? || update.value.0 !in s.store then s
        else s.(writes := s.writes[w := Merged(s.store[update.value.0], update.value.1)])
    case WriteBack(w) =>
      if w in s.writes then s.(store := s.store[s.writes[w].id := s.writes[w]], writes := s.writes - {w}) else s
    case _ => s
  }

  /** The way into a flush: the test, the read behind an `await`, and the flag. A flush
      that finds nothing pending leaves without touching the flag. */
  function Guard(s: State, a: Action): State {
    match a
    case TestFlag(f) =>
      if s.flushing || f in s.flushes then s else s.(flushes := s.flushes[f := FlushState([], Admitted)])
    case ReadPending(f, ids) =>
      if f !in s.flushes || s.flushes[f].phase != Admitted || |ids| > MAX_BATCH || !AllPending(s.store, ids) then s
      else s.(flushes := s.flushes[f := FlushState(OpsAt(s.store, ids), Loaded)])
    case SetFlag(f) =>
      if f !in s.flushes || s.flushes[f].phase != Loaded || s.flushes[f].batch == [] then s
      else s.(flushing := true, flushes := s.flushes[f := s.flushes[f].(phase := Marking)])
    case Leave(f) =>
      if f !in s.flushes || s.flushes[f].phase != Loaded || s.flushes[f].batch != [] then s
      else s.(flushes := s.flushes - {f})
    case _ => s
  }

  /** The operation of the request the server turns to next. */
  function NextOp(q: Request): Input
    requires |q.answers| < |q.batch|
  {
    q.batch[|q.answers|]
  }

  function Network(s: State, a: Action): State {
    match a
    case Send(f) =>
      if f !in s.flushes || s.flushes[f].phase != Marking then s
      else s.(flushes := s.flushes[f := s.flushes[f].(phase := Awaiting(|s.requests|))],
              requests := s.requests + [Request(Inputs(s.flushes[f].batch), [], false)])
    case Deliver(f) =>
      if f !in s.flushes || !s.flushes[f].phase.Awaiting? || s.flushes[f].phase.request >= |s.requests| then s
      else
        var q := s.requests[s.flushes[f].phase.request];
        if |q.answers| < |q.batch| then s
        else s.(flushes := s.flushes[f := s.flushes[f].(phase := Settling(q.answers))])
    case FailFlush(f) =>
      if f !in s.flushes || !Running(s.flushes[f]) then s
      else s.(flushes := s.flushes[f := s.flushes[f].(phase := Recovering)])
    case EndFlush(f) =>
      if f !in s.flushes || !Running(s.flushes[f]) then s else s.(flushing := false, flushes := s.flushes - {f})
    case _ => s
  }

  function Serve(s: State, a: Action): State {
    match a
    case ServerTurnAway(r) =>
      if r >= |s.requests| || |s.requests[r].answers| >= |s.requests[r].batch| || s.requests[r].claimed then s
      else
        var q := s.requests[r];
        s.(requests := s.requests[r := q.(answers := q.answers + [Answer(NextOp(q).id, AnsweredRejected, None)])])
    case ServerTake(r) =>
      if r >= |s.requests| || |s.requests[r].answers| >= |s.requests[r].batch| || s.requests[r].claimed then s
      else
        var q := s.requests[r];
        if NextOp(q).id in s.server.ledger then
          s.(requests := s.requests[r := q.(answers := q.answers + [Replay(s.server, NextOp(q))])])
        else s.(requests := s.requests[r := q.(claimed := true)], server := Claim(s.server, NextOp(q)))
    case ServerFinish(r, verdict) =>
      if r >= |s.requests| || |s.requests[r].answers| >= |s.requests[r].batch| || !s.requests[r].claimed then s
      else
        var q := s.requests[r];
        var (server, answer) := Resolve(s.server, NextOp(q), verdict);
        s.(requests := s.requests[r := q.(answers := q.answers + [answer], claimed := false)], server := server)
    case _ => s
  }

  /** One step; a step that is not enabled leaves the state as it is. */
  function Apply(s: State, a: Action): State {
    if a.Send? || a.Deliver? || a.FailFlush? || a.EndFlush? then Network(s, a)
    else if a.ServerTurnAway? || a.ServerTake? || a.ServerFinish? then Serve(s, a)
    else if a.TestFlag? || a.ReadPending? || a.SetFlag? || a.Leave? then Guard(s, a)
    else OnDevice(s, a)
  }

  function Exec(s: State, actions: seq<Action>): State {
    if actions == [] then s else Apply(Exec(s, actions[..|actions| - 1]), actions[|actions| - 1])
  }

  // -------------------------------------------------------------- invariant

  predicate Known(s: State, id: OpId, content: Content) {
    id in s.queued && s.queued[id] == content
  }

  /** The operation is in the ledger; strictly: and its row says applied. */
  predicate Backed(s: State, id: OpId, strict: bool) {
    id in s.server.ledger && (strict ==> s.server.ledger[id].status == Applied)
  }

  predicate OpSound(s: State, op: Op, strict: bool) {
    Known(s, op.id, op.content) && (op.status == Synced ==> Backed(s, op.id, strict))
  }

  predicate AnswerSound(s: State, a: Answer, strict: bool) {
    IsSuccess(a) ==> Backed(s, a.id, strict)
  }

  ghost predicate FlushSound(s: State, fl: FlushState, strict: bool) {
    && (forall i :: 0 <= i < |fl.batch| ==> Known(s, fl.batch[i].id, fl.batch[i].content))
    && (fl.phase.Settling? ==> forall i :: 0 <= i < |fl.phase.answers| ==> AnswerSound(s, fl.phase.answers[i], strict))
  }

  predicate ClaimSound(s: State, q: Request) {
    q.claimed ==> |q.answers| < |q.batch| && NextOp(q).id in s.server.ledger && s.server.ledger[NextOp(q).id].status == Pending
  }

  ghost predicate RequestSound(s: State, q: Request, strict: bool) {
    && (forall i :: 0 <= i < |q.batch| ==> Known(s, q.batch[i].id, q.batch[i].content))
    && (forall i :: 0 <= i < |q.answers| ==> AnswerSound(s, q.answers[i], strict))
    && ClaimSound(s, q)
  }

  ghost predicate DeviceSound(s: State, strict: bool) {
    && (forall id :: id in s.store ==> s.store[id].id == id && OpSound(s, s.store[id], strict))
    && (forall w :: w in s.writes ==> OpSound(s, s.writes[w], strict))
    && (forall id :: id in s.clearing ==> Backed(s, id, strict))
    && (forall f :: f in s.flushes ==> FlushSound(s, s.flushes[f], strict))
  }

  /** Two requests never hold a claim on the same operation. */
  ghost predicate ClaimsApart(requests: seq<Request>) {
    forall r, q :: 0 <= r < q < |requests| && HoldsClaim(requests[r]) && HoldsClaim(requests[q]) ==>
      NextOp(requests[r]).id != NextOp(requests[q]).id
  }

  predicate HoldsClaim(q: Request) { q.claimed && |q.answers| < |q.batch| }

  ghost predicate ServerSound(s: State, strict: bool) {
    && LedgerSound(s.server) && ClaimsApart(s.requests)
    && (forall id :: id in s.server.ledger ==> Known(s, id, s.server.ledger[id].content))
    && (forall r :: 0 <= r < |s.requests| ==> RequestSound(s, s.requests[r], strict))
  }

  ghost predicate Inv(s: State, strict: bool) { DeviceSound(s, strict) && ServerSound(s, strict) }

  /** The server meets a known operation only when its row says applied. */
  predicate Honest(s: State, a: Action) {
    a.ServerTake? && a.r < |s.requests| && |s.requests[a.r].answers| < |s.requests[a.r].batch|
      && !s.requests[a.r].claimed && NextOp(s.requests[a.r]).id in s.server.ledger
    ==> s.server.ledger[NextOp(s.requests[a.r]).id].status == Applied
  }

  predicate HonestRun(actions: seq<Action>) {
    actions == []
    || (HonestRun(actions[..|actions| - 1]) && Honest(Exec(Initial, actions[..|actions| - 1]), actions[|actions| - 1]))
  }

  // ------------------------------------------------------- steps keep it

  /** Facts about operations only become more: nothing queued is forgotten, and no
      ledger row disappears. */
  ghost predicate Grows(s: State, t: State) {
    && (forall id :: id in s.queued ==> id in t.queued && t.queued[id] == s.queued[id])
    && (forall id :: id in s.server.ledger ==>
          (id in t.server.ledger && (s.server.ledger[id].status == Applied ==> t.server.ledger[id].status == Applied)))
  }

  lemma DeviceCarries(s: State, t: State, strict: bool)
    requires Grows(s, t) && DeviceSound(s, strict)
    requires t.store == s.store && t.writes == s.writes && t.clearing == s.clearing && t.flushes == s.flushes
    ensures DeviceSound(t, strict)
  {
  }

  /** A request is as sound after a step that kept the row it has claimed. */
  lemma RequestCarries(s: State, t: State, q: Request, strict: bool)
    requires Grows(s, t) && RequestSound(s, q, strict)
    requires HoldsClaim(q) ==> NextOp(q).id in t.server.ledger && t.server.ledger[NextOp(q).id] == s.server.ledger[NextOp(q).id]
    ensures RequestSound(t, q, strict)
  {
  }

  lemma ServerCarries(s: State, t: State, strict: bool)
    requires Grows(s, t) && ServerSound(s, strict) && t.server == s.server && t.requests == s.requests
    ensures ServerSound(t, strict)
  {
  }

  lemma {:induction false} OpsAtSound(s: State, ids: seq<OpId>, strict: bool)
    requires DeviceSound(s, strict) && forall i :: 0 <= i < |ids| ==> ids[i] in s.store
    ensures |OpsAt(s.store, ids)| == |ids|
    ensures forall i :: 0 <= i < |ids| ==> OpsAt(s.store, ids)[i] == s.store[ids[i]]
    ensures forall i :: 0 <= i < |ids| ==> Known(s, OpsAt(s.store, ids)[i].id, OpsAt(s.store, ids)[i].content)
  {
    if ids != [] {
      OpsAtSound(s, ids[..|ids| - 1], strict);
      var last := ids[|ids| - 1];
      assert last in s.store;
      assert OpSound(s, s.store[last], strict);
    }
  }

  lemma {:induction false} InputsSound(s: State, batch: seq<Op>)
    requires forall i :: 0 <= i < |batch| ==> Known(s, batch[i].id, batch[i].content)
    ensures |Inputs(batch)| == |batch|
    ensures forall i :: 0 <= i < |batch| ==> Known(s, Inputs(batch)[i].id, Inputs(batch)[i].content)
  {
    if batch != [] {
      InputsSound(s, batch[..|batch| - 1]);
      assert Known(s, batch[|batch| - 1].id, batch[|batch| - 1].content);
    }
  }

  lemma ReadKeepsInv(s: State, a: Action, strict: bool)
    requires Inv(s, strict) && a.ReadForUpdate?
    ensures Inv(OnDevice(s, a), strict)
  {
    var t := OnDevice(s, a);
    if a.w !in s.writes && a.f in s.flushes {
      var fl := s.flushes[a.f];
      var update := UpdateOf(fl, a.k, a.error);
      if update.Some? && update.value.0 in s.store {
        var op := s.store[update.value.0];
        assert FlushSound(s, fl, strict) && OpSound(s, op, strict);
        if fl.phase.Settling? {
          assert AnswerSound(s, fl.phase.answers[a.k], strict);
        }
        assert OpSound(t, Merged(op, update.value.1), strict);
        DeviceKept(s, t, strict);
        ServerCarries(s, t, strict);
      }
    }
  }

  /** Store and flushes unchanged, one more sound write. */
  lemma DeviceKept(s: State, t: State, strict: bool)
    requires DeviceSound(s, strict) && t.(writes := s.writes) == s
    requires forall w :: w in t.writes ==> (w in s.writes && t.writes[w] == s.writes[w]) || OpSound(t, t.writes[w], strict)
    ensures DeviceSound(t, strict)
  {
  }

  /** Operations carry over, and whatever else the device holds only shrinks. */
  lemma StoreReplaced(s: State, t: State, strict: bool)
    requires DeviceSound(s, strict) && Grows(s, t)
    requires forall id :: id in t.store ==> t.store[id].id == id && OpSound(t, t.store[id], strict)
    requires forall w :: w in t.writes ==> w in s.writes && t.writes[w] == s.writes[w]
    requires forall f :: f in t.flushes ==> f in s.flushes && t.flushes[f] == s.flushes[f]
    requires forall id :: id in t.clearing ==> Backed(t, id, strict)
    ensures DeviceSound(t, strict)
  {
  }

  lemma EnqueueKeepsInv(s: State, op: Op, strict: bool)
    requires Inv(s, strict) && op.id !in s.queued && op.status == Waiting
    ensures Inv(s.(queued := s.queued[op.id := op.content], store := s.store[op.id := op]), strict)
  {
    hide FlushSound, RequestSound, LedgerSound, ClaimsApart;
    var t := s.(queued := s.queued[op.id := op.content], store := s.store[op.id := op]);
    forall id | id in t.store
      ensures t.store[id].id == id && OpSound(t, t.store[id], strict)
    {
      if id != op.id {
        assert OpSound(s, s.store[id], strict);
      }
    }
    StoreReplaced(s, t, strict);
    ServerCarries(s, t, strict);
  }

  /** Writing back an update that was read earlier may bring a deleted operation back,
      or an older status; the operation written is a queued one all the same. */
  lemma WriteBackKeepsInv(s: State, a: Action, strict: bool)
    requires Inv(s, strict) && a.WriteBack?
    ensures Inv(OnDevice(s, a), strict)
  {
    hide FlushSound, RequestSound, LedgerSound, ClaimsApart, UpdateOf;
    if a.w in s.writes {
      var t := OnDevice(s, a);
      assert OpSound(s, s.writes[a.w], strict);
      forall id | id in t.store
        ensures t.store[id].id == id && OpSound(t, t.store[id], strict)
      {
        if id != s.writes[a.w].id {
          assert OpSound(s, s.store[id], strict);
        }
      }
      StoreReplaced(s, t, strict);
      ServerCarries(s, t, strict);
    }
  }

  /** Deleting one operation, and forgetting it among those being cleared. */
  lemma DeleteKeepsInv(s: State, id: OpId, clearing: set<OpId>, strict: bool)
    requires Inv(s, strict) && clearing <= s.clearing
    ensures Inv(s.(store := s.store - {id}, clearing := clearing), strict)
  {
    hide FlushSound, RequestSound, LedgerSound, ClaimsApart;
    var t := s.(store := s.store - {id}, clearing := clearing);
    forall k | k in t.store
      ensures t.store[k].id == k && OpSound(t, t.store[k], strict)
    {
      assert OpSound(s, s.store[k], strict);
    }
    StoreReplaced(s, t, strict);
    ServerCarries(s, t, strict);
  }

  lemma BeginClearKeepsInv(s: State, strict: bool)
    requires Inv(s, strict)
    ensures Inv(OnDevice(s, BeginClear), strict)
  {
    hide FlushSound, RequestSound, LedgerSound, ClaimsApart, UpdateOf;
    var t := OnDevice(s, BeginClear);
    forall id | id in t.store
      ensures t.store[id].id == id && OpSound(t, t.store[id], strict)
    {
      assert OpSound(s, s.store[id], strict);
    }
    StoreReplaced(s, t, strict);
    ServerCarries(s, t, strict);
  }

  lemma ReloadKeepsInv(s: State, strict: bool)
    requires Inv(s, strict)
    ensures Inv(OnDevice(s, Reload), strict)
  {
    hide FlushSound, RequestSound, LedgerSound, ClaimsApart, UpdateOf;
    var t := OnDevice(s, Reload);
    forall id | id in t.store
      ensures t.store[id].id == id && OpSound(t, t.store[id], strict)
    {
      assert OpSound(s, s.store[id], strict);
    }
    StoreReplaced(s, t, strict);
    ServerCarries(s, t, strict);
  }

  /** Starting, sending, delivering, failing and ending replace one flush by a sound one. */
  lemma FlushReplaced(s: State, t: State, f: FlushId, strict: bool)
    requires Inv(s, strict) && t.queued == s.queued && t.store == s.store && t.writes == s.writes && t.clearing == s.clearing
    requires t.server == s.server
    requires forall g :: g in t.flushes && g != f ==> g in s.flushes && t.flushes[g] == s.flushes[g]
    requires f in t.flushes ==> FlushSound(s, t.flushes[f], strict)
    ensures DeviceSound(t, strict)
  {
  }

  /** What the way into a flush does to the flushes. */
  lemma GuardedFlush(s: State, a: Action, strict: bool)
    requires DeviceSound(s, strict) && (a.TestFlag? || a.ReadPending? || a.SetFlag? || a.Leave?)
    ensures var t := Guard(s, a);
            && t == s.(flushing := t.flushing, flushes := t.flushes)
            && (forall g :: g in t.flushes && g != a.f ==> g in s.flushes && t.flushes[g] == s.flushes[g])
            && (a.f in t.flushes ==> FlushSound(s, t.flushes[a.f], strict))
  {
    if a.ReadPending? && AllPending(s.store, a.ids) {
      OpsAtSound(s, a.ids, strict);
    }
    if a.f in s.flushes {
      assert FlushSound(s, s.flushes[a.f], strict);
    }
  }

  lemma GuardKeepsInv(s: State, a: Action, strict: bool)
    requires Inv(s, strict) && (a.TestFlag? || a.ReadPending? || a.SetFlag? || a.Leave?)
    ensures Inv(Guard(s, a), strict)
  {
    hide FlushSound, RequestSound, LedgerSound, ClaimsApart, Guard;
    GuardedFlush(s, a, strict);
    FlushReplaced(s, Guard(s, a), a.f, strict);
    ServerCarries(s, Guard(s, a), strict);
  }

  lemma SendKeepsInv(s: State, a: Action, strict: bool)
    requires Inv(s, strict) && a.Send?
    ensures Inv(Network(s, a), strict)
  {
    hide LedgerSound, TookEffect;
    if a.f in s.flushes && s.flushes[a.f].phase == Marking {
      var t := Network(s, a);
      assert FlushSound(s, s.flushes[a.f], strict);
      FlushReplaced(s, t, a.f, strict);
      InputsSound(s, s.flushes[a.f].batch);
      forall r | 0 <= r < |t.requests|
        ensures RequestSound(t, t.requests[r], strict)
      {
        if r < |s.requests| {
          RequestCarries(s, t, s.requests[r], strict);
        } else {
          forall i | 0 <= i < |t.requests[r].batch|
            ensures Known(t, t.requests[r].batch[i].id, t.requests[r].batch[i].content)
          {
            assert Known(s, t.requests[r].batch[i].id, t.requests[r].batch[i].content);
          }
        }
      }
      forall id | id in t.server.ledger
        ensures Known(t, id, t.server.ledger[id].content)
      {
        assert Known(s, id, s.server.ledger[id].content);
      }
    }
  }

  lemma DeliverKeepsInv(s: State, a: Action, strict: bool)
    requires Inv(s, strict) && a.Deliver?
    ensures Inv(Network(s, a), strict)
  {
    var t := Network(s, a);
    if t != s {
      assert FlushSound(s, s.flushes[a.f], strict);
      assert RequestSound(s, s.requests[s.flushes[a.f].phase.request], strict);
      FlushReplaced(s, t, a.f, strict);
      ServerCarries(s, t, strict);
    }
  }

  lemma FailKeepsInv(s: State, f: FlushId, strict: bool)
    requires Inv(s, strict) && f in s.flushes
    ensures Inv(s.(flushes := s.flushes[f := s.flushes[f].(phase := Recovering)]), strict)
  {
    hide RequestSound, LedgerSound, ClaimsApart;
    var t := s.(flushes := s.flushes[f := s.flushes[f].(phase := Recovering)]);
    assert FlushSound(s, s.flushes[f], strict);
    FlushReplaced(s, t, f, strict);
    ServerCarries(s, t, strict);
  }

  lemma EndKeepsInv(s: State, f: FlushId, strict: bool)
    requires Inv(s, strict)
    ensures Inv(s.(flushing := false, flushes := s.flushes - {f}), strict)
  {
    hide FlushSound, RequestSound, LedgerSound, ClaimsApart;
    var t := s.(flushing := false, flushes := s.flushes - {f});
    FlushReplaced(s, t, f, strict);
    ServerCarries(s, t, strict);
  }

  /** An answer given without touching the ledger: a refusal, or a replay. */
  lemma AnswerKeepsInv(s: State, r: nat, answer: Answer, strict: bool)
    requires Inv(s, strict) && r < |s.requests| && |s.requests[r].answers| < |s.requests[r].batch| && !s.requests[r].claimed
    requires AnswerSound(s, answer, strict)
    ensures Inv(s.(requests := s.requests[r := s.requests[r].(answers := s.requests[r].answers + [answer])]), strict)
  {
    var t := s.(requests := s.requests[r := s.requests[r].(answers := s.requests[r].answers + [answer])]);
    DeviceCarries(s, t, strict);
    forall q | 0 <= q < |t.requests|
      ensures RequestSound(t, t.requests[q], strict)
    {
      assert RequestSound(s, s.requests[q], strict);
      if q == r {
        RequestCarries(s, t, s.requests[r], strict);
      } else {
        RequestCarries(s, t, s.requests[q], strict);
      }
    }
    forall id | id in t.server.ledger
      ensures Known(t, id, t.server.ledger[id].content)
    {
      assert Known(s, id, s.server.ledger[id].content);
    }
  }

  lemma ClaimKeepsInv(s: State, r: nat, strict: bool)
    requires Inv(s, strict) && r < |s.requests| && |s.requests[r].answers| < |s.requests[r].batch| && !s.requests[r].claimed
    requires NextOp(s.requests[r]).id !in s.server.ledger
    ensures Inv(s.(requests := s.requests[r := s.requests[r].(claimed := true)], server := Claim(s.server, NextOp(s.requests[r]))), strict)
  {
    hide FlushSound, TookEffect;
    var op := NextOp(s.requests[r]);
    var t := s.(requests := s.requests[r := s.requests[r].(claimed := true)], server := Claim(s.server, op));
    ClaimKeepsSound(s.server, op);
    DeviceCarries(s, t, strict);
    assert RequestSound(s, s.requests[r], strict);
    assert Known(s, op.id, op.content);
    RequestCarries(s, t, s.requests[r], strict);
    forall q | 0 <= q < |t.requests|
      ensures RequestSound(t, t.requests[q], strict)
    {
      if q != r {
        assert RequestSound(s, s.requests[q], strict);
        RequestCarries(s, t, s.requests[q], strict);
      }
    }
    forall p, q | 0 <= p < q < |t.requests| && HoldsClaim(t.requests[p]) && HoldsClaim(t.requests[q])
      ensures NextOp(t.requests[p]).id != NextOp(t.requests[q]).id
    {
      assert RequestSound(s, s.requests[p], strict) && RequestSound(s, s.requests[q], strict);
    }
    forall id | id in t.server.ledger
      ensures Known(t, id, t.server.ledger[id].content)
    {
      if id != op.id {
        assert Known(s, id, s.server.ledger[id].content);
      }
    }
  }

  lemma FinishKeepsInv(s: State, r: nat, verdict: Verdict, strict: bool)
    requires Inv(s, strict) && r < |s.requests| && HoldsClaim(s.requests[r])
    ensures var (server, answer) := Resolve(s.server, NextOp(s.requests[r]), verdict);
            var q := s.requests[r];
            Inv(s.(requests := s.requests[r := q.(answers := q.answers + [answer], claimed := false)], server := server), strict)
  {
    hide FlushSound, TookEffect;
    var op, mine := NextOp(s.requests[r]), s.requests[r];
    var (server, answer) := Resolve(s.server, op, verdict);
    var t := s.(requests := s.requests[r := mine.(answers := mine.answers + [answer], claimed := false)], server := server);
    assert RequestSound(s, mine, strict) && Known(s, op.id, op.content);
    ResolveKeepsSound(s.server, op, verdict);
    DeviceCarries(s, t, strict);
    forall q | 0 <= q < |t.requests|
      ensures RequestSound(t, t.requests[q], strict)
    {
      assert RequestSound(s, s.requests[q], strict);
      if q != r {
        assert HoldsClaim(s.requests[q]) ==> NextOp(s.requests[q]).id != op.id;
        RequestCarries(s, t, s.requests[q], strict);
      } else {
        FinishedSound(s, t, mine, answer, strict);
      }
    }
    forall p, q | 0 <= p < q < |t.requests| && HoldsClaim(t.requests[p]) && HoldsClaim(t.requests[q])
      ensures NextOp(t.requests[p]).id != NextOp(t.requests[q]).id
    {
      assert HoldsClaim(s.requests[p]) && HoldsClaim(s.requests[q]);
    }
    forall id | id in t.server.ledger
      ensures Known(t, id, t.server.ledger[id].content)
    {
      if id != op.id {
        assert Known(s, id, s.server.ledger[id].content);
      }
    }
  }

  lemma FinishedSound(s: State, t: State, q: Request, answer: Answer, strict: bool)
    requires Grows(s, t) && RequestSound(s, q, strict) && AnswerSound(t, answer, strict)
    ensures RequestSound(t, q.(answers := q.answers + [answer], claimed := false), strict)
  {
  }

  lemma ServeKeepsInv(s: State, a: Action, strict: bool)
    requires Inv(s, strict) && (a.ServerTurnAway? || a.ServerTake? || a.ServerFinish?) && (strict ==> Honest(s, a))
    ensures Inv(Serve(s, a), strict)
  {
    hide Inv, Resolve, Claim;
    if a.r < |s.requests| && |s.requests[a.r].answers| < |s.requests[a.r].batch| {
      var q := s.requests[a.r];
      match a
      case ServerTurnAway(r) =>
        if !q.claimed {
          AnswerKeepsInv(s, r, Answer(NextOp(q).id, AnsweredRejected, None), strict);
        }
      case ServerTake(r) =>
        if !q.claimed {
          if NextOp(q).id in s.server.ledger {
            AnswerKeepsInv(s, r, Replay(s.server, NextOp(q)), strict);
          } else {
            ClaimKeepsInv(s, r, strict);
          }
        }
      case ServerFinish(r, verdict) =>
        if q.claimed {
          FinishKeepsInv(s, r, verdict, strict);
        }
    }
  }

  lemma DeviceKeepsInv(s: State, a: Action, strict: bool)
    requires Inv(s, strict) && (a.Enqueue? || a.Remove? || a.BeginClear? || a.ClearOne? || a.Reload?)
    ensures Inv(OnDevice(s, a), strict)
  {
    hide Inv;
    match a
    case Enqueue(id, content, caption, now) =>
      if id !in s.queued {
        EnqueueKeepsInv(s, Op(id, content, caption, now, Waiting, 0, None, None), strict);
      }
    case Remove(id) => DeleteKeepsInv(s, id, s.clearing, strict);
    case BeginClear => BeginClearKeepsInv(s, strict);
    case ClearOne(id) => DeleteKeepsInv(s, id, s.clearing - {id}, strict);
    case Reload => ReloadKeepsInv(s, strict);
  }

  lemma NetworkKeepsInv(s: State, a: Action, strict: bool)
    requires Inv(s, strict) && (a.Send? || a.Deliver? || a.FailFlush? || a.EndFlush?)
    ensures Inv(Network(s, a), strict)
  {
    hide Inv;
    match a
    case Send(_) => SendKeepsInv(s, a, strict);
    case Deliver(_) => DeliverKeepsInv(s, a, strict);
    case FailFlush(f) =>
      if f in s.flushes {
        FailKeepsInv(s, f, strict);
      }
    case EndFlush(f) => EndKeepsInv(s, f, strict);
  }

  lemma StepKeepsInv(s: State, a: Action, strict: bool)
    requires Inv(s, strict) && (strict ==> Honest(s, a))
    ensures Inv(Apply(s, a), strict)
  {
    hide Inv, OnDevice, Guard, Network, Serve;
    match a
    case ReadForUpdate(_, _, _, _) => ReadKeepsInv(s, a, strict);
    case WriteBack(_) => WriteBackKeepsInv(s, a, strict);
    case _ =>
      if a.TestFlag? || a.ReadPending? || a.SetFlag? || a.Leave? {
        GuardKeepsInv(s, a, strict);
      } else if a.Send? || a.Deliver? || a.FailFlush? || a.EndFlush? {
        NetworkKeepsInv(s, a, strict);
      } else if a.ServerTurnAway? || a.ServerTake? || a.ServerFinish? {
        ServeKeepsInv(s, a, strict);
      } else {
        DeviceKeepsInv(s, a, strict);
      }
  }

  lemma {:induction false} RunKeepsInv(actions: seq<Action>, strict: bool)
    requires strict ==> HonestRun(actions)
    ensures Inv(Exec(Initial, actions), strict)
  {
    if actions != [] {
      RunKeepsInv(actions[..|actions| - 1], strict);
      StepKeepsInv(Exec(Initial, actions[..|actions| - 1]), actions[|actions| - 1], strict);
    }
  }
}
