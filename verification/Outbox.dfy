/** The offline outbox on the device, and one uninterrupted flush of it. */
module Outbox {
  import opened Common
  import opened SyncEngine
  import Sorting

  datatype OpStatus = Waiting | Syncing | Failed | Synced

  datatype Op = Op(id: OpId, content: Content, caption: string, createdAt: int, status: OpStatus, attempts: nat,
                   lastError: Option<string>, result: Option<string>)

  /** The partial updates `flush` writes. */
  datatype Changes =
    | MarkSyncing
    | MarkSynced(attempts: nat, result: Option<string>)
    | MarkFailed(attempts: nat, error: string)
    | MarkWaiting(attempts: nat, lastError: Option<string>)

  function Merged(op: Op, changes: Changes): Op {
    match changes
    case MarkSyncing => op.(status := Syncing)
    case MarkSynced(attempts, result) => op.(status := Synced, attempts := attempts, result := result, lastError := None)
    case MarkFailed(attempts, error) => op.(status := Failed, attempts := attempts, lastError := Some(error))
    case MarkWaiting(attempts, lastError) => op.(status := Waiting, attempts := attempts, lastError := lastError)
  }

  type Store = map<OpId, Op>

  function Updated(store: Store, id: OpId, changes: Changes): Store {
    if id in store then store[id := Merged(store[id], changes)] else store
  }

  predicate Older(a: Op, b: Op) { a.createdAt <= b.createdAt }

  predicate IsPending(op: Op) { op.status == Waiting || op.status == Failed }

  function PendingOf(ops: seq<Op>): seq<Op> {
    if ops == [] then []
    else if IsPending(ops[0]) then [ops[0]] + PendingOf(ops[1..])
    else PendingOf(ops[1..])
  }

  ghost predicate KeysMatch(store: Store) {
    forall id :: id in store ==> store[id].id == id
  }

  /** `ops` lists the store, each operation once, oldest first. */
  ghost predicate ListsStore(ops: seq<Op>, store: Store) {
    && Sorting.Sorted(Older, ops)
    && (forall op :: op in ops <==> op.id in store && store[op.id] == op)
    && |ops| == |store.Keys|
  }

  // --------------------------------------------------- what a flush writes

  const MAX_BATCH := 50
  const BASE_BACKOFF_MS := 5000
  const MAX_BACKOFF_MS := 300000

  function Batch(ops: seq<Op>): seq<Op> {
    var queued := PendingOf(ops);
    if |queued| <= MAX_BATCH then queued else queued[..MAX_BATCH]
  }

  function Marked(store: Store, batch: seq<Op>): Store {
    if batch == [] then store else Updated(Marked(store, batch[..|batch| - 1]), batch[|batch| - 1].id, MarkSyncing)
  }

  /** Attempts so far of the batch operation with this id, zero when there is none. */
  function AttemptsOf(batch: seq<Op>, id: OpId): nat {
    if batch == [] then 0 else if batch[0].id == id then batch[0].attempts else AttemptsOf(batch[1..], id)
  }

  function AnswerChanges(batch: seq<Op>, a: Answer, message: string): Changes {
    var attempts := AttemptsOf(batch, a.id) + 1;
    if IsSuccess(a) then MarkSynced(attempts, a.result) else MarkFailed(attempts, message)
  }

  function Settled(store: Store, batch: seq<Op>, answers: seq<Answer>, message: string): Store {
    if answers == [] then store
    else
      var last := answers[|answers| - 1];
      Updated(Settled(store, batch, answers[..|answers| - 1], message), last.id, AnswerChanges(batch, last, message))
  }

  function Restored(store: Store, batch: seq<Op>, error: Option<string>): Store {
    if batch == [] then store
    else
      var last := batch[|batch| - 1];
      Updated(Restored(store, batch[..|batch| - 1], error), last.id, MarkWaiting(last.attempts + 1, error))
  }

  function Pow2(k: nat): nat { if k == 0 then 1 else 2 * Pow2(k - 1) }

  function MaxAttempts(batch: seq<Op>): nat {
    if batch == [] then 0 else Max(MaxAttempts(batch[..|batch| - 1]), batch[|batch| - 1].attempts + 1)
  }

  function Backoff(attempts: nat): int {
    Min(BASE_BACKOFF_MS * Pow2(if attempts == 0 then 0 else attempts - 1), MAX_BACKOFF_MS)
  }

  /** What the network does with the batch: an answer per operation, or a failure. */
  datatype Reply = Results(answers: seq<Answer>) | NoReply(offline: bool, message: string)

  datatype Summary = Summary(attempted: nat, applied: nat, duplicate: nat, conflict: nat, rejected: nat, offline: bool)

  const EMPTY := Summary(0, 0, 0, 0, 0, false)

  function Tally(answers: seq<Answer>, status: AnswerStatus): nat {
    if answers == [] then 0
    else Tally(answers[..|answers| - 1], status) + if answers[|answers| - 1].status == status then 1 else 0
  }

  /** The places of the answers with a status. */
  function With(answers: seq<Answer>, status: AnswerStatus): set<nat> {
    set i: nat | i < |answers| && answers[i].status == status
  }

  lemma {:induction false} TallyCounts(answers: seq<Answer>, status: AnswerStatus)
    ensures Tally(answers, status) == |With(answers, status)|
  {
    if answers != [] {
      var last := |answers| - 1;
      TallyCounts(answers[..last], status);
      assert With(answers, status) == With(answers[..last], status) + if answers[last].status == status then {last} else {};
    }
  }

  /** The largest number of attempts in a batch, this one included. */
  lemma {:induction false} MaxAttemptsExact(batch: seq<Op>)
    ensures forall i :: 0 <= i < |batch| ==> batch[i].attempts + 1 <= MaxAttempts(batch)
    ensures batch != [] ==> exists i :: 0 <= i < |batch| && batch[i].attempts + 1 == MaxAttempts(batch)
  {
    if batch != [] {
      var rest, last := batch[..|batch| - 1], batch[|batch| - 1];
      MaxAttemptsExact(rest);
      assert forall i :: 0 <= i < |rest| ==> rest[i] == batch[i];
      if last.attempts + 1 >= MaxAttempts(rest) {
        assert batch[|batch| - 1].attempts + 1 == MaxAttempts(batch);
      } else {
        var i :| 0 <= i < |rest| && rest[i].attempts + 1 == MaxAttempts(rest);
        assert batch[i].attempts + 1 == MaxAttempts(batch);
      }
    }
  }

  function Counted(batch: seq<Op>, answers: seq<Answer>): Summary {
    Summary(|batch|, Tally(answers, AnsweredApplied), Tally(answers, AnsweredDuplicate),
            Tally(answers, AnsweredConflict), Tally(answers, AnsweredRejected), false)
  }

  ghost predicate NothingPending(store: Store) {
    forall id :: id in store ==> !IsPending(store[id])
  }

  lemma SomeId(ids: set<OpId>)
    requires ids != {}
    ensures exists id :: id in ids
  {
    var none: set<OpId> := {};
    assert (forall id :: id in ids <==> id in none) ==> ids == none;
  }

  // -------------------------------------------------------------- the device

  class Device {
    var store: Store
    var flushing: bool
    var backoffUntil: int

    ghost predicate Valid()
      reads this
    {
      KeysMatch(store)
    }

    constructor ()
      ensures Valid() && store == map[] && !flushing && backoffUntil == 0
    {
      store, flushing, backoffUntil := map[], false, 0;
    }

    method Enqueue(id: OpId, content: Content, caption: string, now: int) returns (op: Op)
      requires Valid() && id !in store
      modifies this`store
      ensures Valid() && store == old(store)[id := op]
      ensures op == Op(id, content, caption, now, Waiting, 0, None, None)
    {
      op := Op(id, content, caption, now, Waiting, 0, None, None);
      store := store[id := op];
    }

    method All() returns (ops: seq<Op>)
      requires Valid()
      ensures ListsStore(ops, store)
    {
      var rows: seq<Op> := [];
      var left := store.Keys;
      while left != {}
        invariant left <= store.Keys
        invariant forall op :: op in rows <==> op.id in store && op.id !in left && store[op.id] == op
        invariant |rows| + |left| == |store.Keys|
        decreases left
      {
        SomeId(left);
        var id :| id in left;
        rows := rows + [store[id]];
        left := left - {id};
      }
      ops := Sorting.Sort(Older, rows);
      SortLists(rows, store);
    }

    method Pending() returns (queued: seq<Op>)
      requires Valid()
      ensures exists ops :: ListsStore(ops, store) && queued == PendingOf(ops)
      ensures forall op :: op in queued <==> op.id in store && store[op.id] == op && (op.status == Waiting || op.status == Failed)
      ensures forall i, j :: 0 <= i < j < |queued| ==> queued[i].createdAt <= queued[j].createdAt && queued[i].id != queued[j].id
    {
      var ops := All();
      queued := PendingOf(ops);
      PendingExact(ops, store);
    }

    method Update(id: OpId, changes: Changes)
      requires Valid()
      modifies this`store
      ensures Valid() && store == Updated(old(store), id, changes)
    {
      if id !in store {
        return;
      }
      store := store[id := Merged(store[id], changes)];
    }

    method Remove(id: OpId)
      requires Valid()
      modifies this`store
      ensures Valid() && store == old(store) - {id}
    {
      store := store - {id};
    }

    /** Deletes exactly the operations that are synced, and counts them. */
    method ClearSynced() returns (removed: nat)
      requires Valid()
      modifies this`store
      ensures Valid()
      ensures forall id :: id in store <==> id in old(store) && old(store)[id].status != Synced
      ensures forall id :: id in store ==> store[id] == old(store)[id]
      ensures removed == |old(store).Keys| - |store.Keys|
    {
      var ops := All();
      removed := 0;
      for i := 0 to |ops|
        invariant store == Cleared(old(store), ops[..i]) && removed == |old(store).Keys| - |store.Keys|
      {
        assert ops[..i + 1][..i] == ops[..i];
        if ops[i].status == Synced {
          StillThere(old(store), ops, i);
          assert (store - {ops[i].id}).Keys == store.Keys - {ops[i].id};
          store := store - {ops[i].id};
          removed := removed + 1;
        }
      }
      assert ops[..|ops|] == ops;
      ClearedExact(old(store), ops);
    }

    method MarkBatch(batch: seq<Op>)
      requires Valid()
      modifies this`store
      ensures Valid() && store == Marked(old(store), batch)
    {
      for i := 0 to |batch|
        invariant Valid() && store == Marked(old(store), batch[..i])
      {
        assert batch[..i + 1][..i] == batch[..i];
        Update(batch[i].id, MarkSyncing);
      }
      assert batch[..|batch|] == batch;
    }

    method SettleBatch(batch: seq<Op>, answers: seq<Answer>, message: string) returns (summary: Summary)
      requires Valid()
      modifies this`store
      ensures Valid() && store == Settled(old(store), batch, answers, message)
      ensures summary == Counted(batch, answers)
      ensures summary.attempted == |batch| && !summary.offline
      ensures summary.applied == |With(answers, AnsweredApplied)| && summary.duplicate == |With(answers, AnsweredDuplicate)|
      ensures summary.conflict == |With(answers, AnsweredConflict)| && summary.rejected == |With(answers, AnsweredRejected)|
    {
      summary := EMPTY.(attempted := |batch|);
      for i := 0 to |answers|
        invariant Valid() && store == Settled(old(store), batch, answers[..i], message)
        invariant summary == Counted(batch, answers[..i])
      {
        assert answers[..i + 1][..i] == answers[..i];
        var a := answers[i];
        Update(a.id, AnswerChanges(batch, a, message));
        match a.status
        case AnsweredApplied => summary := summary.(applied := summary.applied + 1);
        case AnsweredDuplicate => summary := summary.(duplicate := summary.duplicate + 1);
        case AnsweredConflict => summary := summary.(conflict := summary.conflict + 1);
        case AnsweredRejected => summary := summary.(rejected := summary.rejected + 1);
      }
      assert answers[..|answers|] == answers;
      TallyCounts(answers, AnsweredApplied);
      TallyCounts(answers, AnsweredDuplicate);
      TallyCounts(answers, AnsweredConflict);
      TallyCounts(answers, AnsweredRejected);
    }

    method RestoreBatch(batch: seq<Op>, error: Option<string>)
      requires Valid()
      modifies this`store
      ensures Valid() && store == Restored(old(store), batch, error)
    {
      for i := 0 to |batch|
        invariant Valid() && store == Restored(old(store), batch[..i], error)
      {
        assert batch[..i + 1][..i] == batch[..i];
        Update(batch[i].id, MarkWaiting(batch[i].attempts + 1, error));
      }
      assert batch[..|batch|] == batch;
    }

    /** One flush from start to finish, with nothing else running in between. */
    method Flush(force: bool, online: bool, now: int, later: int, reply: Reply, message: string)
      returns (summary: Summary, ghost batch: seq<Op>)
      requires Valid()
      modifies this
      ensures Valid() && flushing == old(flushing)
      ensures batch == [] <==>
                || old(flushing) || (!force && (now < old(backoffUntil) || !online))
                || forall id :: id in old(store) ==> old(store)[id].status != Waiting && old(store)[id].status != Failed
      ensures batch == [] ==> store == old(store) && backoffUntil == old(backoffUntil) && summary == EMPTY
      ensures |batch| <= MAX_BATCH
      ensures batch != [] ==> exists ops :: ListsStore(ops, old(store)) && batch == Batch(ops)
      ensures batch != [] && reply.Results? ==>
                && store == Settled(Marked(old(store), batch), batch, reply.answers, message)
                && backoffUntil == 0 && summary == Counted(batch, reply.answers)
      ensures batch != [] && reply.NoReply? ==>
                && store == Restored(Marked(old(store), batch), batch, if reply.offline then None else Some(reply.message))
                && backoffUntil == later + Backoff(MaxAttempts(batch))
                && summary == EMPTY.(attempted := |batch|, offline := reply.offline)
    {
      batch := [];
      if flushing {
        return EMPTY, batch;
      }
      if !force && now < backoffUntil {
        return EMPTY, batch;
      }
      if !online && !force {
        return EMPTY, batch;
      }
      var ops := All();
      var queued := PendingOf(ops);
      NonePending(ops, store);
      if |queued| == 0 {
        return EMPTY, batch;
      }
      flushing := true;
      var sent := if |queued| <= MAX_BATCH then queued else queued[..MAX_BATCH];
      batch := sent;
      MarkBatch(sent);
      match reply {
        case Results(answers) =>
          summary := SettleBatch(sent, answers, message);
          backoffUntil := 0;
        case NoReply(offline, error) =>
          RestoreBatch(sent, if offline then None else Some(error));
          backoffUntil := later + Backoff(MaxAttempts(sent));
          summary := EMPTY.(attempted := |sent|, offline := offline);
      }
      flushing := false;
    }
  }

  function Cleared(store: Store, ops: seq<Op>): Store {
    if ops == [] then store
    else
      var rest, last := Cleared(store, ops[..|ops| - 1]), ops[|ops| - 1];
      if last.status == Synced then rest - {last.id} else rest
  }

  /** Each operation is listed once, so it is there when its turn comes. */
  lemma StillThere(store: Store, ops: seq<Op>, i: nat)
    requires ListsStore(ops, store) && KeysMatch(store) && i < |ops|
    ensures ops[i].id in Cleared(store, ops[..i])
  {
    ListDistinct(ops, store);
    ClearedKeeps(store, ops[..i]);
    assert ops[i] in ops;
  }

  lemma {:induction false} ClearedKeeps(store: Store, ops: seq<Op>)
    ensures forall id :: id in Cleared(store, ops) <==>
              id in store && forall i :: 0 <= i < |ops| ==> !(ops[i].id == id && ops[i].status == Synced)
    ensures forall id :: id in Cleared(store, ops) ==> Cleared(store, ops)[id] == store[id]
  {
    if ops != [] {
      ClearedKeeps(store, ops[..|ops| - 1]);
      assert forall i :: 0 <= i < |ops| - 1 ==> ops[..|ops| - 1][i] == ops[i];
    }
  }

  lemma ClearedExact(store: Store, ops: seq<Op>)
    requires ListsStore(ops, store) && KeysMatch(store)
    ensures forall id :: id in Cleared(store, ops) <==> id in store && store[id].status != Synced
    ensures forall id :: id in Cleared(store, ops) ==> Cleared(store, ops)[id] == store[id]
  {
    ClearedKeeps(store, ops);
    forall id | id in store
      ensures store[id].status == Synced <==> exists i :: 0 <= i < |ops| && ops[i].id == id && ops[i].status == Synced
    {
      assert store[id] in ops;
      forall i | 0 <= i < |ops| && ops[i].id == id
        ensures ops[i] == store[id]
      {
        assert ops[i] in ops;
      }
    }
  }

  lemma SortLists(rows: seq<Op>, store: Store)
    requires forall op :: op in rows <==> op.id in store && store[op.id] == op
    requires |rows| == |store.Keys|
    ensures ListsStore(Sorting.Sort(Older, rows), store)
  {
    Sorting.SortSorts(Older, rows);
    Sorting.MultisetMembers(Sorting.Sort(Older, rows), rows);
  }

  // ------------------------------------------------------- what a flush keeps

  lemma {:induction false} PendingMember(ops: seq<Op>, op: Op)
    ensures op in PendingOf(ops) <==> op in ops && IsPending(op)
  {
    if ops != [] {
      PendingMember(ops[1..], op);
    }
  }

  lemma NonePending(ops: seq<Op>, store: Store)
    requires ListsStore(ops, store) && KeysMatch(store)
    ensures PendingOf(ops) == [] <==> NothingPending(store)
  {
    if PendingOf(ops) == [] {
      forall id | id in store
        ensures !IsPending(store[id])
      {
        PendingMember(ops, store[id]);
      }
    } else {
      PendingMember(ops, PendingOf(ops)[0]);
    }
  }

  lemma {:induction false} PendingSorted(ops: seq<Op>)
    requires Sorting.Sorted(Older, ops)
    ensures Sorting.Sorted(Older, PendingOf(ops))
  {
    if ops != [] {
      PendingSorted(ops[1..]);
      forall op | op in PendingOf(ops[1..])
        ensures Older(ops[0], op)
      {
        PendingMember(ops[1..], op);
        var i :| 0 <= i < |ops[1..]| && ops[1..][i] == op;
        assert Older(ops[0], ops[i + 1]);
      }
    }
  }

  /** A flush sends pending operations only, oldest first: nothing left behind is older
      than anything sent. */
  lemma OldestFirst(ops: seq<Op>, store: Store, sent: Op, left: Op)
    requires ListsStore(ops, store) && sent in Batch(ops)
    ensures sent.id in store && store[sent.id] == sent && IsPending(sent)
    ensures left.id in store && store[left.id] == left && IsPending(left) && left !in Batch(ops) ==> Older(sent, left)
  {
    PendingMember(ops, sent);
    PendingMember(ops, left);
    PendingSorted(ops);
  }

  /** The same operations, each with the content, caption and age it was queued with. */
  ghost predicate SameOperations(store: Store, after: Store) {
    && after.Keys == store.Keys
    && forall id :: id in store ==> SameEntry(store[id], after[id])
  }

  predicate SameEntry(x: Op, y: Op) {
    x.id == y.id && x.content == y.content && x.caption == y.caption && x.createdAt == y.createdAt
  }

  predicate HasAnswer(answers: seq<Answer>, id: OpId) {
    exists i :: 0 <= i < |answers| && answers[i].id == id
  }

  ghost predicate DistinctAnswers(answers: seq<Answer>) {
    forall i, j :: 0 <= i < j < |answers| ==> answers[i].id != answers[j].id
  }

  ghost predicate DistinctOps(ops: seq<Op>) {
    forall i, j :: 0 <= i < j < |ops| ==> ops[i].id != ops[j].id
  }

  predicate InBatch(batch: seq<Op>, id: OpId) {
    exists i :: 0 <= i < |batch| && batch[i].id == id
  }

  /** Marking loses nothing, and touches only the batch. */
  lemma {:induction false} MarkingKeeps(store: Store, batch: seq<Op>)
    ensures SameOperations(store, Marked(store, batch))
    ensures forall id :: id in store && !InBatch(batch, id) ==> Marked(store, batch)[id] == store[id]
    ensures forall id :: id in store && InBatch(batch, id) ==> Marked(store, batch)[id] == store[id].(status := Syncing)
  {
    if batch != [] {
      var rest := batch[..|batch| - 1];
      MarkingKeeps(store, rest);
      forall id | InBatch(rest, id)
        ensures InBatch(batch, id)
      {
        var i :| 0 <= i < |rest| && rest[i].id == id;
        assert batch[i].id == id;
      }
    }
  }

  /** What an answer makes of a stored operation: synced with the server's result and no
      error, or failed with the error and the result it had; one more attempt either way. */
  predicate RecordedAs(x: Op, y: Op, a: Answer, attempts: nat, message: string) {
    && SameEntry(x, y) && y.attempts == attempts + 1
    && if a.status == AnsweredApplied || a.status == AnsweredDuplicate
       then y.status == Synced && y.result == a.result && y.lastError == None
       else y.status == Failed && y.result == x.result && y.lastError == Some(message)
  }

  lemma {:induction false} AttemptsInBatch(batch: seq<Op>, i: nat)
    requires DistinctOps(batch) && i < |batch|
    ensures AttemptsOf(batch, batch[i].id) == batch[i].attempts
  {
    if i > 0 {
      AttemptsInBatch(batch[1..], i - 1);
    }
  }

  /** Recording answers neither loses an operation nor changes what the user entered; it
      touches only answered operations, and with one answer for each id every one of them
      ends up synced if its own answer is a success, and failed otherwise. */
  lemma {:induction false} SettlingKeeps(store: Store, batch: seq<Op>, answers: seq<Answer>, message: string)
    ensures SameOperations(store, Settled(store, batch, answers, message))
    ensures forall id :: id in store && !HasAnswer(answers, id) ==> Settled(store, batch, answers, message)[id] == store[id]
    ensures DistinctAnswers(answers) ==>
              forall i :: 0 <= i < |answers| && answers[i].id in store ==>
                RecordedAs(store[answers[i].id], Settled(store, batch, answers, message)[answers[i].id], answers[i],
                           AttemptsOf(batch, answers[i].id), message)
  {
    if answers != [] {
      var rest, last := answers[..|answers| - 1], answers[|answers| - 1];
      SettlingKeeps(store, batch, rest, message);
      forall id | HasAnswer(rest, id)
        ensures HasAnswer(answers, id)
      {
        var i :| 0 <= i < |rest| && rest[i].id == id;
        assert answers[i].id == id;
      }
      if DistinctAnswers(answers) {
        forall i | 0 <= i < |answers| && answers[i].id in store
          ensures RecordedAs(store[answers[i].id], Settled(store, batch, answers, message)[answers[i].id], answers[i],
                             AttemptsOf(batch, answers[i].id), message)
        {
          if i < |rest| {
            assert rest[i] == answers[i];
          }
        }
      }
    }
  }

  lemma {:induction false} FewerIds(ops: seq<Op>, ids: set<OpId>)
    requires forall id :: id in ids ==> InBatch(ops, id)
    ensures |ids| <= |ops|
    ensures |ids| == |ops| ==> DistinctOps(ops)
  {
    if ops == [] {
      if ids != {} {
        SomeId(ids);
      }
    } else {
      var rest, last := ops[..|ops| - 1], ops[|ops| - 1];
      forall id | id in ids - {last.id}
        ensures InBatch(rest, id)
      {
        var i :| 0 <= i < |ops| && ops[i].id == id;
        assert rest[i].id == id;
      }
      FewerIds(rest, ids - {last.id});
      if InBatch(rest, last.id) {
        forall id | id in ids
          ensures InBatch(rest, id)
        {
        }
        FewerIds(rest, ids);
      } else if |ids| == |ops| {
        forall i | 0 <= i < |rest|
          ensures ops[i].id != last.id
        {
          assert rest[i].id != last.id;
        }
      }
    }
  }

  lemma {:induction false} PendingDistinct(ops: seq<Op>)
    requires DistinctOps(ops)
    ensures DistinctOps(PendingOf(ops))
  {
    if ops != [] {
      PendingDistinct(ops[1..]);
      forall op | op in PendingOf(ops[1..])
        ensures op.id != ops[0].id
      {
        PendingMember(ops[1..], op);
      }
    }
  }

  /** A batch holds each operation once, and every one as it is stored. */
  lemma BatchDistinct(ops: seq<Op>, store: Store)
    requires ListsStore(ops, store) && KeysMatch(store)
    ensures DistinctOps(Batch(ops))
  {
    ListDistinct(ops, store);
    PendingDistinct(ops);
  }

  lemma PendingExact(ops: seq<Op>, store: Store)
    requires ListsStore(ops, store) && KeysMatch(store)
    ensures forall op :: op in PendingOf(ops) <==> op.id in store && store[op.id] == op && (op.status == Waiting || op.status == Failed)
    ensures Sorting.Sorted(Older, PendingOf(ops)) && DistinctOps(PendingOf(ops))
    ensures forall i, j :: 0 <= i < j < |PendingOf(ops)| ==> PendingOf(ops)[i].createdAt <= PendingOf(ops)[j].createdAt
  {
    forall op
      ensures op in PendingOf(ops) <==> op in ops && IsPending(op)
    {
      PendingMember(ops, op);
    }
    PendingSorted(ops);
    ListDistinct(ops, store);
    PendingDistinct(ops);
    forall i, j | 0 <= i < j < |PendingOf(ops)|
      ensures PendingOf(ops)[i].createdAt <= PendingOf(ops)[j].createdAt
    {
      assert Older(PendingOf(ops)[i], PendingOf(ops)[j]);
    }
  }

  /** A batch is as full as it can be: fifty operations, or all that are pending. */
  lemma BatchFull(ops: seq<Op>, store: Store)
    requires ListsStore(ops, store) && KeysMatch(store)
    ensures |Batch(ops)| <= 50
    ensures |Batch(ops)| < 50 ==>
              forall id :: id in store && (store[id].status == Waiting || store[id].status == Failed) ==> store[id] in Batch(ops)
    ensures forall op :: op in Batch(ops) ==> op.id in store && store[op.id] == op && (op.status == Waiting || op.status == Failed)
  {
    PendingExact(ops, store);
  }

  lemma ListDistinct(ops: seq<Op>, store: Store)
    requires ListsStore(ops, store) && KeysMatch(store)
    ensures DistinctOps(ops)
  {
    forall id | id in store.Keys
      ensures InBatch(ops, id)
    {
      assert store[id] in ops;
    }
    FewerIds(ops, store.Keys);
  }

  /** A failed flush puts every operation it sent back among the waiting ones, with one
      more attempt and the error to show, and touches nothing else. */
  lemma {:induction false} RestoringKeeps(store: Store, batch: seq<Op>, error: Option<string>)
    ensures SameOperations(store, Restored(store, batch, error))
    ensures forall id :: id in store && !InBatch(batch, id) ==> Restored(store, batch, error)[id] == store[id]
    ensures DistinctOps(batch) ==>
              forall i :: 0 <= i < |batch| && batch[i].id in store ==>
                Restored(store, batch, error)[batch[i].id] ==
                store[batch[i].id].(status := Waiting, attempts := batch[i].attempts + 1, lastError := error)
    ensures forall i :: 0 <= i < |batch| && batch[i].id in store ==> IsPending(Restored(store, batch, error)[batch[i].id])
  {
    if batch != [] {
      var rest, last := batch[..|batch| - 1], batch[|batch| - 1];
      RestoringKeeps(store, rest, error);
      forall id | InBatch(rest, id)
        ensures InBatch(batch, id)
      {
        var i :| 0 <= i < |rest| && rest[i].id == id;
        assert batch[i].id == id;
      }
      forall i | 0 <= i < |rest|
        ensures rest[i] == batch[i]
      {
      }
      if DistinctOps(batch) {
        assert !InBatch(rest, last.id);
      }
    }
  }

  /** Exponential, between five seconds and five minutes. */
  lemma {:induction false} BackoffBounded(attempts: nat)
    requires attempts > 0
    ensures BASE_BACKOFF_MS <= Backoff(attempts) <= MAX_BACKOFF_MS
    ensures Backoff(1) == 5000 && Backoff(attempts + 1) == Min(2 * Backoff(attempts), 300000)
    ensures Backoff(attempts) <= Backoff(attempts + 1) && (attempts >= 7 <==> Backoff(attempts) == MAX_BACKOFF_MS)
  {
    if attempts > 1 {
      BackoffBounded(attempts - 1);
    }
    assert Pow2(attempts) == 2 * Pow2(attempts - 1);
    if attempts <= 7 {
      PowersOfTwo();
    }
  }

  lemma PowersOfTwo()
    ensures Pow2(0) == 1 && Pow2(1) == 2 && Pow2(2) == 4 && Pow2(3) == 8 && Pow2(4) == 16 && Pow2(5) == 32 && Pow2(6) == 64
  {
  }
}
