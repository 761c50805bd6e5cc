/** What the offline protocol guarantees over every run, and the one thing it does not:
    that an operation marked synced was applied. */
module SyncGuarantees {
  import opened Common
  import opened SyncEngine
  import opened Outbox
  import opened SyncProtocol
  import opened SyncRefinement

  /** In every run each operation takes effect at most once, and what takes effect is
      exactly what the user queued under that id. */
  lemma AtMostOnce(actions: seq<Action>)
    ensures var s := Exec(Initial, actions);
            && (forall i, j :: 0 <= i < j < |s.server.effects| ==> s.server.effects[i].id != s.server.effects[j].id)
            && (forall i :: 0 <= i < |s.server.effects| ==> Known(s, s.server.effects[i].id, s.server.effects[i].content))
  {
    var s := Exec(Initial, actions);
    RunKeepsInv(actions, false);
    forall i | 0 <= i < |s.server.effects|
      ensures Known(s, s.server.effects[i].id, s.server.effects[i].content)
    {
      var id := s.server.effects[i].id;
      assert id in s.server.ledger && Known(s, id, s.server.ledger[id].content);
    }
  }

  /** The operation is somewhere in the system with this content: in the store, in a
      flush, in a request, in the ledger, or among what took effect. */
  ghost predicate Carries(s: State, id: OpId, content: Content) {
    || (id in s.store && s.store[id].content == content)
    || (exists f, i :: f in s.flushes && InFlush(s.flushes[f], i, id, content))
    || (exists r, i :: 0 <= r < |s.requests| && InRequest(s.requests[r], i, id, content))
    || (id in s.server.ledger && s.server.ledger[id].content == content)
    || Input(id, content) in s.server.effects
  }

  predicate InFlush(fl: FlushState, i: nat, id: OpId, content: Content) {
    i < |fl.batch| && fl.batch[i].id == id && fl.batch[i].content == content
  }

  predicate InRequest(q: Request, i: nat, id: OpId, content: Content) {
    i < |q.batch| && q.batch[i] == Input(id, content)
  }

  /** Wherever an operation is found, it has the content it was queued with. */
  lemma CarriedAsQueued(actions: seq<Action>, id: OpId, content: Content)
    requires Carries(Exec(Initial, actions), id, content)
    ensures Known(Exec(Initial, actions), id, content)
  {
    var s := Exec(Initial, actions);
    RunKeepsInv(actions, false);
    hide Exec;
    if id in s.store && s.store[id].content == content {
      assert OpSound(s, s.store[id], false);
    } else if f, i :| f in s.flushes && InFlush(s.flushes[f], i, id, content) {
      assert FlushSound(s, s.flushes[f], false);
    } else if r, i :| 0 <= r < |s.requests| && InRequest(s.requests[r], i, id, content) {
      assert RequestSound(s, s.requests[r], false);
    } else if Input(id, content) in s.server.effects {
      var i :| 0 <= i < |s.server.effects| && s.server.effects[i] == Input(id, content);
      assert s.server.ledger[s.server.effects[i].id].content == content;
    }
  }

  /** Content never changes: at any two moments of any run, wherever the operation is found
      at the one and at the other, its content is the same. */
  lemma ContentNeverChanges(actions: seq<Action>, more: seq<Action>, id: OpId, first: Content, later: Content)
    requires Carries(Exec(Initial, actions), id, first) && Carries(Exec(Initial, actions + more), id, later)
    ensures first == later
  {
    hide Exec, Carries;
    CarriedAsQueued(actions, id, first);
    CarriedAsQueued(actions + more, id, later);
    ExecAppend(Initial, actions, more);
    QueuedForever(Exec(Initial, actions), more, id);
  }

  /** What an id was queued with is settled once and for all. */
  lemma {:induction false} QueuedForever(s: State, actions: seq<Action>, id: OpId)
    requires id in s.queued
    ensures id in Exec(s, actions).queued && Exec(s, actions).queued[id] == s.queued[id]
  {
    if actions != [] {
      QueuedForever(s, actions[..|actions| - 1], id);
      QueuedStays(Exec(s, actions[..|actions| - 1]), actions[|actions| - 1], id);
    }
  }

  lemma QueuedStays(s: State, a: Action, id: OpId)
    requires id in s.queued
    ensures id in Apply(s, a).queued && Apply(s, a).queued[id] == s.queued[id]
  {
  }

  // ------------------------------------------------------- what disappears

  /** A stored operation disappears only by an explicit remove, or because a running
      `clearSynced` had read it as synced. */
  lemma DisappearsOnly(s: State, a: Action, id: OpId)
    requires id in s.store && id !in Apply(s, a).store
    ensures a == Remove(id) || (a == ClearOne(id) && id in s.clearing)
  {
  }

  /** ...and `clearSynced` takes up nothing that is not synced when it reads it. */
  lemma ClearsOnlySynced(s: State, a: Action, id: OpId)
    requires id !in s.clearing && id in Apply(s, a).clearing
    ensures a == BeginClear && id in s.store && s.store[id].status == Synced
  {
  }

  /** Some `clearSynced` of the run read the operation, and it was synced then. */
  ghost predicate ReadAsSynced(actions: seq<Action>, id: OpId) {
    exists k :: 0 <= k < |actions| && ClearReads(actions, k, id)
  }

  predicate ClearReads(actions: seq<Action>, k: nat, id: OpId)
    requires k < |actions|
  {
    var s := Exec(Initial, actions[..k]);
    actions[k] == BeginClear && id in s.store && s.store[id].status == Synced
  }

  /** Step `k` removes the operation, explicitly or after reading it as synced. */
  ghost predicate Removes(actions: seq<Action>, k: nat, id: OpId)
    requires k < |actions|
  {
    actions[k] == Remove(id) || (actions[k] == ClearOne(id) && ReadAsSynced(actions[..k], id))
  }

  lemma {:induction false} ClearingWasSynced(actions: seq<Action>, id: OpId)
    requires id in Exec(Initial, actions).clearing
    ensures ReadAsSynced(actions, id)
  {
    if actions != [] {
      var last := |actions| - 1;
      var s := Exec(Initial, actions[..last]);
      hide Apply;
      if id in s.clearing {
        ClearingWasSynced(actions[..last], id);
        var k :| 0 <= k < last && ClearReads(actions[..last], k, id);
        assert actions[..last][..k] == actions[..k];
        assert ClearReads(actions, k, id);
      } else {
        ClearsOnlySynced(s, actions[last], id);
        assert ClearReads(actions, last, id);
      }
    }
  }

  lemma RemovesInPrefix(actions: seq<Action>, n: nat, k: nat, id: OpId)
    requires k < n <= |actions| && Removes(actions[..n], k, id)
    ensures Removes(actions, k, id)
  {
    hide ReadAsSynced;
    assert actions[..n][..k] == actions[..k];
  }

  lemma LastRemoves(actions: seq<Action>, id: OpId)
    requires actions != [] && id !in Exec(Initial, actions).store
    requires id in Exec(Initial, actions[..|actions| - 1]).store
    ensures Removes(actions, |actions| - 1, id)
  {
    var last := |actions| - 1;
    hide Apply, ReadAsSynced;
    DisappearsOnly(Exec(Initial, actions[..last]), actions[last], id);
    if actions[last] == ClearOne(id) {
      ClearingWasSynced(actions[..last], id);
    }
  }

  /** Nothing is dropped: over every run, an operation that was stored at some point and
      is gone at the end was removed explicitly, or cleared after being read as synced. */
  lemma {:induction false} NeverSilentlyDropped(actions: seq<Action>, n: nat, id: OpId)
    requires n <= |actions| && id in Exec(Initial, actions[..n]).store && id !in Exec(Initial, actions).store
    ensures exists k :: n <= k < |actions| && Removes(actions, k, id)
  {
    hide Apply, Exec, Removes;
    assert actions[..|actions|] == actions;
    var last := |actions| - 1;
    if id in Exec(Initial, actions[..last]).store {
      LastRemoves(actions, id);
    } else {
      assert actions[..last][..n] == actions[..n];
      NeverSilentlyDropped(actions[..last], n, id);
      var k :| n <= k < last && Removes(actions[..last], k, id);
      RemovesInPrefix(actions, last, k, id);
    }
  }

  // --------------------------------------------- what `synced` is worth

  /** In every run a synced operation is in the ledger, and it took effect if and only if
      its ledger row says applied. The same holds of whatever is being cleared. */
  lemma SyncedExactly(actions: seq<Action>, id: OpId)
    requires var s := Exec(Initial, actions);
             (id in s.store && s.store[id].status == Synced) || id in s.clearing
    ensures var s := Exec(Initial, actions);
            && id in s.server.ledger
            && (TookEffect(s.server, id) <==> s.server.ledger[id].status == Applied)
  {
    var s := Exec(Initial, actions);
    RunKeepsInv(actions, false);
    if id in s.store {
      assert OpSound(s, s.store[id], false);
    }
    EffectExactly(s.server, id);
  }

  lemma EffectExactly(s: Server, id: OpId)
    requires LedgerSound(s) && id in s.ledger
    ensures TookEffect(s, id) <==> s.ledger[id].status == Applied
  {
  }

  /** The guard is exact, step by step: when the server meets a known operation, the
      success it answers is true if and only if the row says applied. */
  lemma ReplayTruthful(actions: seq<Action>, r: nat)
    requires var s := Exec(Initial, actions);
             && r < |s.requests| && |s.requests[r].answers| < |s.requests[r].batch| && !s.requests[r].claimed
             && NextOp(s.requests[r]).id in s.server.ledger
    ensures var s := Exec(Initial, actions);
            var t := Apply(s, ServerTake(r));
            var answer := t.requests[r].answers[|s.requests[r].answers|];
            && answer.id == NextOp(s.requests[r]).id && IsSuccess(answer)
            && (TookEffect(t.server, answer.id) <==> Honest(s, ServerTake(r)))
  {
    RunKeepsInv(actions, false);
    EffectExactly(Exec(Initial, actions).server, NextOp(Exec(Initial, actions).requests[r]).id);
  }

  /** In a run where the server meets only applied operations again, everything marked
      synced, and everything cleared, took effect. */
  lemma HonestRunSyncsOnlyApplied(actions: seq<Action>, id: OpId)
    requires HonestRun(actions)
    requires var s := Exec(Initial, actions);
             (id in s.store && s.store[id].status == Synced) || id in s.clearing
    ensures TookEffect(Exec(Initial, actions).server, id)
  {
    var s := Exec(Initial, actions);
    RunKeepsInv(actions, true);
    if id in s.store {
      assert OpSound(s, s.store[id], true);
    }
    assert Backed(s, id, true);
    EffectExactly(s.server, id);
  }

  // --------------------------------------------------------- the lost entry

  /** The store holds one operation. */
  predicate Only(store: Store, op: Op) { store == map[op.id := op] }

  lemma OneListed(store: Store, op: Op)
    requires Only(store, op) && IsPending(op)
    ensures KeysMatch(store) && ListsStore([op], store) && Batch([op]) == [op]
  {
    assert store.Keys == {op.id};
    assert [op][1..] == [] && PendingOf([op]) == [op] + PendingOf([]) == [op];
  }

  /** One undisturbed answered flush of one operation: it ends synced if the server's
      answer is a success, and failed otherwise. */
  lemma FlushOnce(s: State, f: FlushId, op: Op, v: Verdict, message: string) returns (actions: seq<Action>, after: Op)
    requires Only(s.store, op) && IsPending(op) && s.writes == map[] && !s.flushing && f !in s.flushes
    ensures var t := Exec(s, actions);
            var (server, answer) := ApplyOperation(s.server, Input(op.id, op.content), true, v);
            && Only(t.store, after) && after.id == op.id && after.status == (if IsSuccess(answer) then Synced else Failed)
            && t.server == server && t.flushes == s.flushes && t.writes == map[] && !t.flushing
  {
    var submissions := [Submission(Input(op.id, op.content), true, v)];
    OneListed(s.store, op);
    OneSubmitted(s.server, submissions[0]);
    hide Exec, ApplyBatch, Batch, ListsStore, ApplyOperation, KeysMatch;
    actions := FlushIsRun(s, f, [op], submissions, message);
    FlushSettlesAll(s.store, [op], s.server, submissions, message);
    MarkingKeeps(s.store, [op]);
    var answers := ApplyBatch(s.server, submissions).1;
    SettlingKeeps(Marked(s.store, [op]), [op], answers, message);
    hide Marked, Settled;
    after := Exec(s, actions).store[op.id];
    assert Exec(s, actions).store.Keys == {op.id};
    assert SameEntry(op, Marked(s.store, [op])[op.id]) && SameEntry(Marked(s.store, [op])[op.id], after);
  }

  /** `synced` does not mean applied: whatever the user queues, there is a run without
      any loss on the network, made of whole flushes, in which it is refused, sent again,
      marked synced, and then cleared from the device, having had no effect. */
  lemma RefusedEntryIsLost(id: OpId, content: Content) returns (synced: seq<Action>, cleared: seq<Action>)
    ensures var s := Exec(Initial, synced);
            id in s.store && s.store[id].status == Synced && s.server.effects == []
    ensures synced < cleared
    ensures var t := Exec(Initial, cleared);
            id in t.queued && id !in t.store && t.server.effects == []
  {
    var op := Op(id, content, "", 0, Waiting, 0, None, None);
    var enqueue := [Enqueue(id, content, "", 0)];
    var s := Exec(Initial, enqueue);
    ExecOne(Initial, enqueue[0]);
    assert Only(s.store, op) && s.server == EmptyServer && id in s.queued;
    var first, refused := FlushOnce(s, 1, op, Reject, "rejected");
    var t := Exec(s, first);
    var second, done := FlushOnce(t, 2, refused, Reject, "");
    var u := Exec(t, second);
    var clear := [BeginClear, ClearOne(id)];
    ClearsOne(u, id);
    hide Exec, ApplyOperation;
    ExecAppend(Initial, enqueue, first);
    ExecAppend(Initial, enqueue + first, second);
    synced := enqueue + first + second;
    ExecAppend(Initial, synced, clear);
    cleared := synced + clear;
    QueuedForever(s, first, id);
    QueuedForever(t, second, id);
    QueuedForever(u, clear, id);
  }

  lemma ClearsOne(s: State, id: OpId)
    requires id in s.store && s.store[id].status == Synced
    ensures id !in Exec(s, [BeginClear, ClearOne(id)]).store && Exec(s, [BeginClear, ClearOne(id)]).server == s.server
  {
    ExecPair(s, BeginClear, ClearOne(id));
  }
}
