/** What a page reload in the middle of a flush leaves behind: an operation marked syncing
    that nothing will send again. */
module SyncStranded {
  import opened Common
  import opened SyncEngine
  import opened Outbox
  import opened SyncProtocol

  predicate RequestLacks(q: Request, id: OpId) {
    && (forall i :: 0 <= i < |q.batch| ==> q.batch[i].id != id)
    && (forall i :: 0 <= i < |q.answers| ==> q.answers[i].id != id)
  }

  predicate FlushLacks(s: State, fl: FlushState, id: OpId) {
    && (forall i :: 0 <= i < |fl.batch| ==> fl.batch[i].id != id)
    && (fl.phase.Settling? ==> forall i :: 0 <= i < |fl.phase.answers| ==> fl.phase.answers[i].id != id)
    && (fl.phase.Awaiting? ==> fl.phase.request < |s.requests| && RequestLacks(s.requests[fl.phase.request], id))
  }

  /** The operation is syncing, or gone, and nothing on the device has it in hand: no
      flush, no update in progress, no clear. No request from the `n`th on carries it. */
  ghost predicate Stranded(s: State, n: nat, id: OpId) {
    && KeysMatch(s.store) && id in s.queued && (id in s.store ==> s.store[id].status == Syncing) && id !in s.clearing
    && (forall w :: w in s.writes ==> s.writes[w].id != id)
    && (forall f :: f in s.flushes ==> FlushLacks(s, s.flushes[f], id))
    && n <= |s.requests| && (forall r :: n <= r < |s.requests| ==> RequestLacks(s.requests[r], id))
  }

  ghost predicate KeptAs(s: State, t: State, id: OpId) {
    id in s.store ==> id in t.store && t.store[id] == s.store[id]
  }

  lemma {:induction false} OpsAtLack(store: Store, ids: seq<OpId>, id: OpId)
    requires KeysMatch(store) && AllPending(store, ids) && (id in store ==> store[id].status == Syncing)
    ensures |OpsAt(store, ids)| == |ids| && forall i :: 0 <= i < |ids| ==> OpsAt(store, ids)[i].id != id
  {
    if ids != [] {
      var last := ids[|ids| - 1];
      OpsAtLack(store, ids[..|ids| - 1], id);
      assert last in store && IsPending(store[last]) && store[last].id == last;
    }
  }

  lemma {:induction false} InputsLack(batch: seq<Op>, id: OpId)
    requires forall i :: 0 <= i < |batch| ==> batch[i].id != id
    ensures |Inputs(batch)| == |batch| && forall i :: 0 <= i < |batch| ==> Inputs(batch)[i].id != id
  {
    if batch != [] {
      InputsLack(batch[..|batch| - 1], id);
    }
  }

  lemma GuardStrands(s: State, a: Action, n: nat, id: OpId)
    requires Stranded(s, n, id) && (a.TestFlag? || a.ReadPending? || a.SetFlag? || a.Leave?)
    ensures Stranded(Guard(s, a), n, id) && Guard(s, a).store == s.store
  {
    if a.ReadPending? && AllPending(s.store, a.ids) {
      OpsAtLack(s.store, a.ids, id);
    }
  }

  lemma SendStrands(s: State, f: FlushId, n: nat, id: OpId)
    requires Stranded(s, n, id)
    ensures Stranded(Network(s, Send(f)), n, id) && Network(s, Send(f)).store == s.store
  {
    if f in s.flushes {
      assert FlushLacks(s, s.flushes[f], id);
      InputsLack(s.flushes[f].batch, id);
      hide Inputs, KeysMatch;
      var t := Network(s, Send(f));
      forall g | g in t.flushes
        ensures FlushLacks(t, t.flushes[g], id)
      {
        assert FlushLacks(s, s.flushes[g], id);
      }
    }
  }

  lemma FlushStrands(s: State, a: Action, n: nat, id: OpId)
    requires Stranded(s, n, id) && (a.Deliver? || a.FailFlush? || a.EndFlush?)
    ensures Stranded(Network(s, a), n, id) && Network(s, a).store == s.store
  {
    hide KeysMatch;
    if a.f in s.flushes {
      assert FlushLacks(s, s.flushes[a.f], id);
    }
  }

  lemma ServedLacks(s: State, a: Action, r: nat, id: OpId)
    requires a.ServerTurnAway? || a.ServerTake? || a.ServerFinish?
    requires r < |s.requests| && RequestLacks(s.requests[r], id)
    ensures |Serve(s, a).requests| == |s.requests| && RequestLacks(Serve(s, a).requests[r], id)
  {
    if a.ServerFinish? && a.r == r && |s.requests[r].answers| < |s.requests[r].batch| {
      ResolvedId(s.server, NextOp(s.requests[r]), a.verdict);
    }
    hide Resolve, Claim;
  }

  lemma ResolvedId(s: Server, op: Input, v: Verdict)
    ensures Resolve(s, op, v).1.id == op.id
  {
  }

  lemma ServedFrame(s: State, a: Action)
    requires a.ServerTurnAway? || a.ServerTake? || a.ServerFinish?
    ensures var t := Serve(s, a); t == s.(requests := t.requests, server := t.server) && |t.requests| == |s.requests|
  {
  }

  lemma ServeStrands(s: State, a: Action, n: nat, id: OpId)
    requires Stranded(s, n, id) && (a.ServerTurnAway? || a.ServerTake? || a.ServerFinish?)
    ensures Stranded(Serve(s, a), n, id) && Serve(s, a).store == s.store
  {
    hide Serve, RequestLacks, KeysMatch;
    var t := Serve(s, a);
    ServedFrame(s, a);
    forall r | 0 <= r < |s.requests| && RequestLacks(s.requests[r], id)
      ensures RequestLacks(t.requests[r], id)
    {
      ServedLacks(s, a, r, id);
    }
    forall f | f in t.flushes
      ensures FlushLacks(t, t.flushes[f], id)
    {
      assert FlushLacks(s, s.flushes[f], id);
    }
  }

  lemma ReadStrands(s: State, a: Action, n: nat, id: OpId)
    requires Stranded(s, n, id) && a.ReadForUpdate?
    ensures Stranded(OnDevice(s, a), n, id) && OnDevice(s, a).store == s.store
  {
    if a.f in s.flushes {
      assert FlushLacks(s, s.flushes[a.f], id);
    }
    hide RequestLacks;
  }

  lemma DeviceStrands(s: State, a: Action, n: nat, id: OpId)
    requires Stranded(s, n, id) && !a.ReadForUpdate? && Apply(s, a) == OnDevice(s, a)
    ensures Stranded(OnDevice(s, a), n, id) && (a != Remove(id) ==> KeptAs(s, OnDevice(s, a), id))
  {
    hide RequestLacks, UpdateOf;
  }

  lemma StepStrands(s: State, a: Action, n: nat, id: OpId)
    requires Stranded(s, n, id)
    ensures Stranded(Apply(s, a), n, id) && (a != Remove(id) ==> KeptAs(s, Apply(s, a), id))
  {
    hide Stranded, Guard, Network, Serve, OnDevice;
    if a.TestFlag? || a.ReadPending? || a.SetFlag? || a.Leave? {
      GuardStrands(s, a, n, id);
    } else if a.Send? {
      SendStrands(s, a.f, n, id);
    } else if a.Deliver? || a.FailFlush? || a.EndFlush? {
      FlushStrands(s, a, n, id);
    } else if a.ServerTurnAway? || a.ServerTake? || a.ServerFinish? {
      ServeStrands(s, a, n, id);
    } else if a.ReadForUpdate? {
      ReadStrands(s, a, n, id);
    } else {
      DeviceStrands(s, a, n, id);
    }
  }

  lemma {:induction false} StaysStranded(s: State, actions: seq<Action>, n: nat, id: OpId)
    requires Stranded(s, n, id)
    ensures Stranded(Exec(s, actions), n, id)
    ensures Remove(id) !in actions ==> KeptAs(s, Exec(s, actions), id)
  {
    if actions != [] {
      var last := |actions| - 1;
      StaysStranded(s, actions[..last], n, id);
      hide Apply, Stranded;
      StepStrands(Exec(s, actions[..last]), actions[last], n, id);
    }
  }

  /** What a reload during a flush leaves behind: whatever run led there, an operation that
      is syncing when the page reloads is sent in no later request, whatever happens next,
      and stays in the store, syncing, unless it is removed explicitly. */
  lemma NeverSentAgain(before: seq<Action>, after: seq<Action>, id: OpId)
    requires id in Exec(Initial, before).store && Exec(Initial, before).store[id].status == Syncing
    ensures var s, t := Apply(Exec(Initial, before), Reload), Exec(Apply(Exec(Initial, before), Reload), after);
            && |s.requests| <= |t.requests|
            && (forall r, i :: |s.requests| <= r < |t.requests| && 0 <= i < |t.requests[r].batch| ==> t.requests[r].batch[i].id != id)
            && (id in t.store ==> t.store[id].status == Syncing)
            && (Remove(id) !in after ==> id in t.store && t.store[id] == Exec(Initial, before).store[id])
  {
    var s := Exec(Initial, before);
    RunKeepsInv(before, false);
    assert OpSound(s, s.store[id], false);
    var loaded := Apply(s, Reload);
    assert loaded.flushes == map[] && loaded.writes == map[] && loaded.clearing == {} && loaded.store == s.store;
    assert Stranded(loaded, |s.requests|, id);
    StaysStranded(loaded, after, |s.requests|, id);
  }
}
