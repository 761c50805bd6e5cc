/** Whose answers a flush records: over every run, one for each operation it sent, in
    order, and never another flush's. */
module SyncAnswers {
  import opened Common
  import opened SyncEngine
  import opened Outbox
  import opened SyncProtocol
  import opened SyncRefinement

  /** The answers given so far are for the first operations of the batch, in order. */
  predicate InOrder(q: Request) {
    |q.answers| <= |q.batch| && forall i :: 0 <= i < |q.answers| ==> q.answers[i].id == q.batch[i].id
  }

  predicate OwnAnswers(fl: FlushState) {
    fl.phase.Settling? ==>
      |fl.phase.answers| == |fl.batch| && forall i :: 0 <= i < |fl.batch| ==> fl.phase.answers[i].id == fl.batch[i].id
  }

  predicate OwnRequest(requests: seq<Request>, fl: FlushState) {
    fl.phase.Awaiting? ==> fl.phase.request < |requests| && requests[fl.phase.request].batch == Inputs(fl.batch)
  }

  ghost predicate Matched(s: State) {
    && (forall r :: 0 <= r < |s.requests| ==> InOrder(s.requests[r]))
    && forall f :: f in s.flushes ==> |s.flushes[f].batch| <= 50 && OwnAnswers(s.flushes[f]) && OwnRequest(s.requests, s.flushes[f])
  }

  lemma {:induction false} OpsAtLength(store: Store, ids: seq<OpId>)
    requires AllPending(store, ids)
    ensures |OpsAt(store, ids)| == |ids|
  {
    if ids != [] {
      OpsAtLength(store, ids[..|ids| - 1]);
    }
  }

  lemma EntryMatched(s: State, a: Action)
    requires Matched(s) && (a.TestFlag? || a.ReadPending? || a.SetFlag? || a.Leave?)
    ensures Matched(Guard(s, a))
  {
    if a.ReadPending? && AllPending(s.store, a.ids) {
      OpsAtLength(s.store, a.ids);
    }
    hide InOrder;
  }

  lemma SendMatched(s: State, f: FlushId)
    requires Matched(s)
    ensures Matched(Network(s, Send(f)))
  {
    var t := Network(s, Send(f));
    forall g | g in t.flushes
      ensures |t.flushes[g].batch| <= 50 && OwnAnswers(t.flushes[g]) && OwnRequest(t.requests, t.flushes[g])
    {
      assert g in s.flushes && OwnRequest(s.requests, s.flushes[g]);
    }
    hide Inputs;
  }

  lemma NetworkMatched(s: State, a: Action)
    requires Matched(s) && (a.Deliver? || a.FailFlush? || a.EndFlush?)
    ensures Matched(Network(s, a))
  {
    if a.f in s.flushes && s.flushes[a.f].phase.Awaiting? {
      InputsAt(s.flushes[a.f].batch);
      assert OwnRequest(s.requests, s.flushes[a.f]);
      assert InOrder(s.requests[s.flushes[a.f].phase.request]);
    }
    hide Inputs;
  }

  lemma NextInOrder(q: Request, answer: Answer, claimed: bool)
    requires InOrder(q) && |q.answers| < |q.batch| && answer.id == NextOp(q).id
    ensures InOrder(q.(answers := q.answers + [answer], claimed := claimed))
  {
  }

  lemma ClaimedInOrder(q: Request)
    requires InOrder(q)
    ensures InOrder(q.(claimed := true))
  {
  }

  lemma ServedFrame(s: State, a: Action, r: nat)
    requires (a.ServerTurnAway? || a.ServerTake? || a.ServerFinish?) && r < |s.requests|
    ensures var t := Serve(s, a);
            && t == s.(requests := t.requests, server := t.server) && |t.requests| == |s.requests|
            && t.requests[r].batch == s.requests[r].batch && (r != a.r ==> t.requests[r] == s.requests[r])
  {
    hide Resolve, Claim, Replay;
  }

  /** Serving adds at most the next answer to one request. */
  lemma ServedInOrder(s: State, a: Action)
    requires (a.ServerTurnAway? || a.ServerTake? || a.ServerFinish?) && a.r < |s.requests| && InOrder(s.requests[a.r])
    ensures a.r < |Serve(s, a).requests| && InOrder(Serve(s, a).requests[a.r])
  {
    var q := s.requests[a.r];
    if |q.answers| < |q.batch| {
      var op := NextOp(q);
      match a
      case ServerTurnAway(_) => NextInOrder(q, Answer(op.id, AnsweredRejected, None), q.claimed);
      case ServerTake(_) =>
        ClaimedInOrder(q);
        if op.id in s.server.ledger {
          NextInOrder(q, Replay(s.server, op), q.claimed);
        }
      case ServerFinish(_, verdict) => NextInOrder(q, Resolve(s.server, op, verdict).1, false);
    }
    hide InOrder, Resolve, Claim, Replay;
  }

  lemma ServedOne(s: State, a: Action, r: nat)
    requires (a.ServerTurnAway? || a.ServerTake? || a.ServerFinish?) && r < |s.requests| && InOrder(s.requests[r])
    ensures var t := Serve(s, a);
            && t == s.(requests := t.requests, server := t.server) && |t.requests| == |s.requests|
            && t.requests[r].batch == s.requests[r].batch && InOrder(t.requests[r])
  {
    hide Serve, InOrder;
    ServedFrame(s, a, r);
    if r == a.r {
      ServedInOrder(s, a);
    }
  }

  lemma ServeMatched(s: State, a: Action)
    requires Matched(s) && (a.ServerTurnAway? || a.ServerTake? || a.ServerFinish?)
    ensures Matched(Serve(s, a))
  {
    hide Serve, InOrder, Inputs;
    var t := Serve(s, a);
    if s.requests != [] {
      forall r | 0 <= r < |s.requests|
        ensures |t.requests| == |s.requests| && t.requests[r].batch == s.requests[r].batch && InOrder(t.requests[r])
        ensures t.flushes == s.flushes
      {
        ServedOne(s, a, r);
      }
      assert InOrder(s.requests[0]);
      ServedOne(s, a, 0);
    } else {
      NothingServed(s, a);
    }
  }

  lemma NothingServed(s: State, a: Action)
    requires s.requests == [] && (a.ServerTurnAway? || a.ServerTake? || a.ServerFinish?)
    ensures Serve(s, a) == s
  {
  }

  lemma StepMatched(s: State, a: Action)
    requires Matched(s)
    ensures Matched(Apply(s, a))
  {
    if a.TestFlag? || a.ReadPending? || a.SetFlag? || a.Leave? {
      hide Matched, Guard;
      EntryMatched(s, a);
    } else if a.Send? {
      hide Matched, Network;
      SendMatched(s, a.f);
    } else if a.Deliver? || a.FailFlush? || a.EndFlush? {
      hide Matched, Network;
      NetworkMatched(s, a);
    } else if a.ServerTurnAway? || a.ServerTake? || a.ServerFinish? {
      hide Matched, Serve;
      ServeMatched(s, a);
    } else {
      DeviceMatched(s, a);
    }
  }

  lemma DeviceMatched(s: State, a: Action)
    requires Matched(s)
    ensures Matched(OnDevice(s, a))
  {
    hide InOrder, OwnAnswers, OwnRequest, UpdateOf;
  }

  /** Over every run a flush carries at most fifty operations, and when it records answers
      they are complete: one for each operation it sent, in the same order. */
  lemma {:induction false} EachItsOwnAnswer(actions: seq<Action>)
    ensures var s := Exec(Initial, actions);
            && Matched(s)
            && forall f :: f in s.flushes ==>
                 && |s.flushes[f].batch| <= 50
                 && (s.flushes[f].phase.Settling? ==>
                       |s.flushes[f].phase.answers| == |s.flushes[f].batch|
                       && forall i :: 0 <= i < |s.flushes[f].batch| ==> s.flushes[f].phase.answers[i].id == s.flushes[f].batch[i].id)
  {
    if actions != [] {
      EachItsOwnAnswer(actions[..|actions| - 1]);
      hide Apply;
      StepMatched(Exec(Initial, actions[..|actions| - 1]), actions[|actions| - 1]);
    }
  }
}
