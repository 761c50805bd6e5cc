/** The server side of offline sync: the idempotency ledger and what it answers. */
module SyncEngine {
  import opened Common

  type OpId = int

  /** What the user entered; never changed after it is queued. */
  datatype Content = Content(entity: string, action: string, payload: string, timestamp: string, device: string)

  datatype Input = Input(id: OpId, content: Content)

  datatype LedgerStatus = Pending | Applied | Conflicted | Refused

  datatype LedgerRow = LedgerRow(content: Content, status: LedgerStatus, result: Option<string>)

  /** The ledger, and the operations whose changes the handlers have committed. */
  datatype Server = Server(ledger: map<OpId, LedgerRow>, effects: seq<Input>)

  const EmptyServer := Server(map[], [])

  /** How a handler ends: it commits its changes, or raises and they are rolled back. */
  datatype Verdict = Accept(result: string) | HoldForReview | Reject

  datatype AnswerStatus = AnsweredApplied | AnsweredDuplicate | AnsweredConflict | AnsweredRejected

  datatype Answer = Answer(id: OpId, status: AnswerStatus, result: Option<string>)

  predicate IsSuccess(a: Answer) { a.status == AnsweredApplied || a.status == AnsweredDuplicate }

  /** The row is claimed first, in its own transaction. */
  function Claim(s: Server, op: Input): Server {
    s.(ledger := s.ledger[op.id := LedgerRow(op.content, Pending, None)])
  }

  /** Then the handler runs in a second one, and the row records how it ended. */
  function Resolve(s: Server, op: Input, v: Verdict): (Server, Answer) {
    match v
    case Accept(result) =>
      (Server(s.ledger[op.id := LedgerRow(op.content, Applied, Some(result))], s.effects + [op]),
       Answer(op.id, AnsweredApplied, Some(result)))
    case HoldForReview =>
      (s.(ledger := s.ledger[op.id := LedgerRow(op.content, Conflicted, None)]), Answer(op.id, AnsweredConflict, None))
    case Reject =>
      (s.(ledger := s.ledger[op.id := LedgerRow(op.content, Refused, None)]), Answer(op.id, AnsweredRejected, None))
  }

  /** A known id is answered `duplicate`, whatever became of its first submission. */
  function Replay(s: Server, op: Input): Answer
    requires op.id in s.ledger
  {
    Answer(op.id, AnsweredDuplicate, s.ledger[op.id].result)
  }

  /** `apply_operation`: `admitted` stands for the checks made before the ledger is
      touched (a handler exists, supports the action, and the user may use it). */
  function ApplyOperation(s: Server, op: Input, admitted: bool, v: Verdict): (Server, Answer) {
    if !admitted then (s, Answer(op.id, AnsweredRejected, None))
    else if op.id in s.ledger then (s, Replay(s, op))
    else Resolve(Claim(s, op), op, v)
  }

  datatype Submission = Submission(op: Input, admitted: bool, verdict: Verdict)

  function ApplyBatch(s: Server, batch: seq<Submission>): (Server, seq<Answer>) {
    if batch == [] then (s, [])
    else
      var (mid, answers) := ApplyBatch(s, batch[..|batch| - 1]);
      var last := batch[|batch| - 1];
      var (after, answer) := ApplyOperation(mid, last.op, last.admitted, last.verdict);
      (after, answers + [answer])
  }

  class SyncService {
    var ledger: map<OpId, LedgerRow>
    var effects: seq<Input>

    function Rows(): Server
      reads this
    {
      Server(ledger, effects)
    }

    ghost predicate Valid()
      reads this
    {
      LedgerSound(Rows())
    }

    constructor ()
      ensures Valid() && Rows() == EmptyServer
    {
      ledger, effects := map[], [];
    }

    /** A first submission is answered truthfully: it succeeds if and only if it took
        effect. A known one changes nothing and is told of the first result, and that
        success is true if and only if the row was not refused, held or left pending. No
        other operation is touched. */
    method Submit(op: Input, admitted: bool, v: Verdict) returns (answer: Answer)
      requires Valid()
      modifies this
      ensures Valid() && answer.id == op.id
      ensures (Rows(), answer) == ApplyOperation(old(Rows()), op, admitted, v)
      ensures !admitted || op.id in old(ledger) ==> Rows() == old(Rows())
      ensures admitted && op.id in old(ledger) ==> answer == Answer(op.id, AnsweredDuplicate, old(ledger)[op.id].result)
      ensures !admitted ==> answer == Answer(op.id, AnsweredRejected, None)
      ensures admitted && op.id !in old(ledger) ==>
                match v
                case Accept(result) =>
                  && answer == Answer(op.id, AnsweredApplied, Some(result)) && effects == old(effects) + [op]
                  && ledger == old(ledger)[op.id := LedgerRow(op.content, Applied, Some(result))]
                case HoldForReview =>
                  && answer == Answer(op.id, AnsweredConflict, None) && effects == old(effects)
                  && ledger == old(ledger)[op.id := LedgerRow(op.content, Conflicted, None)]
                case Reject =>
                  && answer == Answer(op.id, AnsweredRejected, None) && effects == old(effects)
                  && ledger == old(ledger)[op.id := LedgerRow(op.content, Refused, None)]
      ensures admitted && op.id !in old(ledger) ==>
                op.id in ledger && ledger[op.id].content == op.content && (IsSuccess(answer) <==> TookEffect(Rows(), op.id))
      ensures admitted && IsSuccess(answer) ==>
                (TookEffect(Rows(), op.id) <==> !(op.id in old(ledger) && old(ledger)[op.id].status != Applied))
      ensures forall id :: id in old(ledger) ==> id in ledger && ledger[id] == old(ledger)[id]
      ensures forall id :: id != op.id ==> (TookEffect(Rows(), id) <==> TookEffect(old(Rows()), id))
    {
      SubmissionSound(Rows(), op, admitted, v);
      if !admitted {
        return Answer(op.id, AnsweredRejected, None);
      }
      if op.id in ledger {
        return Answer(op.id, AnsweredDuplicate, ledger[op.id].result);
      }
      ledger := ledger[op.id := LedgerRow(op.content, Pending, None)];
      match v
      case Accept(result) =>
        effects := effects + [op];
        ledger := ledger[op.id := ledger[op.id].(status := Applied, result := Some(result))];
        answer := Answer(op.id, AnsweredApplied, Some(result));
      case HoldForReview =>
        ledger := ledger[op.id := ledger[op.id].(status := Conflicted)];
        answer := Answer(op.id, AnsweredConflict, None);
      case Reject =>
        ledger := ledger[op.id := ledger[op.id].(status := Refused)];
        answer := Answer(op.id, AnsweredRejected, None);
    }

    method SubmitBatch(batch: seq<Submission>) returns (answers: seq<Answer>)
      requires Valid()
      modifies this
      ensures Valid() && (Rows(), answers) == ApplyBatch(old(Rows()), batch)
    {
      answers := [];
      for i := 0 to |batch|
        invariant Valid() && (Rows(), answers) == ApplyBatch(old(Rows()), batch[..i])
      {
        assert batch[..i + 1][..i] == batch[..i];
        var answer := Submit(batch[i].op, batch[i].admitted, batch[i].verdict);
        answers := answers + [answer];
      }
      assert batch[..|batch|] == batch;
    }
  }

  // --------------------------------------------------------------- soundness

  predicate TookEffect(s: Server, id: OpId) {
    exists i :: 0 <= i < |s.effects| && s.effects[i].id == id
  }

  /** Each operation took effect at most once, exactly those whose row says applied did,
      and with the content their row records. */
  ghost predicate LedgerSound(s: Server) {
    && (forall i, j :: 0 <= i < j < |s.effects| ==> s.effects[i].id != s.effects[j].id)
    && (forall i :: 0 <= i < |s.effects| ==>
          s.effects[i].id in s.ledger && s.ledger[s.effects[i].id].status == Applied
          && s.ledger[s.effects[i].id].content == s.effects[i].content)
    && (forall id :: id in s.ledger && s.ledger[id].status == Applied ==> TookEffect(s, id))
  }

  lemma ClaimKeepsSound(s: Server, op: Input)
    requires LedgerSound(s) && op.id !in s.ledger
    ensures LedgerSound(Claim(s, op))
  {
  }

  lemma ResolveKeepsSound(s: Server, op: Input, v: Verdict)
    requires LedgerSound(s) && op.id in s.ledger && s.ledger[op.id].status == Pending
    ensures LedgerSound(Resolve(s, op, v).0)
    ensures TookEffect(Resolve(s, op, v).0, op.id) <==> v.Accept?
  {
    var after := Resolve(s, op, v).0;
    if v.Accept? {
      assert after.effects[|s.effects|] == op;
    }
    forall id | id in after.ledger && after.ledger[id].status == Applied
      ensures TookEffect(after, id)
    {
      if id != op.id {
        assert TookEffect(s, id);
        var i :| 0 <= i < |s.effects| && s.effects[i].id == id;
        assert after.effects[i].id == id;
      }
    }
  }

  /** When is a success answer true? Exactly when the ledger did not already hold the
      operation in a state other than applied. `duplicate` is also answered for rows
      that were refused, held for review, or never finished. */
  lemma SuccessIsTruthful(s: Server, op: Input, v: Verdict)
    requires LedgerSound(s) && IsSuccess(ApplyOperation(s, op, true, v).1)
    ensures LedgerSound(ApplyOperation(s, op, true, v).0)
    ensures TookEffect(ApplyOperation(s, op, true, v).0, op.id)
            <==> !(op.id in s.ledger && s.ledger[op.id].status != Applied)
  {
    if op.id !in s.ledger {
      ClaimKeepsSound(s, op);
      ResolveKeepsSound(Claim(s, op), op, v);
    } else if TookEffect(s, op.id) {
      var i :| 0 <= i < |s.effects| && s.effects[i].id == op.id;
      assert s.ledger[s.effects[i].id].status == Applied;
    }
  }

  /** What one submission leaves behind. */
  lemma SubmissionSound(s: Server, op: Input, admitted: bool, v: Verdict)
    requires LedgerSound(s)
    ensures var (after, answer) := ApplyOperation(s, op, admitted, v);
            && LedgerSound(after)
            && (admitted && op.id !in s.ledger ==> (IsSuccess(answer) <==> TookEffect(after, op.id)))
            && (admitted && IsSuccess(answer) ==>
                  (TookEffect(after, op.id) <==> !(op.id in s.ledger && s.ledger[op.id].status != Applied)))
            && (forall id :: id != op.id ==> (TookEffect(after, id) <==> TookEffect(s, id)))
  {
    var after := ApplyOperation(s, op, admitted, v).0;
    if admitted && op.id !in s.ledger {
      ClaimKeepsSound(s, op);
      ResolveKeepsSound(Claim(s, op), op, v);
    }
    if admitted && IsSuccess(ApplyOperation(s, op, true, v).1) {
      SuccessIsTruthful(s, op, v);
    }
    forall id | TookEffect(s, id)
      ensures TookEffect(after, id)
    {
      var i :| 0 <= i < |s.effects| && s.effects[i].id == id;
      assert after.effects[i].id == id;
    }
    forall id | id != op.id && TookEffect(after, id)
      ensures TookEffect(s, id)
    {
      var i :| 0 <= i < |after.effects| && after.effects[i].id == id;
      assert s.effects[i].id == id;
    }
  }

  lemma {:induction false} BatchKeepsRows(s: Server, batch: seq<Submission>, id: OpId)
    requires id in s.ledger
    ensures id in ApplyBatch(s, batch).0.ledger && ApplyBatch(s, batch).0.ledger[id] == s.ledger[id]
  {
    if batch != [] {
      BatchKeepsRows(s, batch[..|batch| - 1], id);
    }
  }

  lemma OneSubmitted(s: Server, x: Submission)
    ensures ApplyBatch(s, [x]).0 == ApplyOperation(s, x.op, x.admitted, x.verdict).0
    ensures ApplyBatch(s, [x]).1 == [ApplyOperation(s, x.op, x.admitted, x.verdict).1]
  {
    assert [x][..0] == [];
  }

  /** A batch is its parts, one after the other: no operation affects an earlier answer. */
  lemma {:induction false} BatchSplits(s: Server, first: seq<Submission>, second: seq<Submission>)
    ensures ApplyBatch(s, first + second).0 == ApplyBatch(ApplyBatch(s, first).0, second).0
    ensures ApplyBatch(s, first + second).1 == ApplyBatch(s, first).1 + ApplyBatch(ApplyBatch(s, first).0, second).1
  {
    if second == [] {
      assert first + second == first;
    } else {
      var rest, last := second[..|second| - 1], second[|second| - 1];
      assert (first + second)[..|first + second| - 1] == first + rest && (first + second)[|first + second| - 1] == last;
      BatchSplits(s, first, rest);
      hide ApplyOperation;
      assert ApplyBatch(s, first + second).0 ==
             ApplyOperation(ApplyBatch(s, first + rest).0, last.op, last.admitted, last.verdict).0;
    }
  }

  lemma {:induction false} BatchKeepsSound(s: Server, batch: seq<Submission>)
    requires LedgerSound(s)
    ensures LedgerSound(ApplyBatch(s, batch).0)
  {
    if batch != [] {
      BatchKeepsSound(s, batch[..|batch| - 1]);
      var mid, last := ApplyBatch(s, batch[..|batch| - 1]).0, batch[|batch| - 1];
      if last.admitted && last.op.id !in mid.ledger {
        ClaimKeepsSound(mid, last.op);
        ResolveKeepsSound(Claim(mid, last.op), last.op, last.verdict);
      }
    }
  }

  /** Replay is safe: after an operation was submitted, submitting its id again at any
      later point changes nothing and returns the result of the first application. */
  lemma {:induction false} ReplayReturnsOriginal(s: Server, op: Input, v: Verdict, between: seq<Submission>, again: Submission)
    requires op.id !in s.ledger && again.op.id == op.id && again.admitted
    ensures var first := ApplyOperation(s, op, true, v);
            var later := ApplyBatch(first.0, between).0;
            ApplyOperation(later, again.op, true, again.verdict) == (later, Answer(op.id, AnsweredDuplicate, first.1.result))
  {
    BatchKeepsRows(ApplyOperation(s, op, true, v).0, between, op.id);
  }
}
