/** Concurrent audit writers: transactions that append rows under the chain lock, with
    savepoints, commits and rollbacks, in every interleaving. Reads are READ COMMITTED:
    a transaction sees the committed rows and its own. */
module AuditWriters {
  import opened Common
  import opened AuditChain

  type TxnId = int

  /** Where a transaction is inside `_write`: outside it, past the lock, or past the read
      of the tail with the hash it read. */
  datatype Step = Idle | Locked | TailRead(hash: string)

  /** A savepoint: how many uncommitted rows existed, and whether the lock was held,
      when it was taken. Rolling back to it restores both. */
  datatype Savepoint = Savepoint(rows: nat, held: bool)

  /** Every transaction has uncommitted rows of its own; nothing but the order of the
      steps in `_write` keeps two from writing at once. */
  datatype Txn = Txn(rows: seq<Entry>, at: Step, savepoints: seq<Savepoint>)

  datatype State = State(committed: seq<Entry>, nextId: int, lock: Option<TxnId>, open: map<TxnId, Txn>)

  datatype Action =
    | Begin(t: TxnId)
    | LockChain(t: TxnId)
    | ReadTail(t: TxnId)
    | InsertRow(t: TxnId, payload: string, userAgent: string)
    | OpenSavepoint(t: TxnId)
    | ReleaseSavepoint(t: TxnId)
    | RollbackToSavepoint(t: TxnId)
    | Commit(t: TxnId)
    | Rollback(t: TxnId)

  const Initial := State([], 1, None, map[])

  /** What a transaction reads. */
  function Visible(s: State, x: Txn): seq<Entry> { s.committed + x.rows }

  predicate Holds(s: State, t: TxnId) { s.lock == Some(t) }

  function Freed(s: State, t: TxnId): Option<TxnId> { if Holds(s, t) then None else s.lock }

  predicate HashTaken(rows: seq<Entry>, hash: string) {
    exists i :: 0 <= i < |rows| && rows[i].rowHash == hash
  }

  /** The transaction after inserting, behind the hash it read. */
  function Inserting(h: Digest, s: State, x: Txn, payload: string, userAgent: string): Txn
    requires x.at.TailRead?
  {
    var row := NewEntry(h, x.at.hash, s.nextId, payload, userAgent);
    // `row_hash` is unique: a repeated value is refused by the database
    x.(at := Idle, rows := if HashTaken(Visible(s, x), row.rowHash) then x.rows else x.rows + [row])
  }

  /** The transaction after rolling back to its last savepoint. */
  function RolledBack(x: Txn): Txn
    requires x.savepoints != []
  {
    var last := |x.savepoints| - 1;
    var kept := x.savepoints[last].rows;
    Txn(if kept <= |x.rows| then x.rows[..kept] else x.rows, Idle, x.savepoints[..last])
  }

  /** One step of one transaction. A step that is not enabled (a lock someone else
      holds, a transaction that is not open) leaves the state as it is: the caller waits. */
  function Apply(h: Digest, s: State, a: Action): State {
    if a.Begin? then
      if a.t in s.open then s else s.(open := s.open[a.t := Txn([], Idle, [])])
    else if a.t !in s.open then s
    else
      var x := s.open[a.t];
      match a
      case Begin(t) => s
      case LockChain(t) =>
        if x.at != Idle || (s.lock.Some? && !Holds(s, t)) then s
        else s.(lock := Some(t), open := s.open[t := x.(at := Locked)])
      case ReadTail(t) =>
        if x.at != Locked then s else s.(open := s.open[t := x.(at := TailRead(TailHash(Visible(s, x))))])
      case InsertRow(t, payload, userAgent) =>
        if !x.at.TailRead? then s
        else s.(nextId := s.nextId + 1, open := s.open[t := Inserting(h, s, x, payload, userAgent)])
      case OpenSavepoint(t) =>
        s.(open := s.open[t := x.(savepoints := x.savepoints + [Savepoint(|x.rows|, Holds(s, t))])])
      case ReleaseSavepoint(t) =>
        if x.savepoints == [] then s
        else s.(open := s.open[t := x.(savepoints := x.savepoints[..|x.savepoints| - 1])])
      case RollbackToSavepoint(t) =>
        if x.savepoints == [] then s
        else s.(lock := if x.savepoints[|x.savepoints| - 1].held then s.lock else Freed(s, t),
                open := s.open[t := RolledBack(x)])
      case Commit(t) => s.(committed := Visible(s, x), lock := Freed(s, t), open := s.open - {t})
      case Rollback(t) => s.(lock := Freed(s, t), open := s.open - {t})
  }

  function Exec(h: Digest, s: State, actions: seq<Action>): State {
    if actions == [] then s
    else Apply(h, Exec(h, s, actions[..|actions| - 1]), actions[|actions| - 1])
  }

  // -------------------------------------------------------------- invariant

  ghost predicate HashesDistinct(rows: seq<Entry>) {
    forall i, j :: 0 <= i < j < |rows| ==> rows[i].rowHash != rows[j].rowHash
  }

  ghost predicate LogSound(h: Digest, rows: seq<Entry>, nextId: int) {
    && Intact(h, GENESIS, rows) && IdsIncrease(rows) && HashesDistinct(rows)
    && 0 < nextId && forall i :: 0 <= i < |rows| ==> 0 < rows[i].id < nextId
  }

  ghost predicate StackSound(stack: seq<Savepoint>, holder: bool, rows: nat) {
    && (forall i :: 0 <= i < |stack| ==> stack[i].rows <= rows)
    && (forall i :: 0 <= i < |stack| ==> !stack[i].held ==> stack[i].rows == 0)
    && (forall i :: 0 <= i < |stack| ==> stack[i].held ==> holder)
    && (forall i, j :: 0 <= i < j < |stack| ==> stack[i].rows <= stack[j].rows && (stack[i].held ==> stack[j].held))
  }

  /** The committed rows and the transaction's own are one sound log; only the holder of
      the lock is inside `_write` or has rows, and what it read is still the tail. */
  ghost predicate TxnSound(h: Digest, committed: seq<Entry>, nextId: int, x: Txn, holder: bool) {
    && LogSound(h, committed + x.rows, nextId) && StackSound(x.savepoints, holder, |x.rows|)
    && (!holder ==> x.rows == [] && x.at == Idle)
    && (x.at.TailRead? ==> x.at.hash == TailHash(committed + x.rows))
  }

  ghost predicate Inv(h: Digest, s: State) {
    && LogSound(h, s.committed, s.nextId) && (s.lock.Some? ==> s.lock.value in s.open)
    && forall t :: t in s.open ==> TxnSound(h, s.committed, s.nextId, s.open[t], Holds(s, t))
  }

  lemma PrefixSound(h: Digest, rows: seq<Entry>, nextId: int, k: nat)
    requires LogSound(h, rows, nextId) && k <= |rows|
    ensures LogSound(h, rows[..k], nextId)
  {
    IntactPrefix(h, GENESIS, rows, k);
  }

  lemma InsertSound(h: Digest, rows: seq<Entry>, nextId: int, payload: string, userAgent: string)
    requires FixedWidth(h) && LogSound(h, rows, nextId)
    ensures LogSound(h, rows, nextId + 1)
    ensures var row := NewEntry(h, TailHash(rows), nextId, payload, userAgent);
            !HashTaken(rows, row.rowHash) ==> LogSound(h, rows + [row], nextId + 1)
  {
    AppendIntact(h, rows, TailHash(rows), nextId, payload, userAgent);
  }

  /** A transaction that holds nothing is as sound over any sound log. */
  lemma BystanderSound(h: Digest, committed: seq<Entry>, nextId: int, x: Txn, log: seq<Entry>, next: int)
    requires TxnSound(h, committed, nextId, x, false) && LogSound(h, log, next)
    ensures TxnSound(h, log, next, x, false)
  {
    assert log + [] == log;
  }

  /** One transaction changed, and the lock moved at most to or from it. */
  lemma OneChanged(h: Digest, s: State, t: TxnId, x: Txn, nextId: int, lock: Option<TxnId>)
    requires Inv(h, s) && t in s.open && LogSound(h, s.committed, nextId)
    requires lock == s.lock || lock == Freed(s, t) || (lock == Some(t) && s.lock == None)
    requires nextId == s.nextId || Holds(s, t)
    requires TxnSound(h, s.committed, nextId, x, lock == Some(t))
    ensures Inv(h, s.(nextId := nextId, lock := lock, open := s.open[t := x]))
  {
    hide LogSound, StackSound, TxnSound;
    var after := s.(nextId := nextId, lock := lock, open := s.open[t := x]);
    forall u | u in after.open
      ensures TxnSound(h, after.committed, after.nextId, after.open[u], Holds(after, u))
    {
      if u != t && nextId != s.nextId {
        BystanderSound(h, s.committed, s.nextId, s.open[u], s.committed, nextId);
      }
    }
  }

  /** A transaction ends, leaving `log` committed; whoever else is open holds nothing if
      that is more than before. */
  lemma OneEnded(h: Digest, s: State, t: TxnId, log: seq<Entry>)
    requires Inv(h, s) && t in s.open && LogSound(h, log, s.nextId) && (log == s.committed || Holds(s, t))
    ensures Inv(h, s.(committed := log, lock := Freed(s, t), open := s.open - {t}))
  {
    hide LogSound, StackSound, TxnSound;
    var after := s.(committed := log, lock := Freed(s, t), open := s.open - {t});
    forall u | u in after.open
      ensures TxnSound(h, after.committed, after.nextId, after.open[u], Holds(after, u))
    {
      if log != s.committed {
        BystanderSound(h, s.committed, s.nextId, s.open[u], log, s.nextId);
      }
    }
  }

  // ------------------------------------------------------- steps keep it

  lemma LockKeeps(h: Digest, s: State, a: Action)
    requires Inv(h, s) && a.t in s.open && (a.LockChain? || a.ReadTail?)
    ensures Inv(h, Apply(h, s, a))
  {
    var x := s.open[a.t];
    assert TxnSound(h, s.committed, s.nextId, x, Holds(s, a.t));
    if a.LockChain? && x.at == Idle && (s.lock.None? || Holds(s, a.t)) {
      OneChanged(h, s, a.t, x.(at := Locked), s.nextId, Some(a.t));
    } else if a.ReadTail? && x.at == Locked {
      OneChanged(h, s, a.t, x.(at := TailRead(TailHash(Visible(s, x)))), s.nextId, s.lock);
    }
  }

  lemma InsertKeeps(h: Digest, s: State, a: Action)
    requires FixedWidth(h) && Inv(h, s) && a.InsertRow? && a.t in s.open
    ensures Inv(h, Apply(h, s, a))
  {
    var x := s.open[a.t];
    assert TxnSound(h, s.committed, s.nextId, x, Holds(s, a.t));
    if x.at.TailRead? {
      InsertSound(h, Visible(s, x), s.nextId, a.payload, a.userAgent);
      InsertSound(h, s.committed, s.nextId, a.payload, a.userAgent);
      var y := Inserting(h, s, x, a.payload, a.userAgent);
      InsertedSound(h, s, x, a.payload, a.userAgent);
      hide LogSound, TxnSound, Inserting;
      OneChanged(h, s, a.t, y, s.nextId + 1, s.lock);
    }
  }

  lemma InsertedSound(h: Digest, s: State, x: Txn, payload: string, userAgent: string)
    requires FixedWidth(h) && TxnSound(h, s.committed, s.nextId, x, true) && x.at.TailRead?
    ensures TxnSound(h, s.committed, s.nextId + 1, Inserting(h, s, x, payload, userAgent), true)
  {
    InsertSound(h, Visible(s, x), s.nextId, payload, userAgent);
    var row := NewEntry(h, x.at.hash, s.nextId, payload, userAgent);
    assert s.committed + (x.rows + [row]) == Visible(s, x) + [row];
  }

  lemma StackPushed(stack: seq<Savepoint>, holder: bool, rows: nat)
    requires StackSound(stack, holder, rows) && (!holder ==> rows == 0)
    ensures StackSound(stack + [Savepoint(rows, holder)], holder, rows)
  {
  }

  lemma RolledBackSound(h: Digest, committed: seq<Entry>, nextId: int, x: Txn, holder: bool)
    requires TxnSound(h, committed, nextId, x, holder) && x.savepoints != []
    ensures TxnSound(h, committed, nextId, RolledBack(x), holder && x.savepoints[|x.savepoints| - 1].held)
  {
    var kept := x.savepoints[|x.savepoints| - 1].rows;
    PrefixSound(h, committed + x.rows, nextId, |committed| + kept);
    assert (committed + x.rows)[..|committed| + kept] == committed + x.rows[..kept];
  }

  lemma SavepointKeeps(h: Digest, s: State, a: Action)
    requires Inv(h, s) && a.t in s.open && (a.OpenSavepoint? || a.ReleaseSavepoint? || a.RollbackToSavepoint?)
    ensures Inv(h, Apply(h, s, a))
  {
    var x := s.open[a.t];
    assert TxnSound(h, s.committed, s.nextId, x, Holds(s, a.t));
    if a.OpenSavepoint? {
      StackPushed(x.savepoints, Holds(s, a.t), |x.rows|);
      OneChanged(h, s, a.t, x.(savepoints := x.savepoints + [Savepoint(|x.rows|, Holds(s, a.t))]), s.nextId, s.lock);
    } else if x.savepoints != [] && a.ReleaseSavepoint? {
      OneChanged(h, s, a.t, x.(savepoints := x.savepoints[..|x.savepoints| - 1]), s.nextId, s.lock);
    } else if x.savepoints != [] {
      RolledBackSound(h, s.committed, s.nextId, x, Holds(s, a.t));
      hide LogSound, TxnSound, RolledBack;
      var held := x.savepoints[|x.savepoints| - 1].held;
      OneChanged(h, s, a.t, RolledBack(x), s.nextId, if held then s.lock else Freed(s, a.t));
    }
  }

  lemma EndKeeps(h: Digest, s: State, a: Action)
    requires Inv(h, s) && a.t in s.open && (a.Commit? || a.Rollback?)
    ensures Inv(h, Apply(h, s, a))
  {
    var x := s.open[a.t];
    assert TxnSound(h, s.committed, s.nextId, x, Holds(s, a.t));
    assert x.rows == [] ==> Visible(s, x) == s.committed;
    OneEnded(h, s, a.t, if a.Commit? then Visible(s, x) else s.committed);
  }

  lemma BeginKeeps(h: Digest, s: State, t: TxnId)
    requires Inv(h, s) && t !in s.open
    ensures Inv(h, s.(open := s.open[t := Txn([], Idle, [])]))
  {
    assert s.committed + [] == s.committed;
  }

  lemma StepKeepsInv(h: Digest, s: State, a: Action)
    requires FixedWidth(h) && Inv(h, s)
    ensures Inv(h, Apply(h, s, a))
  {
    hide Inv;
    if a.Begin? {
      if a.t !in s.open {
        BeginKeeps(h, s, a.t);
      }
    } else if a.t in s.open {
      match a
      case InsertRow(_, _, _) => InsertKeeps(h, s, a);
      case Commit(_) => EndKeeps(h, s, a);
      case Rollback(_) => EndKeeps(h, s, a);
      case LockChain(_) => LockKeeps(h, s, a);
      case ReadTail(_) => LockKeeps(h, s, a);
      case _ => SavepointKeeps(h, s, a);
    }
  }

  lemma {:induction false} RunKeepsInv(h: Digest, actions: seq<Action>)
    requires FixedWidth(h)
    ensures Inv(h, Exec(h, Initial, actions))
  {
    if actions != [] {
      RunKeepsInv(h, actions[..|actions| - 1]);
      StepKeepsInv(h, Exec(h, Initial, actions[..|actions| - 1]), actions[|actions| - 1]);
    }
  }

  // ---------------------------------------------------------------- theorems

  /** In every interleaving at most one transaction has uncommitted rows or is between the
      lock and the insert, and it is the one that holds the lock. */
  lemma OneWriterAtATime(h: Digest, actions: seq<Action>, t: TxnId)
    requires FixedWidth(h) && t in Exec(h, Initial, actions).open
    ensures var s := Exec(h, Initial, actions);
            s.open[t].rows != [] || s.open[t].at != Idle ==> s.lock == Some(t)
  {
    RunKeepsInv(h, actions);
    var s := Exec(h, Initial, actions);
    assert TxnSound(h, s.committed, s.nextId, s.open[t], Holds(s, t));
  }

  /** In every interleaving, what any verifier reads (the committed log, or any open
      transaction's view of it) is reported intact in full. */
  lemma EveryInterleavingVerifies(h: Digest, actions: seq<Action>, committed: Report)
    requires FixedWidth(h) && Describes(committed, h, GENESIS, Exec(h, Initial, actions).committed)
    ensures var s := Exec(h, Initial, actions);
            && committed == Report(true, |s.committed|, None, ChainIntact)
            && forall t, own :: t in s.open && Describes(own, h, GENESIS, Visible(s, s.open[t])) ==>
                 own == Report(true, |Visible(s, s.open[t])|, None, ChainIntact)
  {
    var s := Exec(h, Initial, actions);
    RunKeepsInv(h, actions);
    assert s.committed[..|s.committed|] == s.committed;
    TruncationVerifies(h, s.committed, |s.committed|, committed);
    forall t, own | t in s.open && Describes(own, h, GENESIS, Visible(s, s.open[t]))
      ensures own == Report(true, |Visible(s, s.open[t])|, None, ChainIntact)
    {
      assert TxnSound(h, s.committed, s.nextId, s.open[t], Holds(s, t));
      var log := Visible(s, s.open[t]);
      assert log[..|log|] == log;
      TruncationVerifies(h, log, |log|, own);
    }
  }

  /** In every interleaving, no two committed rows name the same predecessor hash. The
      one way around it is a row whose own hash is the genesis value, whose successor
      then names what the first row names. */
  lemma NoSharedPredecessor(h: Digest, actions: seq<Action>, i: nat, j: nat)
    requires FixedWidth(h) && i < j < |Exec(h, Initial, actions).committed|
    ensures var log := Exec(h, Initial, actions).committed;
            log[i].prevHash == log[j].prevHash <==> i == 0 && log[j - 1].rowHash == GENESIS
  {
    var s := Exec(h, Initial, actions);
    RunKeepsInv(h, actions);
    assert LinkHolds(h, GENESIS, s.committed, i) && LinkHolds(h, GENESIS, s.committed, j);
  }

  /** Append-only: whatever happens next, the committed log is only extended. */
  lemma {:induction false} CommittedOnlyGrows(h: Digest, before: State, actions: seq<Action>)
    ensures before.committed <= Exec(h, before, actions).committed
  {
    if actions != [] {
      CommittedOnlyGrows(h, before, actions[..|actions| - 1]);
    }
  }

  // --------------------------------------------------------------- nothing lost

  /** What a caller hands to `_write`. */
  datatype Record = Record(payload: string, userAgent: string)

  /** An account of the run kept from its actions alone: what each open transaction has
      written and not taken back, where it is in `_write` (0 outside, 1 past the lock, 2
      past the read), what its savepoints would bring back, who holds the lock, and what
      has been committed, in commit order. */
  datatype Mark = Mark(records: seq<Record>, held: bool)

  datatype Draft = Draft(records: seq<Record>, stage: nat, marks: seq<Mark>)

  datatype Account = Account(drafts: map<TxnId, Draft>, holder: Option<TxnId>, kept: seq<Record>)

  function Released(b: Account, t: TxnId): Option<TxnId> { if b.holder == Some(t) then None else b.holder }

  /** `refused` says that the database turned an insert away for its hash. */
  function Noted(b: Account, a: Action, refused: bool): Account {
    if a.Begin? then
      if a.t in b.drafts then b else b.(drafts := b.drafts[a.t := Draft([], 0, [])])
    else if a.t !in b.drafts then b
    else
      var d := b.drafts[a.t];
      match a
      case Begin(t) => b
      case LockChain(t) =>
        if d.stage != 0 || (b.holder.Some? && b.holder != Some(t)) then b
        else b.(holder := Some(t), drafts := b.drafts[t := d.(stage := 1)])
      case ReadTail(t) => if d.stage != 1 then b else b.(drafts := b.drafts[t := d.(stage := 2)])
      case InsertRow(t, payload, userAgent) =>
        if d.stage != 2 then b
        else b.(drafts := b.drafts[t := d.(stage := 0, records := d.records + if refused then [] else [Record(payload, userAgent)])])
      case OpenSavepoint(t) => b.(drafts := b.drafts[t := d.(marks := d.marks + [Mark(d.records, b.holder == Some(t))])])
      case ReleaseSavepoint(t) =>
        if d.marks == [] then b else b.(drafts := b.drafts[t := d.(marks := d.marks[..|d.marks| - 1])])
      case RollbackToSavepoint(t) =>
        if d.marks == [] then b
        else
          var mark := d.marks[|d.marks| - 1];
          b.(holder := if mark.held then b.holder else Released(b, t),
             drafts := b.drafts[t := Draft(mark.records, 0, d.marks[..|d.marks| - 1])])
      case Commit(t) => Account(b.drafts - {t}, Released(b, t), b.kept + d.records)
      case Rollback(t) => Account(b.drafts - {t}, Released(b, t), b.kept)
  }

  /** The unique hash would be repeated. */
  predicate Refused(h: Digest, s: State, a: Action) {
    a.InsertRow? && a.t in s.open && s.open[a.t].at.TailRead?
    && HashTaken(Visible(s, s.open[a.t]), h(s.open[a.t].at.hash + a.payload))
  }

  function AccountOf(h: Digest, actions: seq<Action>): Account {
    if actions == [] then Account(map[], None, [])
    else
      var last := |actions| - 1;
      Noted(AccountOf(h, actions[..last]), actions[last], Refused(h, Exec(h, Initial, actions[..last]), actions[last]))
  }

  function Records(rows: seq<Entry>): (r: seq<Record>)
    ensures |r| == |rows|
  {
    if rows == [] then [] else Records(rows[..|rows| - 1]) + [Record(rows[|rows| - 1].payload, rows[|rows| - 1].userAgent)]
  }

  lemma {:induction false} RecordsAppend(x: seq<Entry>, y: seq<Entry>)
    ensures Records(x + y) == Records(x) + Records(y)
  {
    if y == [] {
      assert x + y == x;
    } else {
      assert (x + y)[..|x + y| - 1] == x + y[..|y| - 1];
      RecordsAppend(x, y[..|y| - 1]);
    }
  }

  lemma RecordsPrefix(x: seq<Entry>, k: nat)
    requires k <= |x|
    ensures Records(x[..k]) == Records(x)[..k]
  {
    assert x == x[..k] + x[k..];
    RecordsAppend(x[..k], x[k..]);
  }

  predicate StageOf(at: Step, stage: nat) {
    match at
    case Idle => stage == 0
    case Locked => stage == 1
    case TailRead(_) => stage == 2
  }

  /** The draft tells the same as the transaction. */
  ghost predicate Tells(x: Txn, d: Draft) {
    && d.records == Records(x.rows) && StageOf(x.at, d.stage) && |d.marks| == |x.savepoints|
    && forall i :: 0 <= i < |d.marks| ==>
         && x.savepoints[i].rows <= |x.rows| && d.marks[i].held == x.savepoints[i].held
         && d.marks[i].records == d.records[..x.savepoints[i].rows]
  }

  ghost predicate Accounted(s: State, b: Account) {
    && b.kept == Records(s.committed) && b.holder == s.lock && b.drafts.Keys == s.open.Keys
    && forall t :: t in s.open ==> Tells(s.open[t], b.drafts[t])
  }

  lemma InsertTold(h: Digest, s: State, x: Txn, d: Draft, payload: string, userAgent: string)
    requires Tells(x, d) && x.at.TailRead?
    ensures var refused := HashTaken(Visible(s, x), h(x.at.hash + payload));
            Tells(Inserting(h, s, x, payload, userAgent),
                  d.(stage := 0, records := d.records + if refused then [] else [Record(payload, userAgent)]))
  {
    var row := NewEntry(h, x.at.hash, s.nextId, payload, userAgent);
    RecordsAppend(x.rows, [row]);
    assert [row][..0] == [] && Records([row]) == [Record(payload, userAgent)];
  }

  lemma RollbackTold(x: Txn, d: Draft, holder: bool)
    requires Tells(x, d) && d.marks != [] && StackSound(x.savepoints, holder, |x.rows|)
    ensures Tells(RolledBack(x), Draft(d.marks[|d.marks| - 1].records, 0, d.marks[..|d.marks| - 1]))
  {
    RecordsPrefix(x.rows, x.savepoints[|x.savepoints| - 1].rows);
  }

  /** One transaction and its draft changed; the rest tells the same as before. */
  lemma OneTold(s: State, b: Account, t: TxnId, x: Txn, d: Draft, nextId: int, lock: Option<TxnId>)
    requires Accounted(s, b) && t in s.open && Tells(x, d)
    ensures Accounted(s.(nextId := nextId, lock := lock, open := s.open[t := x]), b.(holder := lock, drafts := b.drafts[t := d]))
  {
  }

  lemma InsertAccounted(h: Digest, s: State, b: Account, a: Action)
    requires Accounted(s, b) && a.t in s.open && a.InsertRow?
    ensures Accounted(Apply(h, s, a), Noted(b, a, Refused(h, s, a)))
  {
    var x, d := s.open[a.t], b.drafts[a.t];
    assert Tells(x, d);
    if x.at.TailRead? {
      InsertTold(h, s, x, d, a.payload, a.userAgent);
      hide Inserting, HashTaken, Accounted, Tells;
      OneTold(s, b, a.t, Inserting(h, s, x, a.payload, a.userAgent), Noted(b, a, Refused(h, s, a)).drafts[a.t], s.nextId + 1, s.lock);
    }
  }

  lemma RollbackAccounted(h: Digest, s: State, b: Account, a: Action)
    requires Inv(h, s) && Accounted(s, b) && a.t in s.open && a.RollbackToSavepoint?
    ensures Accounted(Apply(h, s, a), Noted(b, a, false))
  {
    var x, d := s.open[a.t], b.drafts[a.t];
    assert Tells(x, d) && TxnSound(h, s.committed, s.nextId, x, Holds(s, a.t));
    if x.savepoints != [] {
      RollbackTold(x, d, Holds(s, a.t));
      var held := x.savepoints[|x.savepoints| - 1].held;
      hide RolledBack, Accounted, Tells, Inv;
      OneTold(s, b, a.t, RolledBack(x), Draft(d.marks[|d.marks| - 1].records, 0, d.marks[..|d.marks| - 1]), s.nextId,
              if held then s.lock else Freed(s, a.t));
    }
  }

  lemma EndAccounted(h: Digest, s: State, b: Account, a: Action)
    requires Accounted(s, b) && a.t in s.open && (a.Commit? || a.Rollback?)
    ensures Accounted(Apply(h, s, a), Noted(b, a, false))
  {
    assert Tells(s.open[a.t], b.drafts[a.t]);
    RecordsAppend(s.committed, s.open[a.t].rows);
    hide Tells;
  }

  lemma LockAccounted(h: Digest, s: State, b: Account, a: Action)
    requires Accounted(s, b) && a.t in s.open && (a.LockChain? || a.ReadTail?)
    ensures Accounted(Apply(h, s, a), Noted(b, a, false))
  {
    assert Tells(s.open[a.t], b.drafts[a.t]);
  }

  lemma SavepointAccounted(h: Digest, s: State, b: Account, a: Action)
    requires Accounted(s, b) && a.t in s.open && (a.OpenSavepoint? || a.ReleaseSavepoint?)
    ensures Accounted(Apply(h, s, a), Noted(b, a, false))
  {
    var x, d := s.open[a.t], b.drafts[a.t];
    assert Tells(x, d) && d.records[..|x.rows|] == d.records;
    if a.OpenSavepoint? {
      OneTold(s, b, a.t, x.(savepoints := x.savepoints + [Savepoint(|x.rows|, Holds(s, a.t))]),
              d.(marks := d.marks + [Mark(d.records, b.holder == Some(a.t))]), s.nextId, s.lock);
    } else if x.savepoints != [] {
      OneTold(s, b, a.t, x.(savepoints := x.savepoints[..|x.savepoints| - 1]),
              d.(marks := d.marks[..|d.marks| - 1]), s.nextId, s.lock);
    }
  }

  lemma StepAccounted(h: Digest, s: State, b: Account, a: Action)
    requires Inv(h, s) && Accounted(s, b)
    ensures Accounted(Apply(h, s, a), Noted(b, a, Refused(h, s, a)))
  {
    if a.Begin? {
      assert Tells(Txn([], Idle, []), Draft([], 0, []));
    } else if a.t in s.open {
      hide Apply, Noted, Accounted, Inv;
      match a
      case InsertRow(_, _, _) => InsertAccounted(h, s, b, a);
      case RollbackToSavepoint(_) => RollbackAccounted(h, s, b, a);
      case Commit(_) => EndAccounted(h, s, b, a);
      case Rollback(_) => EndAccounted(h, s, b, a);
      case OpenSavepoint(_) => SavepointAccounted(h, s, b, a);
      case ReleaseSavepoint(_) => SavepointAccounted(h, s, b, a);
      case _ => LockAccounted(h, s, b, a);
    }
  }

  /** Nothing is lost and nothing else gets in: over every run, the committed log is, row
      by row and in commit order, exactly what the committed transactions inserted and no
      rollback took back, leaving out the inserts refused for a repeated hash. */
  lemma {:induction false} CommittedExactly(h: Digest, actions: seq<Action>)
    requires FixedWidth(h)
    ensures Records(Exec(h, Initial, actions).committed) == AccountOf(h, actions).kept
    ensures Accounted(Exec(h, Initial, actions), AccountOf(h, actions))
  {
    if actions != [] {
      var last := |actions| - 1;
      CommittedExactly(h, actions[..last]);
      RunKeepsInv(h, actions[..last]);
      hide Apply, Noted, Inv, Accounted;
      StepAccounted(h, Exec(h, Initial, actions[..last]), AccountOf(h, actions[..last]), actions[last]);
      AccountedKept(Exec(h, Initial, actions), AccountOf(h, actions));
    }
  }

  lemma AccountedKept(s: State, b: Account)
    requires Accounted(s, b)
    ensures Records(s.committed) == b.kept
  {
  }

  /** One `_write` and its commit, with the lock free: the log grows by exactly that row,
      unless its hash repeats one already there. */
  lemma WriteThenCommit(h: Digest, s: State, t: TxnId, payload: string, userAgent: string)
    requires t in s.open && s.open[t] == Txn([], Idle, []) && s.lock.None?
    ensures var row := Entry(s.nextId, payload, userAgent, TailHash(s.committed), h(TailHash(s.committed) + payload));
            var after := Exec(h, s, [LockChain(t), ReadTail(t), InsertRow(t, payload, userAgent), Commit(t)]);
            after.committed == s.committed + (if HashTaken(s.committed, row.rowHash) then [] else [row]) && after.lock.None?
  {
    var a0, a1, a2, a3 := LockChain(t), ReadTail(t), InsertRow(t, payload, userAgent), Commit(t);
    var s2 := s.(lock := Some(t), open := s.open[t := Txn([], TailRead(TailHash(s.committed)), [])]);
    assert Visible(s, s.open[t]) == s.committed;
    assert Apply(h, Apply(h, s, a0), a1) == s2 by {
      var s1 := s.(lock := Some(t), open := s.open[t := Txn([], Locked, [])]);
      assert Apply(h, s, a0) == s1 && Visible(s1, s1.open[t]) == s.committed;
      assert s1.open[t := Txn([], TailRead(TailHash(s.committed)), [])] == s2.open;
    }
    assert Visible(s2, s2.open[t]) == s.committed;
    FourSteps(h, s, a0, a1, a2, a3);
  }

  lemma FourSteps(h: Digest, s: State, a: Action, b: Action, c: Action, d: Action)
    ensures Exec(h, s, [a, b, c, d]) == Apply(h, Apply(h, Apply(h, Apply(h, s, a), b), c), d)
  {
    hide Apply;
    assert [a, b, c, d][..3] == [a, b, c] && [a, b, c][..2] == [a, b] && [a, b][..1] == [a] && [a][..0] == [];
    assert Exec(h, s, [a]) == Apply(h, s, a);
    assert Exec(h, s, [a, b]) == Apply(h, Exec(h, s, [a]), b);
    assert Exec(h, s, [a, b, c]) == Apply(h, Exec(h, s, [a, b]), c);
  }
}
