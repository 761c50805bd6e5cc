/** Identifier counters: allocation under a row lock, inside transactions that commit,
    roll back, or roll back to a savepoint, in every interleaving. */
module IdAllocation {
  import opened Common

  type TxnId = int

  /** A value taken from a counter. */
  datatype Ticket = Ticket(scope: string, value: nat)

  /** What a transaction has done and not yet committed: the counters it has locked with
      their new values, and the tickets it holds. */
  datatype Work = Work(counters: map<string, nat>, tickets: seq<Ticket>)

  datatype Txn = Txn(work: Work, savepoints: seq<Work>)

  datatype State = State(committed: map<string, nat>, open: map<TxnId, Txn>, issued: seq<Ticket>)

  datatype Action =
    | Begin(t: TxnId)
    | Allocate(t: TxnId, scope: string)
    | OpenSavepoint(t: TxnId)
    | ReleaseSavepoint(t: TxnId)
    | RollbackToSavepoint(t: TxnId)
    | Commit(t: TxnId)
    | Rollback(t: TxnId)

  const Initial := State(map[], map[], [])

  const NOTHING := Work(map[], [])

  /** The last value of a counter; a missing row counts from zero. */
  function Last(counters: map<string, nat>, scope: string): nat {
    if scope in counters then counters[scope] else 0
  }

  function Current(s: State, w: Work, scope: string): nat {
    if scope in w.counters then w.counters[scope] else Last(s.committed, scope)
  }

  predicate LockedByOther(s: State, t: TxnId, scope: string) {
    exists u :: u in s.open && u != t && scope in s.open[u].work.counters
  }

  /** The row is created if missing, locked, and incremented. */
  function Taking(s: State, w: Work, scope: string): Work {
    var value := Current(s, w, scope) + 1;
    Work(w.counters[scope := value], w.tickets + [Ticket(scope, value)])
  }

  /** One step of one transaction; a step that is not enabled (a row someone else has
      locked) leaves the state as it is: the caller waits. */
  function Apply(s: State, a: Action): State {
    if a.Begin? then
      if a.t in s.open then s else s.(open := s.open[a.t := Txn(NOTHING, [])])
    else if a.t !in s.open then s
    else
      var txn := s.open[a.t];
      match a
      case Begin(t) => s
      case Allocate(t, scope) =>
        if LockedByOther(s, t, scope) then s
        else s.(open := s.open[t := txn.(work := Taking(s, txn.work, scope))])
      case OpenSavepoint(t) => s.(open := s.open[t := txn.(savepoints := txn.savepoints + [txn.work])])
      case ReleaseSavepoint(t) =>
        if txn.savepoints == [] then s
        else s.(open := s.open[t := txn.(savepoints := txn.savepoints[..|txn.savepoints| - 1])])
      case RollbackToSavepoint(t) =>
        if txn.savepoints == [] then s
        else
          var last := |txn.savepoints| - 1;
          s.(open := s.open[t := Txn(txn.savepoints[last], txn.savepoints[..last])])
      case Commit(t) =>
        State(s.committed + txn.work.counters, s.open - {t}, s.issued + txn.work.tickets)
      case Rollback(t) => s.(open := s.open - {t})
  }

  function Exec(s: State, actions: seq<Action>): State {
    if actions == [] then s else Apply(Exec(s, actions[..|actions| - 1]), actions[|actions| - 1])
  }

  // -------------------------------------------------------------- invariant

  ghost predicate AllDistinct(tickets: seq<Ticket>) {
    forall i, j :: 0 <= i < j < |tickets| ==> tickets[i] != tickets[j]
  }

  predicate Between(low: nat, value: nat, high: nat) { low < value <= high }

  /** The tickets are, each once, exactly the values above what is committed up to the
      counters' new values. */
  ghost predicate WorkSound(committed: map<string, nat>, w: Work) {
    && AllDistinct(w.tickets)
    && (forall scope :: scope in w.counters ==> Last(committed, scope) <= w.counters[scope])
    && forall x :: x in w.tickets <==>
         x.scope in w.counters && Between(Last(committed, x.scope), x.value, w.counters[x.scope])
  }

  ghost predicate TxnSound(committed: map<string, nat>, txn: Txn) {
    && WorkSound(committed, txn.work)
    && (forall i :: 0 <= i < |txn.savepoints| ==> WorkSound(committed, txn.savepoints[i]))
    && (forall i :: 0 <= i < |txn.savepoints| ==> txn.savepoints[i].counters.Keys <= txn.work.counters.Keys)
    && (forall i, j :: 0 <= i < j < |txn.savepoints| ==>
          txn.savepoints[i].counters.Keys <= txn.savepoints[j].counters.Keys)
  }

  ghost predicate IssuedSound(s: State) {
    && AllDistinct(s.issued)
    && forall x :: x in s.issued <==> Between(0, x.value, Last(s.committed, x.scope))
  }

  ghost predicate LocksExclusive(s: State) {
    forall t, u :: t in s.open && u in s.open && t != u ==>
      s.open[t].work.counters.Keys !! s.open[u].work.counters.Keys
  }

  ghost predicate Inv(s: State) {
    && IssuedSound(s) && LocksExclusive(s)
    && forall t :: t in s.open ==> TxnSound(s.committed, s.open[t])
  }

  lemma TakingSound(s: State, w: Work, scope: string)
    requires WorkSound(s.committed, w)
    ensures WorkSound(s.committed, Taking(s, w, scope))
  {
  }

  /** Committing one transaction's work does not disturb the work of another, which
      holds none of the same locks. */
  lemma OthersUndisturbed(committed: map<string, nat>, mine: Work, w: Work)
    requires WorkSound(committed, w) && mine.counters.Keys !! w.counters.Keys
    ensures WorkSound(committed + mine.counters, w)
  {
  }

  lemma IssuedGrows(s: State, w: Work)
    requires IssuedSound(s) && WorkSound(s.committed, w)
    ensures IssuedSound(State(s.committed + w.counters, s.open, s.issued + w.tickets))
  {
  }

  lemma CommitKeepsInv(s: State, t: TxnId)
    requires Inv(s) && t in s.open
    ensures Inv(Apply(s, Commit(t)))
  {
    var mine, after := s.open[t].work, Apply(s, Commit(t));
    IssuedGrows(s, mine);
    forall u | u in after.open
      ensures TxnSound(after.committed, after.open[u])
    {
      var txn := s.open[u];
      assert TxnSound(s.committed, txn);
      OthersUndisturbed(s.committed, mine, txn.work);
      forall i | 0 <= i < |txn.savepoints|
        ensures WorkSound(after.committed, txn.savepoints[i])
      {
        OthersUndisturbed(s.committed, mine, txn.savepoints[i]);
      }
    }
  }

  lemma AllocateKeepsInv(s: State, t: TxnId, scope: string)
    requires Inv(s) && t in s.open && !LockedByOther(s, t, scope)
    ensures Inv(Apply(s, Allocate(t, scope)))
  {
    TakingSound(s, s.open[t].work, scope);
    var after := Apply(s, Allocate(t, scope));
    assert TxnSound(s.committed, s.open[t]);
    assert TxnSound(s.committed, after.open[t]);
    forall u, v | u in after.open && v in after.open && u != v
      ensures after.open[u].work.counters.Keys !! after.open[v].work.counters.Keys
    {
      assert s.open[u].work.counters.Keys !! s.open[v].work.counters.Keys;
      assert u != t ==> scope !in s.open[u].work.counters;
      assert v != t ==> scope !in s.open[v].work.counters;
    }
  }

  /** Replacing a transaction by one that is sound and holds no new lock. */
  lemma NarrowedKeepsInv(s: State, t: TxnId, txn: Txn)
    requires Inv(s) && t in s.open && TxnSound(s.committed, txn)
    requires txn.work.counters.Keys <= s.open[t].work.counters.Keys
    ensures Inv(s.(open := s.open[t := txn]))
  {
  }

  lemma SavepointKeepsInv(s: State, a: Action)
    requires Inv(s) && (a.OpenSavepoint? || a.ReleaseSavepoint? || a.RollbackToSavepoint?)
    ensures Inv(Apply(s, a))
  {
    if a.t in s.open && (a.OpenSavepoint? || s.open[a.t].savepoints != []) {
      assert TxnSound(s.committed, s.open[a.t]);
      NarrowedKeepsInv(s, a.t, Apply(s, a).open[a.t]);
    }
  }

  lemma StepKeepsInv(s: State, a: Action)
    requires Inv(s)
    ensures Inv(Apply(s, a))
  {
    match a
    case Begin(t) =>
    case Allocate(t, scope) =>
      if t in s.open && !LockedByOther(s, t, scope) {
        AllocateKeepsInv(s, t, scope);
      }
    case OpenSavepoint(_) => SavepointKeepsInv(s, a);
    case ReleaseSavepoint(_) => SavepointKeepsInv(s, a);
    case RollbackToSavepoint(_) => SavepointKeepsInv(s, a);
    case Commit(t) =>
      if t in s.open {
        CommitKeepsInv(s, t);
      }
    case Rollback(t) =>
  }

  lemma {:induction false} RunKeepsInv(actions: seq<Action>)
    ensures Inv(Exec(Initial, actions))
  {
    if actions != [] {
      RunKeepsInv(actions[..|actions| - 1]);
      StepKeepsInv(Exec(Initial, actions[..|actions| - 1]), actions[|actions| - 1]);
    }
  }

  /** In every interleaving the committed tickets of each scope are exactly 1 up to the
      counter, each held once: no duplicate, and (since a rollback takes its increment
      back with it) no gap. */
  lemma TicketsNeverCollide(actions: seq<Action>)
    ensures var s := Exec(Initial, actions);
            && (forall i, j :: 0 <= i < j < |s.issued| ==> s.issued[i] != s.issued[j])
            && (forall scope: string, value: nat ::
                  Ticket(scope, value) in s.issued <==> 1 <= value <= Last(s.committed, scope))
  {
    RunKeepsInv(actions);
    var s := Exec(Initial, actions);
    forall scope: string, value: nat
      ensures Ticket(scope, value) in s.issued <==> 1 <= value <= Last(s.committed, scope)
    {
      assert Ticket(scope, value) in s.issued <==> Between(0, value, Last(s.committed, scope));
    }
  }

  // -------------------------------------------------------- nothing lost

  /** An account of the run kept from its actions alone: for each open transaction the
      scopes it has allocated from and not taken back, in order, with what its savepoints
      would bring back; and those that were committed. */
  datatype Draft = Draft(scopes: seq<string>, marks: seq<seq<string>>)

  datatype Account = Account(drafts: map<TxnId, Draft>, kept: seq<string>)

  /** Another open transaction has allocated from the scope: it holds the row's lock. */
  predicate HeldByOther(b: Account, t: TxnId, scope: string) {
    exists u :: u in b.drafts && u != t && scope in b.drafts[u].scopes
  }

  function Noted(b: Account, a: Action): Account {
    if a.Begin? then
      if a.t in b.drafts then b else b.(drafts := b.drafts[a.t := Draft([], [])])
    else if a.t !in b.drafts then b
    else
      var d := b.drafts[a.t];
      match a
      case Begin(t) => b
      case Allocate(t, scope) =>
        if HeldByOther(b, t, scope) then b else b.(drafts := b.drafts[t := d.(scopes := d.scopes + [scope])])
      case OpenSavepoint(t) => b.(drafts := b.drafts[t := d.(marks := d.marks + [d.scopes])])
      case ReleaseSavepoint(t) =>
        if d.marks == [] then b else b.(drafts := b.drafts[t := d.(marks := d.marks[..|d.marks| - 1])])
      case RollbackToSavepoint(t) =>
        if d.marks == [] then b
        else b.(drafts := b.drafts[t := Draft(d.marks[|d.marks| - 1], d.marks[..|d.marks| - 1])])
      case Commit(t) => Account(b.drafts - {t}, b.kept + d.scopes)
      case Rollback(t) => b.(drafts := b.drafts - {t})
  }

  function AccountOf(actions: seq<Action>): Account {
    if actions == [] then Account(map[], []) else Noted(AccountOf(actions[..|actions| - 1]), actions[|actions| - 1])
  }

  function Scopes(tickets: seq<Ticket>): (r: seq<string>)
    ensures |r| == |tickets| && forall i :: 0 <= i < |r| ==> r[i] == tickets[i].scope
  {
    if tickets == [] then [] else Scopes(tickets[..|tickets| - 1]) + [tickets[|tickets| - 1].scope]
  }

  lemma ScopesAppend(x: seq<Ticket>, y: seq<Ticket>)
    ensures Scopes(x + y) == Scopes(x) + Scopes(y)
  {
  }

  /** A piece of work tells the same as a list of scopes: its tickets are for them, in
      order, and the locked rows are theirs. */
  ghost predicate WorkTells(w: Work, scopes: seq<string>) {
    Scopes(w.tickets) == scopes && forall scope :: scope in w.counters <==> scope in scopes
  }

  ghost predicate Tells(txn: Txn, d: Draft) {
    && WorkTells(txn.work, d.scopes) && |d.marks| == |txn.savepoints|
    && forall i :: 0 <= i < |d.marks| ==> WorkTells(txn.savepoints[i], d.marks[i])
  }

  ghost predicate Accounted(s: State, b: Account) {
    && b.kept == Scopes(s.issued) && b.drafts.Keys == s.open.Keys
    && forall t :: t in s.open ==> Tells(s.open[t], b.drafts[t])
  }

  lemma LockTold(s: State, b: Account, t: TxnId, scope: string)
    requires Accounted(s, b)
    ensures LockedByOther(s, t, scope) <==> HeldByOther(b, t, scope)
  {
    forall u | u in s.open
      ensures scope in s.open[u].work.counters <==> scope in b.drafts[u].scopes
    {
      assert Tells(s.open[u], b.drafts[u]);
    }
    assert forall u :: u in s.open <==> u in b.drafts.Keys;
  }

  lemma TakingTold(s: State, w: Work, scopes: seq<string>, scope: string)
    requires WorkTells(w, scopes)
    ensures WorkTells(Taking(s, w, scope), scopes + [scope])
  {
    ScopesAppend(w.tickets, [Ticket(scope, Current(s, w, scope) + 1)]);
  }

  lemma AllocateAccounted(s: State, b: Account, t: TxnId, scope: string)
    requires Accounted(s, b) && t in s.open
    ensures Accounted(Apply(s, Allocate(t, scope)), Noted(b, Allocate(t, scope)))
  {
    var txn, d := s.open[t], b.drafts[t];
    assert Tells(txn, d);
    LockTold(s, b, t, scope);
    TakingTold(s, txn.work, d.scopes, scope);
    hide WorkTells, HeldByOther, LockedByOther, Taking;
  }

  lemma CommitAccounted(s: State, b: Account, t: TxnId)
    requires Accounted(s, b) && t in s.open
    ensures Accounted(Apply(s, Commit(t)), Noted(b, Commit(t)))
  {
    assert Tells(s.open[t], b.drafts[t]);
    WorkScopes(s.open[t].work, b.drafts[t].scopes);
    ScopesAppend(s.issued, s.open[t].work.tickets);
    hide WorkTells, Tells;
  }

  lemma StepAccounted(s: State, b: Account, a: Action)
    requires Accounted(s, b)
    ensures Accounted(Apply(s, a), Noted(b, a))
  {
    if a.Begin? {
      assert Tells(Txn(NOTHING, []), Draft([], []));
    } else if a.t in s.open {
      if a.Allocate? {
        hide Apply, Noted, Accounted;
        AllocateAccounted(s, b, a.t, a.scope);
      } else if a.Commit? {
        hide Apply, Noted, Accounted;
        CommitAccounted(s, b, a.t);
      } else {
        assert Tells(s.open[a.t], b.drafts[a.t]);
        hide WorkTells, HeldByOther, LockedByOther, Taking;
      }
    }
  }

  lemma WorkScopes(w: Work, scopes: seq<string>)
    requires WorkTells(w, scopes)
    ensures Scopes(w.tickets) == scopes
  {
  }

  /** Nothing is lost and nothing else is issued: over every run, the committed tickets
      are, in commit order, exactly one for each allocation of a committed transaction
      that no rollback took back. */
  lemma {:induction false} IssuedExactly(actions: seq<Action>)
    ensures Scopes(Exec(Initial, actions).issued) == AccountOf(actions).kept
    ensures Accounted(Exec(Initial, actions), AccountOf(actions))
  {
    if actions != [] {
      IssuedExactly(actions[..|actions| - 1]);
      hide Apply, Noted;
      StepAccounted(Exec(Initial, actions[..|actions| - 1]), AccountOf(actions[..|actions| - 1]), actions[|actions| - 1]);
    }
  }

  class SequenceTable {
    var counters: map<string, nat>

    constructor ()
      ensures counters == map[]
    {
      counters := map[];
    }

    /** `IdSequence.allocate`, run alone under the row lock. */
    method Allocate(scope: string) returns (value: nat)
      modifies this
      ensures value == Last(old(counters), scope) + 1
      ensures counters == old(counters)[scope := value]
      ensures Taking(State(old(counters), map[], []), NOTHING, scope) == Work(map[scope := value], [Ticket(scope, value)])
    {
      if scope !in counters {
        counters := counters[scope := 0];
      }
      value := counters[scope] + 1;
      counters := counters[scope := value];
    }
  }
}
