/** The tamper-evident audit log: hashing, appending, and re-walking the chain. */
module AuditChain {
  import opened Common

  /** SHA-256 in hexadecimal (section 6.2 of FIPS 180-4), left uninterpreted. */
  type Digest = string -> string

  /** The one thing assumed of it: a digest is 64 characters long. */
  ghost predicate FixedWidth(h: Digest) {
    forall s: string :: |h(s)| == 64
  }

  const GENESIS: string := Zeros(64)

  /** One row. `payload` is the canonical serialisation the digest covers;
      `userAgent` is stored beside it and is not covered. */
  datatype Entry = Entry(id: int, payload: string, userAgent: string, prevHash: string, rowHash: string)

  function RowHash(h: Digest, prevHash: string, payload: string): string {
    h(prevHash + payload)
  }

  /** What the digest of a row was computed from. */
  function Hashed(e: Entry): string { e.prevHash + e.payload }

  predicate SelfConsistent(h: Digest, e: Entry) {
    RowHash(h, e.prevHash, e.payload) == e.rowHash
  }

  /** The hash the row at position `i` has to name as its predecessor. */
  function Expected(start: string, rows: seq<Entry>, i: nat): string
    requires i <= |rows|
  {
    if i == 0 then start else rows[i - 1].rowHash
  }

  predicate LinkHolds(h: Digest, start: string, rows: seq<Entry>, i: nat)
    requires i < |rows|
  {
    rows[i].prevHash == Expected(start, rows, i) && SelfConsistent(h, rows[i])
  }

  ghost predicate Intact(h: Digest, start: string, rows: seq<Entry>) {
    forall i :: 0 <= i < |rows| ==> LinkHolds(h, start, rows, i)
  }

  ghost predicate IdsIncrease(rows: seq<Entry>) {
    forall i, j :: 0 <= i < j < |rows| ==> rows[i].id < rows[j].id
  }

  // ------------------------------------------------------------- appending

  /** The predecessor a new row names: the tail's hash, or genesis when there is no
      row or its hash is empty (both are falsy). */
  function TailHash(rows: seq<Entry>): (r: string) {
    if rows == [] || rows[|rows| - 1].rowHash == "" then GENESIS else rows[|rows| - 1].rowHash
  }

  function NewEntry(h: Digest, prevHash: string, id: int, payload: string, userAgent: string): Entry {
    Entry(id, payload, userAgent, prevHash, RowHash(h, prevHash, payload))
  }

  lemma IntactTail(h: Digest, rows: seq<Entry>)
    requires FixedWidth(h)
    requires Intact(h, GENESIS, rows)
    ensures TailHash(rows) == Expected(GENESIS, rows, |rows|) && |TailHash(rows)| == 64
  {
    if rows != [] {
      assert LinkHolds(h, GENESIS, rows, |rows| - 1);
    }
  }

  /** Appending behind the current tail keeps the chain; appending behind any other
      hash breaks it. */
  lemma AppendIntact(h: Digest, rows: seq<Entry>, prev: string, id: int, payload: string, userAgent: string)
    requires FixedWidth(h)
    requires Intact(h, GENESIS, rows)
    ensures Intact(h, GENESIS, rows + [NewEntry(h, prev, id, payload, userAgent)]) <==> prev == TailHash(rows)
  {
    IntactTail(h, rows);
    var more := rows + [NewEntry(h, prev, id, payload, userAgent)];
    forall i | 0 <= i < |rows|
      ensures LinkHolds(h, GENESIS, more, i)
    {
      assert LinkHolds(h, GENESIS, rows, i);
    }
    assert LinkHolds(h, GENESIS, more, |rows|) <==> prev == TailHash(rows);
  }

  class AuditTable {
    var rows: seq<Entry>
    var nextId: int

    ghost predicate Valid(h: Digest)
      reads this
    {
      && Intact(h, GENESIS, rows) && IdsIncrease(rows)
      && 0 < nextId && forall i :: 0 <= i < |rows| ==> 0 < rows[i].id < nextId
    }

    constructor ()
      ensures rows == [] && nextId == 1
      ensures forall h: Digest :: Valid(h)
    {
      rows, nextId := [], 1;
    }

    /** `_write`, run alone under the chain lock. */
    method Write(h: Digest, payload: string, userAgent: string) returns (entry: Entry)
      requires FixedWidth(h) && Valid(h)
      modifies this
      ensures Valid(h)
      ensures rows == old(rows) + [entry] && nextId == old(nextId) + 1
      ensures entry.payload == payload && entry.userAgent == userAgent && entry.id == old(nextId)
      ensures entry.prevHash == (if old(rows) == [] then Zeros(64) else old(rows)[|old(rows)| - 1].rowHash)
      ensures entry.rowHash == h(entry.prevHash + payload)
    {
      var prevHash := TailHash(rows);
      entry := NewEntry(h, prevHash, nextId, payload, userAgent);
      AppendIntact(h, rows, prevHash, nextId, payload, userAgent);
      IntactTail(h, rows);
      rows, nextId := rows + [entry], nextId + 1;
    }
  }

  // ------------------------------------------------------------ verification

  datatype Finding = ChainIntact | WrongPredecessor | ContentsAltered

  datatype Report = Report(ok: bool, checked: nat, firstBrokenId: Option<int>, detail: Finding)

  /** How many rows have an id of at most `startId`. */
  function Cut(table: seq<Entry>, startId: int): (k: nat)
    ensures k <= |table|
  {
    if table == [] || startId < table[0].id then 0 else 1 + Cut(table[1..], startId)
  }

  /** The rows `verify_chain` reads: ids above `startId`, bounded when a non-zero
      limit is given. */
  function Selected(table: seq<Entry>, startId: int, limit: Option<nat>): seq<Entry> {
    var after := table[Cut(table, startId)..];
    if limit.None? || limit.value == 0 || |after| <= limit.value then after else after[..limit.value]
  }

  function StartHash(table: seq<Entry>, startId: int): string {
    if startId != 0 && Cut(table, startId) > 0 then table[Cut(table, startId) - 1].rowHash else GENESIS
  }

  lemma {:induction false} CutExact(table: seq<Entry>, startId: int)
    requires IdsIncrease(table)
    ensures forall i :: 0 <= i < |table| ==> (table[i].id <= startId <==> i < Cut(table, startId))
  {
    if table != [] && table[0].id <= startId {
      CutExact(table[1..], startId);
      forall i | 0 <= i < |table|
        ensures table[i].id <= startId <==> i < Cut(table, startId)
      {
        if i > 0 {
          assert table[i] == table[1..][i - 1];
        }
      }
    }
  }

  lemma CutAt(table: seq<Entry>, k: nat)
    requires IdsIncrease(table) && 0 < k <= |table| && 0 < table[0].id
    ensures Cut(table, 0) == 0 && table[k - 1].id > 0 && Cut(table, table[k - 1].id) == k
    ensures Selected(table, 0, Some(k)) == table[..k]
  {
    var last := table[k - 1].id;
    CutExact(table, 0);
    CutExact(table, last);
    assert table[0..] == table;
  }

  /** What a report has to say about a list of rows: it is the truth about the first
      broken link, or that there is none. */
  ghost predicate Describes(r: Report, h: Digest, start: string, rows: seq<Entry>) {
    if r.ok then
      Intact(h, start, rows) && r == Report(true, |rows|, None, ChainIntact)
    else
      && r.checked < |rows|
      && (forall i :: 0 <= i < r.checked ==> LinkHolds(h, start, rows, i))
      && !LinkHolds(h, start, rows, r.checked)
      && r.firstBrokenId == Some(rows[r.checked].id)
      && r.detail == if rows[r.checked].prevHash != Expected(start, rows, r.checked)
                     then WrongPredecessor else ContentsAltered
  }

  lemma DescribesUnique(r: Report, q: Report, h: Digest, start: string, rows: seq<Entry>)
    requires Describes(r, h, start, rows) && Describes(q, h, start, rows)
    ensures r == q
  {
  }

  /** What is read, and against which hash it is checked: exactly the rows with an id above
      `startId`, the first of them when there is a limit other than zero, starting from
      the hash of the last row not above it, or from genesis. */
  lemma SelectionExact(table: seq<Entry>, startId: int, limit: Option<nat>)
    requires IdsIncrease(table)
    ensures var read := Selected(table, startId, limit);
            var k := Cut(table, startId);
            && (forall i :: 0 <= i < |table| ==> (table[i].id > startId <==> k <= i))
            && |read| == (if limit.None? || limit.value == 0 then |table| - k else Min(limit.value, |table| - k))
            && read == table[k..k + |read|]
            && StartHash(table, startId) == (if startId == 0 || k == 0 then Zeros(64) else table[k - 1].rowHash)
  {
    CutExact(table, startId);
    hide Cut, IdsIncrease, Zeros;
    var k, n := Cut(table, startId), |Selected(table, startId, limit)|;
    assert table[k..][..n] == table[k..k + n];
  }

  method VerifyChain(h: Digest, table: seq<Entry>, startId: int, limit: Option<nat>) returns (r: Report)
    requires IdsIncrease(table)
    ensures Describes(r, h, StartHash(table, startId), Selected(table, startId, limit))
  {
    r := Walk(h, StartHash(table, startId), Selected(table, startId, limit));
  }

  method Walk(h: Digest, start: string, entries: seq<Entry>) returns (r: Report)
    ensures Describes(r, h, start, entries)
  {
    var expectedPrev := start;
    var checked := 0;
    while checked < |entries|
      invariant checked <= |entries|
      invariant expectedPrev == Expected(start, entries, checked)
      invariant forall i :: 0 <= i < checked ==> LinkHolds(h, start, entries, i)
    {
      var entry := entries[checked];
      if entry.prevHash != expectedPrev {
        return Report(false, checked, Some(entry.id), WrongPredecessor);
      }
      var recomputed := RowHash(h, entry.prevHash, entry.payload);
      if recomputed != entry.rowHash {
        return Report(false, checked, Some(entry.id), ContentsAltered);
      }
      expectedPrev := entry.rowHash;
      checked := checked + 1;
    }
    return Report(true, checked, None, ChainIntact);
  }

  // --------------------------------------------------- prefix and resumption

  /** The report of a walk over `xs + ys`, put together from a walk over `xs` and a
      walk over `ys` that resumes at the last hash of `xs`. */
  function Resume(first: Report, second: Report): Report {
    if !first.ok then first else second.(checked := first.checked + second.checked)
  }

  lemma LinksOfConcatenation(h: Digest, start: string, xs: seq<Entry>, ys: seq<Entry>, i: nat)
    requires i < |xs| + |ys|
    ensures LinkHolds(h, start, xs + ys, i) ==
            if i < |xs| then LinkHolds(h, start, xs, i)
            else LinkHolds(h, Expected(start, xs, |xs|), ys, i - |xs|)
  {
  }

  lemma IntactConcatenation(h: Digest, start: string, xs: seq<Entry>, ys: seq<Entry>)
    requires Intact(h, start, xs) && Intact(h, Expected(start, xs, |xs|), ys)
    ensures Intact(h, start, xs + ys)
  {
    forall i | 0 <= i < |xs + ys|
      ensures LinkHolds(h, start, xs + ys, i)
    {
      LinksOfConcatenation(h, start, xs, ys, i);
    }
  }

  lemma WalkSplits(h: Digest, start: string, xs: seq<Entry>, ys: seq<Entry>, first: Report, second: Report)
    requires Describes(first, h, start, xs)
    requires Describes(second, h, Expected(start, xs, |xs|), ys)
    ensures Describes(Resume(first, second), h, start, xs + ys)
  {
    if first.ok && second.ok {
      IntactConcatenation(h, start, xs, ys);
    } else {
      var whole := Resume(first, second);
      var broken := if first.ok then |xs| + second.checked else first.checked;
      assert whole.checked == broken;
      forall i | 0 <= i <= broken
        ensures LinkHolds(h, start, xs + ys, i) <==> i < broken
      {
        LinksOfConcatenation(h, start, xs, ys, i);
      }
      assert Expected(start, xs + ys, broken) ==
             if first.ok then Expected(Expected(start, xs, |xs|), ys, second.checked)
             else Expected(start, xs, broken);
    }
  }

  /** Verifying the first `k` rows and then resuming from the id of the `k`th gives the
      report of verifying everything: same verdict, same first broken id, same count. */
  lemma PrefixThenResume(h: Digest, table: seq<Entry>, k: nat, first: Report, second: Report, whole: Report)
    requires IdsIncrease(table) && 0 < k <= |table| && 0 < table[0].id
    requires Describes(first, h, StartHash(table, 0), Selected(table, 0, Some(k)))
    requires Describes(second, h, StartHash(table, table[k - 1].id), Selected(table, table[k - 1].id, None))
    requires Describes(whole, h, StartHash(table, 0), Selected(table, 0, None))
    ensures whole == Resume(first, second)
  {
    CutAt(table, k);
    assert table[0..] == table && table == table[..k] + table[k..];
    WalkSplits(h, GENESIS, table[..k], table[k..], first, second);
    DescribesUnique(whole, Resume(first, second), h, GENESIS, table);
  }

  // -------------------------------------------------------- tamper evidence

  /** Two rows, one of each log, whose different inputs have the same digest. */
  ghost predicate Collision(h: Digest, a: seq<Entry>, b: seq<Entry>) {
    exists i, j :: 0 <= i < |a| && 0 <= j < |b| && Clash(h, a[i], b[j])
  }

  predicate Clash(h: Digest, x: Entry, y: Entry) {
    Hashed(x) != Hashed(y) && h(Hashed(x)) == h(Hashed(y))
  }

  /** Some row of the log has an input that digests to the genesis value. */
  ghost predicate HitsGenesis(h: Digest, a: seq<Entry>) {
    exists i :: 0 <= i < |a| && RowHash(h, a[i].prevHash, a[i].payload) == GENESIS
  }

  /** The fields the chain protects. */
  function Covered(e: Entry): (string, string, string) { (e.prevHash, e.payload, e.rowHash) }

  ghost predicate SameHistory(a: seq<Entry>, b: seq<Entry>) {
    |a| == |b| && forall i :: 0 <= i < |a| ==> Covered(a[i]) == Covered(b[i])
  }

  lemma IntactPrevLength(h: Digest, rows: seq<Entry>, i: nat)
    requires FixedWidth(h)
    requires Intact(h, GENESIS, rows) && i < |rows|
    ensures |rows[i].prevHash| == 64
  {
    assert LinkHolds(h, GENESIS, rows, i);
    if i > 0 {
      assert LinkHolds(h, GENESIS, rows, i - 1);
    }
  }

  lemma IntactPrefix(h: Digest, start: string, rows: seq<Entry>, k: nat)
    requires Intact(h, start, rows) && k <= |rows|
    ensures Intact(h, start, rows[..k])
  {
    forall i | 0 <= i < k
      ensures LinkHolds(h, start, rows[..k], i)
    {
      assert LinkHolds(h, start, rows, i);
    }
  }

  /** Binding: logs that verify and end in the same hash hold the same rows, unless the
      logs themselves exhibit a collision or a preimage of the genesis value. */
  lemma {:induction false} Binding(h: Digest, a: seq<Entry>, b: seq<Entry>)
    requires FixedWidth(h)
    requires Intact(h, GENESIS, a) && Intact(h, GENESIS, b)
    requires Expected(GENESIS, a, |a|) == Expected(GENESIS, b, |b|)
    ensures || SameHistory(a, b)
            || Collision(h, a, b) || HitsGenesis(h, a) || HitsGenesis(h, b)
  {
    if a == [] && b != [] {
      assert LinkHolds(h, GENESIS, b, |b| - 1);
    } else if a != [] && b == [] {
      assert LinkHolds(h, GENESIS, a, |a| - 1);
    } else if a != [] {
      var m, n := |a| - 1, |b| - 1;
      assert LinkHolds(h, GENESIS, a, m) && LinkHolds(h, GENESIS, b, n);
      if Hashed(a[m]) == Hashed(b[n]) {
        SameInputSameRow(h, a, b, m, n);
        IntactPrefix(h, GENESIS, a, m);
        IntactPrefix(h, GENESIS, b, n);
        Binding(h, a[..m], b[..n]);
        BindingStep(h, a, b, m, n);
      } else {
        assert Clash(h, a[m], b[n]);
      }
    }
  }

  lemma SameInputSameRow(h: Digest, a: seq<Entry>, b: seq<Entry>, m: nat, n: nat)
    requires FixedWidth(h)
    requires Intact(h, GENESIS, a) && Intact(h, GENESIS, b) && m < |a| && n < |b|
    requires Hashed(a[m]) == Hashed(b[n])
    ensures Covered(a[m]) == Covered(b[n])
    ensures Expected(GENESIS, a[..m], m) == Expected(GENESIS, b[..n], n)
  {
    assert LinkHolds(h, GENESIS, a, m) && LinkHolds(h, GENESIS, b, n);
    IntactPrevLength(h, a, m);
    IntactPrevLength(h, b, n);
    assert a[m].prevHash == Hashed(a[m])[..64] && a[m].payload == Hashed(a[m])[64..];
    assert b[n].prevHash == Hashed(b[n])[..64] && b[n].payload == Hashed(b[n])[64..];
  }

  /** The witnesses found in two prefixes are witnesses in the whole logs. */
  lemma BindingStep(h: Digest, a: seq<Entry>, b: seq<Entry>, m: nat, n: nat)
    requires m < |a| && n < |b|
    ensures Collision(h, a[..m], b[..n]) ==> Collision(h, a, b)
    ensures HitsGenesis(h, a[..m]) ==> HitsGenesis(h, a)
    ensures HitsGenesis(h, b[..n]) ==> HitsGenesis(h, b)
  {
  }

  /** Why a known final hash is needed: cutting off the tail of a log that verifies
      leaves a log that verifies. */
  lemma TruncationVerifies(h: Digest, table: seq<Entry>, k: nat, r: Report)
    requires Intact(h, GENESIS, table) && k <= |table|
    requires Describes(r, h, GENESIS, table[..k])
    ensures r == Report(true, k, None, ChainIntact)
  {
    IntactPrefix(h, GENESIS, table, k);
  }

  /** Editing the payload of one row in place is reported at exactly that row, unless
      the old and new inputs collide. */
  lemma EditPinpointed(h: Digest, table: seq<Entry>, k: nat, payload: string, r: Report)
    requires Intact(h, GENESIS, table) && k < |table| && payload != table[k].payload
    requires Describes(r, h, GENESIS, table[k := table[k].(payload := payload)])
    ensures r == Report(false, k, Some(table[k].id), ContentsAltered)
            <==> !Clash(h, table[k], table[k].(payload := payload))
    ensures Clash(h, table[k], table[k].(payload := payload)) ==> r.ok
  {
    var edited := table[k := table[k].(payload := payload)];
    forall i | 0 <= i < |table| && i != k
      ensures LinkHolds(h, GENESIS, edited, i)
    {
      assert LinkHolds(h, GENESIS, table, i);
    }
    assert LinkHolds(h, GENESIS, table, k);
    var p := table[k].prevHash;
    assert (p + payload)[|p|..] == payload && (p + table[k].payload)[|p|..] == table[k].payload;
    if r.ok {
      assert LinkHolds(h, GENESIS, edited, k);
    } else {
      assert !LinkHolds(h, GENESIS, edited, r.checked);
    }
  }

  /** Removing a row that is not the last is reported at the row that followed it,
      after every row before it checked out; the one exception is a row whose hash
      equals its own predecessor's. */
  lemma DeletionPinpointed(h: Digest, table: seq<Entry>, k: nat, r: Report)
    requires Intact(h, GENESIS, table) && k + 1 < |table|
    requires Describes(r, h, GENESIS, table[..k] + table[k + 1..])
    ensures r == Report(false, k, Some(table[k + 1].id), WrongPredecessor)
            <==> table[k].rowHash != table[k].prevHash
    ensures table[k].rowHash == table[k].prevHash ==> r.ok
  {
    var cut := table[..k] + table[k + 1..];
    assert LinkHolds(h, GENESIS, table, k) && LinkHolds(h, GENESIS, table, k + 1);
    forall i | 0 <= i < |cut| && i != k
      ensures LinkHolds(h, GENESIS, cut, i)
    {
      assert LinkHolds(h, GENESIS, table, if i < k then i else i + 1);
    }
    assert cut[k] == table[k + 1] && Expected(GENESIS, cut, k) == table[k].prevHash;
    if r.ok {
      assert LinkHolds(h, GENESIS, cut, k);
    } else {
      assert !LinkHolds(h, GENESIS, cut, r.checked);
    }
  }

  /** The user agent is outside the digest: rewriting it anywhere goes unreported. */
  lemma UserAgentUncovered(h: Digest, start: string, rows: seq<Entry>, k: nat, agent: string, r: Report)
    requires k < |rows| && Describes(r, h, start, rows)
    ensures Describes(r, h, start, rows[k := rows[k].(userAgent := agent)])
  {
    var other := rows[k := rows[k].(userAgent := agent)];
    forall i | 0 <= i < |rows|
      ensures LinkHolds(h, start, other, i) == LinkHolds(h, start, rows, i)
    {
      assert Covered(other[i]) == Covered(rows[i]);
      assert Expected(start, other, i) == Expected(start, rows, i);
    }
    assert r.ok ==> Intact(h, start, rows);
    assert forall i :: 0 <= i < |rows| ==> Covered(other[i]) == Covered(rows[i]) && other[i].id == rows[i].id;
  }
}
