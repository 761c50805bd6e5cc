/** Merit lists with reserved quotas: ranking, the bucket loops, and what the policy
    guarantees to candidates. */
module MeritList {
  import opened Common
  import Sorting

  /** An attribute value; a missing attribute reads as `Null`. */
  datatype Value = Null | Text(text: string)

  datatype Candidate = Candidate(id: int, score: Option<real>, attributes: map<string, Value>)

  datatype Bucket = Bucket(category: string, value: Value, seats: int)

  datatype Rules = Rules(totalSeats: Option<int>, reserved: seq<Bucket>)

  datatype Entry = Entry(id: int, rank: nat, score: Option<real>, admitted: bool, quota: Option<string>)

  /** Admitted ids with the reserved category that admitted them (`None`: general merit). */
  type Admissions = map<int, Option<string>>

  // ---------------------------------------------------------------- ranking

  /** `c` ranks strictly before `d`: better score, unscored last, ties by id. */
  predicate Ahead(c: Candidate, d: Candidate) {
    match (c.score, d.score)
    case (Some(x), Some(y)) => x > y || (x == y && c.id < d.id)
    case (Some(_), None) => true
    case (None, Some(_)) => false
    case (None, None) => c.id < d.id
  }

  predicate NotBehind(c: Candidate, d: Candidate) { !Ahead(d, c) }

  function Ranked(cs: seq<Candidate>): (r: seq<Candidate>)
    ensures |r| == |cs|
  {
    Sorting.Sort(NotBehind, cs)
  }

  ghost predicate DistinctIds(cs: seq<Candidate>) {
    forall i, j :: 0 <= i < j < |cs| ==> cs[i].id != cs[j].id
  }

  function Ids(cs: seq<Candidate>): set<int> { set c | c in cs :: c.id }

  lemma {:induction false} DistinctByCount(cs: seq<Candidate>)
    ensures |Ids(cs)| <= |cs| && (DistinctIds(cs) <==> |Ids(cs)| == |cs|)
  {
    if cs != [] {
      DistinctByCount(cs[1..]);
      assert Ids(cs) == Ids(cs[1..]) + {cs[0].id};
      if DistinctIds(cs) {
        assert cs[0].id !in Ids(cs[1..]);
      } else if DistinctIds(cs[1..]) {
        var j :| 0 < j < |cs| && cs[j].id == cs[0].id;
        assert cs[1..][j - 1] in cs[1..];
        assert Ids(cs) == Ids(cs[1..]);
      }
    }
  }

  lemma SameCandidates(a: seq<Candidate>, b: seq<Candidate>)
    requires multiset(a) == multiset(b)
    ensures |a| == |b| && Ids(a) == Ids(b) && (DistinctIds(a) <==> DistinctIds(b))
    ensures forall c :: c in a <==> c in b
  {
    Sorting.MultisetMembers(a, b);
    DistinctByCount(a);
    DistinctByCount(b);
  }

  lemma RankedFacts(cs: seq<Candidate>)
    requires DistinctIds(cs)
    ensures multiset(Ranked(cs)) == multiset(cs) && |Ranked(cs)| == |cs|
    ensures DistinctIds(Ranked(cs)) && Ids(Ranked(cs)) == Ids(cs)
    ensures forall i, j :: 0 <= i < j < |Ranked(cs)| ==> Ahead(Ranked(cs)[i], Ranked(cs)[j])
  {
    var r := Ranked(cs);
    Sorting.SortSorts(NotBehind, cs);
    SameCandidates(r, cs);
    forall i, j | 0 <= i < j < |r|
      ensures Ahead(r[i], r[j])
    {
      assert NotBehind(r[i], r[j]);
    }
  }

  /** Any list in strict rank order with the same candidates is the ranking. */
  lemma RankingUnique(cs: seq<Candidate>, r: seq<Candidate>)
    requires DistinctIds(cs) && multiset(r) == multiset(cs)
    requires forall i, j :: 0 <= i < j < |r| ==> Ahead(r[i], r[j])
    ensures r == Ranked(cs)
  {
    Sorting.SortSorts(NotBehind, cs);
    SameCandidates(r, cs);
    assert Sorting.Sorted(NotBehind, r);
    forall x, y | x in r && y in r && NotBehind(x, y) && NotBehind(y, x)
      ensures x == y
    {
      var i, j :| 0 <= i < |r| && 0 <= j < |r| && r[i] == x && r[j] == y;
      assert i == j || r[i].id != r[j].id;
    }
    Sorting.SortedUnique(NotBehind, r, Ranked(cs));
  }

  // ------------------------------------------------- admission, declaratively

  function Attribute(c: Candidate, category: string): Value {
    if category in c.attributes then c.attributes[category] else Null
  }

  predicate Matches(c: Candidate, b: Bucket) { Attribute(c, b.category) == b.value }

  function Label(b: Bucket): string {
    b.category + ":" + match b.value case Null => "None" case Text(t) => t
  }

  /** Who competes for a seat: the general pool takes anyone, a bucket only those who match. */
  datatype Pool = General | Reserved(bucket: Bucket)

  predicate Eligible(c: Candidate, taken: set<int>, pool: Pool) {
    c.id !in taken && (pool.Reserved? ==> Matches(c, pool.bucket))
  }

  /** Those of `cs` who are eligible, in the order given. */
  function Qualified(cs: seq<Candidate>, taken: set<int>, pool: Pool): (r: seq<Candidate>) {
    if cs == [] then []
    else if Eligible(cs[0], taken, pool) then [cs[0]] + Qualified(cs[1..], taken, pool)
    else Qualified(cs[1..], taken, pool)
  }

  function Take(cs: seq<Candidate>, seats: int): (r: seq<Candidate>) {
    if seats <= 0 then [] else if |cs| <= seats then cs else cs[..seats]
  }

  function Admit(m: Admissions, cs: seq<Candidate>, quota: Option<string>): Admissions {
    m + map id | id in Ids(cs) :: quota
  }

  /** The best-ranked eligible candidates, as many as there are seats. */
  function Picks(ranked: seq<Candidate>, taken: set<int>, pool: Pool, seats: int): seq<Candidate> {
    Take(Qualified(ranked, taken, pool), seats)
  }

  function AfterBucket(ranked: seq<Candidate>, m: Admissions, b: Bucket): Admissions {
    Admit(m, Picks(ranked, m.Keys, Reserved(b), b.seats), Some(Label(b)))
  }

  /** The buckets one after the other, in declared order. */
  function AfterBuckets(ranked: seq<Candidate>, buckets: seq<Bucket>): Admissions {
    if buckets == [] then map[]
    else AfterBucket(ranked, AfterBuckets(ranked, buckets[..|buckets| - 1]), buckets[|buckets| - 1])
  }

  /** General merit: the best-ranked of the rest, for the seats that remain. */
  function AfterGeneral(ranked: seq<Candidate>, m: Admissions, total: int): Admissions {
    Admit(m, Picks(ranked, m.Keys, General, total - |m.Keys|), None)
  }

  function Outcome(ranked: seq<Candidate>, rules: Rules): Admissions {
    match rules.totalSeats
    case None => Admit(map[], ranked, None)
    case Some(total) => AfterGeneral(ranked, AfterBuckets(ranked, rules.reserved), total)
  }

  function Listed(ranked: seq<Candidate>, m: Admissions, k: nat): seq<Entry>
    requires k <= |ranked|
  {
    if k == 0 then []
    else
      var c := ranked[k - 1];
      Listed(ranked, m, k - 1) + [Entry(c.id, k, c.score, c.id in m, if c.id in m then m[c.id] else None)]
  }

  /** The merit list, stated without loops. */
  function ListFor(cs: seq<Candidate>, rules: Rules): seq<Entry> {
    Listed(Ranked(cs), Outcome(Ranked(cs), rules), |cs|)
  }

  // ------------------------------------------------------------- the algorithm

  lemma {:induction false} QualifiedAppend(x: seq<Candidate>, y: seq<Candidate>, taken: set<int>, pool: Pool)
    ensures Qualified(x + y, taken, pool) == Qualified(x, taken, pool) + Qualified(y, taken, pool)
  {
    if x == [] {
      assert x + y == y;
    } else {
      assert (x + y)[1..] == x[1..] + y;
      QualifiedAppend(x[1..], y, taken, pool);
    }
  }

  lemma {:induction false} QualifiedMember(cs: seq<Candidate>, taken: set<int>, pool: Pool, c: Candidate)
    ensures c in Qualified(cs, taken, pool) <==> c in cs && Eligible(c, taken, pool)
  {
    if cs != [] {
      QualifiedMember(cs[1..], taken, pool, c);
    }
  }

  lemma QualifiedPrefix(cs: seq<Candidate>, j: nat, taken: set<int>, pool: Pool)
    requires j <= |cs|
    ensures Qualified(cs[..j], taken, pool) <= Qualified(cs, taken, pool)
  {
    assert cs == cs[..j] + cs[j..];
    QualifiedAppend(cs[..j], cs[j..], taken, pool);
  }

  /** Once the seats are filled, the rest of the ranking does not change the picks. */
  lemma SeatsExhausted(ranked: seq<Candidate>, j: nat, taken: set<int>, pool: Pool, seats: int)
    requires j <= |ranked| && |Picks(ranked[..j], taken, pool, seats)| >= seats
    ensures Picks(ranked, taken, pool, seats) == Picks(ranked[..j], taken, pool, seats)
  {
    QualifiedPrefix(ranked, j, taken, pool);
  }

  lemma PassStep(ranked: seq<Candidate>, j: nat, taken: set<int>, pool: Pool, seats: int)
    requires j < |ranked| && |Picks(ranked[..j], taken, pool, seats)| < seats
    ensures Picks(ranked[..j + 1], taken, pool, seats) ==
            Picks(ranked[..j], taken, pool, seats) + if Eligible(ranked[j], taken, pool) then [ranked[j]] else []
  {
    assert ranked[..j + 1] == ranked[..j] + [ranked[j]];
    QualifiedAppend(ranked[..j], [ranked[j]], taken, pool);
    assert [ranked[j]][1..] == [];
  }

  lemma NotYetPicked(ranked: seq<Candidate>, j: nat, taken: set<int>, pool: Pool, seats: int)
    requires DistinctIds(ranked) && j < |ranked|
    ensures ranked[j].id !in Ids(Picks(ranked[..j], taken, pool, seats))
  {
    forall c | c in Picks(ranked[..j], taken, pool, seats)
      ensures c.id != ranked[j].id
    {
      QualifiedMember(ranked[..j], taken, pool, c);
    }
  }

  lemma AdmitOneMore(m: Admissions, cs: seq<Candidate>, c: Candidate, quota: Option<string>)
    ensures Admit(m, cs + [c], quota) == Admit(m, cs, quota)[c.id := quota]
  {
    assert Ids(cs + [c]) == Ids(cs) + {c.id};
  }

  /** One greedy pass down the ranking, the loop run for each bucket and again for the
      general pool. */
  method GreedyPass(ranked: seq<Candidate>, pool: Pool, before: Admissions, seats: int, quota: Option<string>)
    returns (admitted: Admissions)
    requires DistinctIds(ranked)
    ensures admitted == Admit(before, Picks(ranked, before.Keys, pool, seats), quota)
  {
    admitted := before;
    var filled := 0;
    var j := 0;
    ghost var picks: seq<Candidate> := [];
    while j < |ranked|
      invariant 0 <= j <= |ranked|
      invariant picks == Picks(ranked[..j], before.Keys, pool, seats) && filled == |picks|
      invariant admitted == Admit(before, picks, quota)
    {
      if filled >= seats {
        SeatsExhausted(ranked, j, before.Keys, pool, seats);
        return;
      }
      var candidate := ranked[j];
      PassStep(ranked, j, before.Keys, pool, seats);
      NotYetPicked(ranked, j, before.Keys, pool, seats);
      if candidate.id !in admitted && (pool.General? || Attribute(candidate, pool.bucket.category) == pool.bucket.value) {
        admitted := admitted[candidate.id := quota];
        filled := filled + 1;
        AdmitOneMore(before, picks, candidate, quota);
        picks := picks + [candidate];
      }
      j := j + 1;
    }
    assert ranked[..|ranked|] == ranked;
  }

  method FillBuckets(ranked: seq<Candidate>, reserved: seq<Bucket>) returns (admitted: Admissions)
    requires DistinctIds(ranked)
    ensures admitted == AfterBuckets(ranked, reserved)
  {
    admitted := map[];
    var b := 0;
    while b < |reserved|
      invariant 0 <= b <= |reserved|
      invariant admitted == AfterBuckets(ranked, reserved[..b])
    {
      var bucket := reserved[b];
      assert reserved[..b + 1][..b] == reserved[..b];
      admitted := GreedyPass(ranked, Reserved(bucket), admitted, bucket.seats, Some(Label(bucket)));
      b := b + 1;
    }
    assert reserved[..|reserved|] == reserved;
  }

  method FillSeats(ranked: seq<Candidate>, rules: Rules) returns (admitted: Admissions)
    requires DistinctIds(ranked)
    ensures admitted == Outcome(ranked, rules)
  {
    hide AfterBuckets, Picks, Admit;
    if rules.totalSeats.None? {
      return Admit(map[], ranked, None);
    }
    var m := FillBuckets(ranked, rules.reserved);
    var remaining := rules.totalSeats.value - |m.Keys|;
    admitted := GreedyPass(ranked, General, m, remaining, None);
  }

  method GenerateMeritList(candidates: seq<Candidate>, rules: Rules) returns (list: seq<Entry>)
    requires DistinctIds(candidates)
    ensures list == ListFor(candidates, rules)
  {
    var ranked := Ranked(candidates);
    RankedFacts(candidates);
    var admitted := FillSeats(ranked, rules);
    list := [];
    for k := 0 to |ranked|
      invariant list == Listed(ranked, admitted, k)
    {
      var c := ranked[k];
      list := list + [Entry(c.id, k + 1, c.score, c.id in admitted, if c.id in admitted then admitted[c.id] else None)];
    }
  }
}
