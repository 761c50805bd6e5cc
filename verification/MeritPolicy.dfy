/** What the merit-list policy guarantees: order independence, honest ranks, conserved
    seats, no justified envy, and that doing better never hurts. */
module MeritPolicy {
  import opened Common
  import opened MeritList

  lemma {:induction false} ListedAt(ranked: seq<Candidate>, m: Admissions, n: nat, k: nat)
    requires k < n <= |ranked|
    ensures |Listed(ranked, m, n)| == n
    ensures var e := Listed(ranked, m, n)[k];
            && e.id == ranked[k].id && e.score == ranked[k].score && e.rank == k + 1
            && (e.admitted <==> e.id in m) && e.quota == (if e.id in m then m[e.id] else None)
  {
    if n - 1 == 0 {
      assert Listed(ranked, m, 0) == [];
    } else if k < n - 1 {
      ListedAt(ranked, m, n - 1, k);
    } else {
      ListedAt(ranked, m, n - 1, k - 1);
    }
  }

  // ----------------------------------------------------- order independence

  /** The list does not depend on the order the applications were read in. */
  lemma OrderIndependent(a: seq<Candidate>, b: seq<Candidate>, rules: Rules)
    requires DistinctIds(a) && multiset(a) == multiset(b)
    ensures ListFor(a, rules) == ListFor(b, rules)
  {
    SameCandidates(a, b);
    RankedFacts(b);
    RankingUnique(a, Ranked(b));
  }

  /** Row by row: each rank is one plus the number of candidates strictly ahead, whatever
      the rules, and the row shows the admission decision. */
  lemma RankCountsBetter(cs: seq<Candidate>, rules: Rules, k: nat)
    requires DistinctIds(cs) && k < |cs|
    ensures |ListFor(cs, rules)| == |cs|
    ensures var c := Ranked(cs)[k];
            var e := ListFor(cs, rules)[k];
            && e.id == c.id && e.score == c.score && e.rank == 1 + |set d | d in cs && Ahead(d, c) :: d.id|
            && (e.admitted <==> c.id in Outcome(Ranked(cs), rules))
            && (e.admitted ==> e.quota == Outcome(Ranked(cs), rules)[c.id])
  {
    RankedFacts(cs);
    ListedAt(Ranked(cs), Outcome(Ranked(cs), rules), |cs|, k);
    BetterStandBefore(cs, k);
    var before := Ranked(cs)[..k];
    assert DistinctIds(before);
    DistinctByCount(before);
  }

  lemma BetterStandBefore(cs: seq<Candidate>, k: nat)
    requires DistinctIds(cs) && k < |cs|
    ensures (set d | d in cs && Ahead(d, Ranked(cs)[k]) :: d.id) == Ids(Ranked(cs)[..k])
  {
    var r := Ranked(cs);
    RankedFacts(cs);
    SameCandidates(r, cs);
    forall d | d in cs
      ensures Ahead(d, r[k]) <==> d in r[..k]
    {
      assert d in r;
      var i :| 0 <= i < |r| && r[i] == d;
      assert i < k ==> r[..k][i] == d;
      assert i < k || i == k || Ahead(r[k], r[i]);
      if d in r[..k] {
        var j :| 0 <= j < k && r[..k][j] == d;
        assert Ahead(r[j], r[k]);
      }
    }
    forall d | d in r[..k]
      ensures d in cs
    {
      assert d in r;
    }
  }

  /** The order of the rows, in full: better scores first, unscored candidates last, and
      the smaller application id first among equals. */
  lemma ListOrder(cs: seq<Candidate>, rules: Rules, i: nat, j: nat)
    requires DistinctIds(cs) && i < j < |cs|
    ensures |ListFor(cs, rules)| == |cs|
    ensures var x, y := ListFor(cs, rules)[i], ListFor(cs, rules)[j];
            && (y.score.Some? ==> x.score.Some?)
            && (x.score.Some? && y.score.Some? ==> x.score.value >= y.score.value)
            && (x.score == y.score ==> x.id < y.id)
  {
    RankedFacts(cs);
    ListedAt(Ranked(cs), Outcome(Ranked(cs), rules), |cs|, i);
    ListedAt(Ranked(cs), Outcome(Ranked(cs), rules), |cs|, j);
    assert Ahead(Ranked(cs)[i], Ranked(cs)[j]);
  }

  /** Without a total everyone is ranked and nobody is excluded. */
  lemma NoTotalAdmitsAll(cs: seq<Candidate>, buckets: seq<Bucket>, k: nat)
    requires DistinctIds(cs) && k < |cs|
    ensures |ListFor(cs, Rules(None, buckets))| == |cs|
    ensures ListFor(cs, Rules(None, buckets))[k].admitted && ListFor(cs, Rules(None, buckets))[k].quota == None
  {
    RankedFacts(cs);
    ListedAt(Ranked(cs), Outcome(Ranked(cs), Rules(None, buckets)), |cs|, k);
    assert Ranked(cs)[k] in Ranked(cs);
  }

  // ------------------------------------------------------- seat conservation

  lemma {:induction false} QualifiedDistinct(cs: seq<Candidate>, taken: set<int>, pool: Pool)
    requires DistinctIds(cs)
    ensures DistinctIds(Qualified(cs, taken, pool)) && Ids(Qualified(cs, taken, pool)) <= Ids(cs)
  {
    if cs != [] {
      QualifiedDistinct(cs[1..], taken, pool);
      assert cs[0].id !in Ids(cs[1..]);
      assert Ids(cs) == Ids(cs[1..]) + {cs[0].id};
    }
  }

  lemma PicksCount(cs: seq<Candidate>, taken: set<int>, pool: Pool, seats: int)
    requires DistinctIds(cs)
    ensures var picks := Picks(cs, taken, pool, seats);
            && |Ids(picks)| == |picks| == Max(0, Min(seats, |Qualified(cs, taken, pool)|))
            && Ids(picks) <= Ids(cs)
  {
    QualifiedDistinct(cs, taken, pool);
    DistinctByCount(Picks(cs, taken, pool, seats));
  }

  lemma PicksAreOpen(cs: seq<Candidate>, taken: set<int>, pool: Pool, seats: int)
    ensures Ids(Picks(cs, taken, pool, seats)) !! taken
  {
    forall c | c in Picks(cs, taken, pool, seats)
      ensures c.id !in taken
    {
      QualifiedMember(cs, taken, pool, c);
    }
  }

  lemma OpenCount(cs: seq<Candidate>, taken: set<int>)
    requires DistinctIds(cs) && taken <= Ids(cs)
    ensures |Qualified(cs, taken, General)| == |cs| - |taken|
  {
    var open := Qualified(cs, taken, General);
    QualifiedDistinct(cs, taken, General);
    DistinctByCount(open);
    DistinctByCount(cs);
    forall id
      ensures id in Ids(open) <==> id in Ids(cs) - taken
    {
      forall c | c in cs
        ensures c in open <==> c.id !in taken
      {
        QualifiedMember(cs, taken, General, c);
      }
      if id in Ids(open) {
        var c :| c in open && c.id == id;
        QualifiedMember(cs, taken, General, c);
      }
    }
    assert Ids(open) == Ids(cs) - taken;
  }

  function ReservedSeats(buckets: seq<Bucket>): nat {
    if buckets == [] then 0 else ReservedSeats(buckets[..|buckets| - 1]) + Max(0, buckets[|buckets| - 1].seats)
  }

  lemma BucketStep(ranked: seq<Candidate>, m: Admissions, b: Bucket)
    requires DistinctIds(ranked) && m.Keys <= Ids(ranked)
    ensures AfterBucket(ranked, m, b).Keys <= Ids(ranked)
    ensures |AfterBucket(ranked, m, b).Keys| <= |m.Keys| + Max(0, b.seats)
  {
    hide Picks, Admit;
    PicksCount(ranked, m.Keys, Reserved(b), b.seats);
    PicksAreOpen(ranked, m.Keys, Reserved(b), b.seats);
    AdmitCount(m, Picks(ranked, m.Keys, Reserved(b), b.seats), Some(Label(b)));
    AdmitKeys(m, Picks(ranked, m.Keys, Reserved(b), b.seats), Some(Label(b)));
  }

  lemma AdmitKeys(m: Admissions, picks: seq<Candidate>, quota: Option<string>)
    ensures Admit(m, picks, quota).Keys == m.Keys + Ids(picks)
    ensures forall id :: id in Ids(picks) ==> Admit(m, picks, quota)[id] == quota
    ensures forall id :: id in m.Keys && id !in Ids(picks) ==> Admit(m, picks, quota)[id] == m[id]
  {
  }

  lemma {:induction false} BucketSeats(ranked: seq<Candidate>, buckets: seq<Bucket>)
    requires DistinctIds(ranked)
    ensures AfterBuckets(ranked, buckets).Keys <= Ids(ranked)
    ensures |AfterBuckets(ranked, buckets).Keys| <= ReservedSeats(buckets)
  {
    hide AfterBucket;
    if buckets != [] {
      BucketSeats(ranked, buckets[..|buckets| - 1]);
      BucketStep(ranked, AfterBuckets(ranked, buckets[..|buckets| - 1]), buckets[|buckets| - 1]);
    }
  }

  /** With R admitted through buckets, exactly R + min(n - R, max(0, total - R)) are
      admitted; when the buckets reserve no more than the total, exactly min(n, total). */
  lemma SeatsConserved(cs: seq<Candidate>, buckets: seq<Bucket>, total: int)
    requires DistinctIds(cs)
    ensures var reserved := |AfterBuckets(Ranked(cs), buckets).Keys|;
            |Outcome(Ranked(cs), Rules(Some(total), buckets)).Keys| ==
            reserved + Min(|cs| - reserved, Max(0, total - reserved))
    ensures ReservedSeats(buckets) <= total ==>
            |Outcome(Ranked(cs), Rules(Some(total), buckets)).Keys| == Min(|cs|, total)
  {
    hide AfterBuckets, Outcome, ReservedSeats;
    RankedFacts(cs);
    SeatsOfRanking(Ranked(cs), buckets, total);
  }

  lemma SeatsOfRanking(ranked: seq<Candidate>, buckets: seq<Bucket>, total: int)
    requires DistinctIds(ranked)
    ensures var m := AfterBuckets(ranked, buckets);
            |Outcome(ranked, Rules(Some(total), buckets)).Keys| == |m.Keys| + Min(|ranked| - |m.Keys|, Max(0, total - |m.Keys|))
    ensures |AfterBuckets(ranked, buckets).Keys| <= Min(|ranked|, ReservedSeats(buckets))
  {
    hide AfterBuckets, AfterGeneral, ReservedSeats;
    BucketSeats(ranked, buckets);
    GeneralCount(ranked, AfterBuckets(ranked, buckets), total);
  }

  lemma GeneralCount(ranked: seq<Candidate>, m: Admissions, total: int)
    requires DistinctIds(ranked) && m.Keys <= Ids(ranked)
    ensures |m.Keys| <= |ranked|
    ensures |AfterGeneral(ranked, m, total).Keys| == |m.Keys| + Min(|ranked| - |m.Keys|, Max(0, total - |m.Keys|))
  {
    hide Picks, Admit;
    GeneralPicksCount(ranked, m.Keys, total);
    AdmitCount(m, Picks(ranked, m.Keys, General, total - |m.Keys|), None);
  }

  lemma GeneralPicksCount(ranked: seq<Candidate>, taken: set<int>, total: int)
    requires DistinctIds(ranked) && taken <= Ids(ranked)
    ensures |taken| <= |ranked|
    ensures var picks := Picks(ranked, taken, General, total - |taken|);
            |Ids(picks)| == Min(|ranked| - |taken|, Max(0, total - |taken|)) && Ids(picks) !! taken
  {
    hide Picks;
    OpenCount(ranked, taken);
    PicksCount(ranked, taken, General, total - |taken|);
    PicksAreOpen(ranked, taken, General, total - |taken|);
  }

  lemma AdmitCount(m: Admissions, picks: seq<Candidate>, quota: Option<string>)
    requires Ids(picks) !! m.Keys
    ensures |Admit(m, picks, quota).Keys| == |m.Keys| + |Ids(picks)|
  {
    assert Admit(m, picks, quota).Keys == m.Keys + Ids(picks);
  }

  /** Those who wait for bucket `b`: they match it and no earlier bucket admitted them. */
  ghost function Waiting(cs: seq<Candidate>, taken: set<int>, b: Bucket): set<int> {
    set c | c in cs && c.id !in taken && (if b.category in c.attributes then c.attributes[b.category] else Null) == b.value :: c.id
  }

  lemma WaitingQualify(cs: seq<Candidate>, ranked: seq<Candidate>, taken: set<int>, b: Bucket)
    requires DistinctIds(ranked) && forall c :: c in cs <==> c in ranked
    ensures Ids(Qualified(ranked, taken, Reserved(b))) == Waiting(cs, taken, b)
    ensures |Qualified(ranked, taken, Reserved(b))| == |Waiting(cs, taken, b)|
  {
    var open := Qualified(ranked, taken, Reserved(b));
    QualifiedDistinct(ranked, taken, Reserved(b));
    DistinctByCount(open);
    forall c
      ensures c in open <==> c in ranked && Eligible(c, taken, Reserved(b))
    {
      QualifiedMember(ranked, taken, Reserved(b), c);
    }
  }

  /** A bucket admits only those who wait for it, and as many of them as it has seats for. */
  lemma BucketFills(cs: seq<Candidate>, buckets: seq<Bucket>, k: nat)
    requires DistinctIds(cs) && k < |buckets|
    ensures var before, after := AfterBuckets(Ranked(cs), buckets[..k]), AfterBuckets(Ranked(cs), buckets[..k + 1]);
            var waiting := set c | c in cs && c.id !in before
                             && (if buckets[k].category in c.attributes then c.attributes[buckets[k].category] else Null) == buckets[k].value
                           :: c.id;
            && before.Keys <= after.Keys && after.Keys - before.Keys <= waiting
            && |after.Keys - before.Keys| == Min(Max(0, buckets[k].seats), |waiting|)
            && (forall id :: id in before ==> after[id] == before[id])
            && (forall id :: id in after.Keys - before.Keys ==>
                  after[id] == Some(buckets[k].category + ":" + (if buckets[k].value.Text? then buckets[k].value.text else "None")))
  {
    var r, b := Ranked(cs), buckets[k];
    var before := AfterBuckets(r, buckets[..k]);
    RankedFacts(cs);
    SameCandidates(r, cs);
    AfterNext(r, buckets, k);
    hide AfterBuckets, Ranked, AfterBucket;
    OneBucket(cs, r, before, b);
  }

  lemma OneBucket(cs: seq<Candidate>, ranked: seq<Candidate>, before: Admissions, b: Bucket)
    requires DistinctIds(ranked) && forall c :: c in cs <==> c in ranked
    ensures var after, waiting := AfterBucket(ranked, before, b), Waiting(cs, before.Keys, b);
            && before.Keys <= after.Keys && after.Keys - before.Keys <= waiting
            && |after.Keys - before.Keys| == Min(Max(0, b.seats), |waiting|)
            && (forall id :: id in before ==> after[id] == before[id])
            && (forall id :: id in after.Keys - before.Keys ==>
                  after[id] == Some(b.category + ":" + (if b.value.Text? then b.value.text else "None")))
  {
    var picks := Picks(ranked, before.Keys, Reserved(b), b.seats);
    PicksCount(ranked, before.Keys, Reserved(b), b.seats);
    PicksAreOpen(ranked, before.Keys, Reserved(b), b.seats);
    WaitingQualify(cs, ranked, before.Keys, b);
    AdmitKeys(before, picks, Some(Label(b)));
    PicksQualify(ranked, before.Keys, Reserved(b), b.seats);
    hide Admit, Picks, Qualified, Waiting;
    assert AfterBucket(ranked, before, b).Keys - before.Keys == Ids(picks);
  }

  lemma PicksQualify(ranked: seq<Candidate>, taken: set<int>, pool: Pool, seats: int)
    ensures Ids(Picks(ranked, taken, pool, seats)) <= Ids(Qualified(ranked, taken, pool))
  {
  }

  /** So a candidate who matches a bucket and is in no list by its end was left out only
      because the bucket is full. */
  lemma LeftOutOnlyWhenFull(cs: seq<Candidate>, buckets: seq<Bucket>, k: nat, c: Candidate)
    requires DistinctIds(cs) && k < |buckets| && c in cs && c.id !in AfterBuckets(Ranked(cs), buckets[..k + 1])
    requires (if buckets[k].category in c.attributes then c.attributes[buckets[k].category] else Null) == buckets[k].value
    ensures var before, after := AfterBuckets(Ranked(cs), buckets[..k]), AfterBuckets(Ranked(cs), buckets[..k + 1]);
            |after.Keys - before.Keys| == Max(0, buckets[k].seats)
  {
    BucketFills(cs, buckets, k);
    var before, after := AfterBuckets(Ranked(cs), buckets[..k]), AfterBuckets(Ranked(cs), buckets[..k + 1]);
    var waiting, admitted := Waiting(cs, before.Keys, buckets[k]), after.Keys - before.Keys;
    assert c.id in waiting && c.id !in admitted;
    Fewer(admitted, waiting, c.id);
  }

  lemma Fewer(a: set<int>, b: set<int>, x: int)
    requires a <= b && x in b && x !in a
    ensures |a| < |b|
  {
    assert b == a + (b - a) && x in b - a;
  }

  // -------------------------------------------------------------- no envy

  /** A pass admits an upward-closed part of those who qualify for it. */
  lemma {:induction false} PassUpwardClosed(cs: seq<Candidate>, taken: set<int>, pool: Pool, seats: int, i: nat, j: nat)
    requires DistinctIds(cs) && i < j < |cs| && Eligible(cs[i], taken, pool)
    requires cs[j] in Picks(cs, taken, pool, seats)
    ensures cs[i] in Picks(cs, taken, pool, seats)
  {
    var rest := Qualified(cs[1..], taken, pool);
    if i == 0 {
      assert Qualified(cs, taken, pool)[0] == cs[0];
      assert Picks(cs, taken, pool, seats)[0] == cs[0];
    } else if Eligible(cs[0], taken, pool) {
      assert Picks(cs, taken, pool, seats) == [cs[0]] + Take(rest, seats - 1);
      assert cs[j] != cs[0];
      PassUpwardClosed(cs[1..], taken, pool, seats - 1, i - 1, j - 1);
    } else {
      PassUpwardClosed(cs[1..], taken, pool, seats, i - 1, j - 1);
    }
  }

  lemma PickedByPass(ranked: seq<Candidate>, picks: seq<Candidate>, taken: set<int>, pool: Pool, seats: int, j: nat)
    requires DistinctIds(ranked) && picks == Picks(ranked, taken, pool, seats) && j < |ranked|
    ensures ranked[j].id in Ids(picks) <==> ranked[j] in picks
    ensures ranked[j] in picks ==> Eligible(ranked[j], taken, pool)
  {
    QualifiedMember(ranked, taken, pool, ranked[j]);
    if ranked[j].id in Ids(picks) {
      var c :| c in picks && c.id == ranked[j].id;
      QualifiedMember(ranked, taken, pool, c);
      var k :| 0 <= k < |ranked| && ranked[k] == c;
      assert k == j;
    }
  }

  /** Admitted on general merit: everyone ranked above is admitted. */
  lemma NoEnvyGeneral(cs: seq<Candidate>, rules: Rules, i: nat, j: nat)
    requires DistinctIds(cs) && i < j < |cs|
    requires var m := Outcome(Ranked(cs), rules);
             Ranked(cs)[j].id in m && m[Ranked(cs)[j].id] == None
    ensures Ranked(cs)[i].id in Outcome(Ranked(cs), rules)
  {
    RankedFacts(cs);
    hide Outcome, Ranked;
    NoEnvyInRanking(Ranked(cs), rules, i, j);
  }

  lemma NoEnvyInRanking(r: seq<Candidate>, rules: Rules, i: nat, j: nat)
    requires DistinctIds(r) && i < j < |r|
    requires r[j].id in Outcome(r, rules) && Outcome(r, rules)[r[j].id] == None
    ensures r[i].id in Outcome(r, rules)
  {
    if rules.totalSeats.Some? {
      hide AfterBuckets, Admit, Picks;
      var m := AfterBuckets(r, rules.reserved);
      var seats := rules.totalSeats.value - |m.Keys|;
      BucketQuotas(r, rules.reserved);
      AdmitsAt(r, m, General, seats, None, j);
      EnvyInPass(r, m, General, seats, None, i, j);
    }
  }

  lemma {:induction false} BucketQuotas(ranked: seq<Candidate>, buckets: seq<Bucket>)
    ensures forall id :: id in AfterBuckets(ranked, buckets) ==> AfterBuckets(ranked, buckets)[id].Some?
  {
    if buckets != [] {
      BucketQuotas(ranked, buckets[..|buckets| - 1]);
    }
  }

  /** Bucket `k` is the one that admitted `c`. */
  ghost predicate AdmittedBy(ranked: seq<Candidate>, buckets: seq<Bucket>, k: nat, c: Candidate)
    requires k < |buckets|
  {
    && c.id !in AfterBuckets(ranked, buckets[..k])
    && c.id in AfterBuckets(ranked, buckets[..k + 1])
    && Matches(c, buckets[k])
  }

  lemma AfterNext(ranked: seq<Candidate>, buckets: seq<Bucket>, k: nat)
    requires k < |buckets|
    ensures AfterBuckets(ranked, buckets[..k + 1]) ==
            AfterBucket(ranked, AfterBuckets(ranked, buckets[..k]), buckets[k])
  {
    assert buckets[..k + 1][..k] == buckets[..k];
  }

  /** What one pass does to one candidate: those already in keep their entry, and the
      only newcomers are the picks. */
  lemma AdmitsAt(ranked: seq<Candidate>, m: Admissions, pool: Pool, seats: int, quota: Option<string>, j: nat)
    requires DistinctIds(ranked) && j < |ranked|
    ensures var after := Admit(m, Picks(ranked, m.Keys, pool, seats), quota);
            var c := ranked[j];
            && (c.id in after <==> c.id in m || c in Picks(ranked, m.Keys, pool, seats))
            && (c.id in m ==> after[c.id] == m[c.id])
            && (c.id in after && c.id !in m ==> after[c.id] == quota && Eligible(c, m.Keys, pool))
  {
    hide Picks, Admit;
    var picks := Picks(ranked, m.Keys, pool, seats);
    AdmitKeys(m, picks, quota);
    PickedByPass(ranked, picks, m.Keys, pool, seats, j);
  }

  /** The quota shown for `c` is that of bucket `k`, which admitted them. */
  ghost predicate Names(ranked: seq<Candidate>, buckets: seq<Bucket>, k: nat, c: Candidate, quota: Option<string>)
    requires k < |buckets|
  {
    AdmittedBy(ranked, buckets, k, c) && quota == Some(Label(buckets[k]))
  }

  /** What the `n`th bucket does to one candidate. */
  lemma NextBucketAt(ranked: seq<Candidate>, buckets: seq<Bucket>, n: nat, j: nat)
    requires DistinctIds(ranked) && n < |buckets| && j < |ranked|
    requires ranked[j].id in AfterBuckets(ranked, buckets[..n + 1])
    ensures var m, after := AfterBuckets(ranked, buckets[..n]), AfterBuckets(ranked, buckets[..n + 1]);
            if ranked[j].id in m then after[ranked[j].id] == m[ranked[j].id]
            else Names(ranked, buckets, n, ranked[j], after[ranked[j].id])
  {
    var m, b := AfterBuckets(ranked, buckets[..n]), buckets[n];
    AfterNext(ranked, buckets, n);
    hide AfterBuckets, Picks, Admit;
    AdmitsAt(ranked, m, Reserved(b), b.seats, Some(Label(b)), j);
  }

  /** A reserved category on an entry names a bucket that admitted the candidate. */
  lemma {:induction false} QuotaNamesBucket(ranked: seq<Candidate>, buckets: seq<Bucket>, n: nat, j: nat)
    requires DistinctIds(ranked) && n <= |buckets| && j < |ranked|
    requires ranked[j].id in AfterBuckets(ranked, buckets[..n])
    ensures exists k: nat :: k < n && Names(ranked, buckets, k, ranked[j], AfterBuckets(ranked, buckets[..n])[ranked[j].id])
  {
    if n > 0 {
      hide AfterBucket, Names, DistinctIds;
      NextBucketAt(ranked, buckets, n - 1, j);
      if ranked[j].id in AfterBuckets(ranked, buckets[..n - 1]) {
        QuotaNamesBucket(ranked, buckets, n - 1, j);
      }
    }
  }

  /** Admitted through a bucket: every candidate ranked above who matches that bucket
      was admitted by it or by an earlier one, hence is on the list as admitted. */
  lemma NoEnvyReserved(cs: seq<Candidate>, rules: Rules, k: nat, i: nat, j: nat)
    requires DistinctIds(cs) && i < j < |cs| && k < |rules.reserved| && rules.totalSeats.Some?
    requires AdmittedBy(Ranked(cs), rules.reserved, k, Ranked(cs)[j])
    requires Matches(Ranked(cs)[i], rules.reserved[k])
    ensures Ranked(cs)[i].id in AfterBuckets(Ranked(cs), rules.reserved[..k + 1])
    ensures Ranked(cs)[i].id in Outcome(Ranked(cs), rules)
  {
    var r, b := Ranked(cs), rules.reserved[k];
    var m := AfterBuckets(r, rules.reserved[..k]);
    RankedFacts(cs);
    AfterNext(r, rules.reserved, k);
    hide AfterBuckets, Admit;
    EnvyInPass(r, m, Reserved(b), b.seats, Some(Label(b)), i, j);
    BucketsOnlyAdd(r, rules.reserved, k + 1);
    GeneralOnlyAdds(r, AfterBuckets(r, rules.reserved), rules.totalSeats.value);
  }

  lemma GeneralOnlyAdds(ranked: seq<Candidate>, m: Admissions, total: int)
    ensures m.Keys <= AfterGeneral(ranked, m, total).Keys
  {
  }

  /** Within one pass, a candidate the pass admitted is not ahead of an eligible one it
      left out. */
  lemma EnvyInPass(ranked: seq<Candidate>, m: Admissions, pool: Pool, seats: int, quota: Option<string>, i: nat, j: nat)
    requires DistinctIds(ranked) && i < j < |ranked|
    requires var after := Admit(m, Picks(ranked, m.Keys, pool, seats), quota);
             ranked[j].id !in m && ranked[j].id in after
    requires pool.Reserved? ==> Matches(ranked[i], pool.bucket)
    ensures ranked[i].id in Admit(m, Picks(ranked, m.Keys, pool, seats), quota)
  {
    hide Admit;
    AdmitsAt(ranked, m, pool, seats, quota, i);
    AdmitsAt(ranked, m, pool, seats, quota, j);
    if ranked[i].id !in m {
      PassUpwardClosed(ranked, m.Keys, pool, seats, i, j);
    }
  }

  lemma {:induction false} BucketsOnlyAdd(ranked: seq<Candidate>, buckets: seq<Bucket>, k: nat)
    requires k <= |buckets|
    ensures AfterBuckets(ranked, buckets[..k]).Keys <= AfterBuckets(ranked, buckets).Keys
  {
    if k == |buckets| {
      assert buckets[..k] == buckets;
    } else {
      BucketsOnlyAdd(ranked, buckets[..|buckets| - 1], k);
      assert buckets[..|buckets| - 1][..k] == buckets[..k];
    }
  }

  // ------------------------------------------------- respecting improvements

  predicate AtLeastAsGood(score: Option<real>, than: Option<real>) {
    than.None? || (score.Some? && score.value >= than.value)
  }

  /** Where a candidate stands in the ranking, and that the others are ranked around
      them exactly as they would be without them. */
  lemma StandsAt(cs: seq<Candidate>, i: nat) returns (k: nat)
    requires DistinctIds(cs) && i < |cs|
    ensures k < |Ranked(cs)| && Ranked(cs)[k] == cs[i]
    ensures Ranked(cs)[..k] + Ranked(cs)[k + 1..] == Ranked(cs[..i] + cs[i + 1..])
  {
    RankedFacts(cs);
    SameCandidates(Ranked(cs), cs);
    assert cs[i] in Ranked(cs);
    k :| 0 <= k < |Ranked(cs)| && Ranked(cs)[k] == cs[i];
    OthersRanked(cs, i, k);
  }

  lemma OthersRanked(cs: seq<Candidate>, i: nat, k: nat)
    requires DistinctIds(cs) && i < |cs| && k < |Ranked(cs)| && Ranked(cs)[k] == cs[i]
    ensures Ranked(cs)[..k] + Ranked(cs)[k + 1..] == Ranked(cs[..i] + cs[i + 1..])
  {
    var r := Ranked(cs);
    var rest := r[..k] + r[k + 1..];
    RankedFacts(cs);
    RemovedOne(cs, i);
    RemovedOne(r, k);
    assert DistinctIds(cs[..i] + cs[i + 1..]);
    forall m, n | 0 <= m < n < |rest|
      ensures Ahead(rest[m], rest[n])
    {
      assert Ahead(r[if m < k then m else m + 1], r[if n < k then n else n + 1]);
    }
    RankingUnique(cs[..i] + cs[i + 1..], rest);
  }

  lemma RemovedOne(cs: seq<Candidate>, i: nat)
    requires i < |cs|
    ensures multiset(cs[..i] + cs[i + 1..]) == multiset(cs) - multiset{cs[i]}
  {
    assert cs == cs[..i] + [cs[i]] + cs[i + 1..];
  }

  /** One pass, with `c` (or its improvement `d`) at two places among the same others:
      the improved run admits `d`, or both runs admit the same others and not `c`. */
  lemma PassRespects(a: seq<Candidate>, k: nat, b: seq<Candidate>, l: nat, taken: set<int>, pool: Pool, seats: int)
    requires l <= k < |a| == |b| && a[..k] + a[k + 1..] == b[..l] + b[l + 1..]
    requires Eligible(a[k], taken, pool) == Eligible(b[l], taken, pool) && a[k] !in a[..k]
    ensures || b[l] in Picks(b, taken, pool, seats)
            || (Picks(a, taken, pool, seats) == Picks(b, taken, pool, seats) && a[k] !in Picks(a, taken, pool, seats))
  {
    assert b[..l] == (a[..k] + a[k + 1..])[..l] == a[..k][..l];
    assert a == a[..k] + [a[k]] + a[k + 1..] && b == b[..l] + [b[l]] + b[l + 1..];
    PassRespectsAround(a[..k], a[k], a[k + 1..], b[..l], b[l], b[l + 1..], taken, pool, seats);
  }

  lemma PassRespectsAround(x: seq<Candidate>, c: Candidate, y: seq<Candidate>,
                           v: seq<Candidate>, d: Candidate, w: seq<Candidate>, taken: set<int>, pool: Pool, seats: int)
    requires |v| <= |x| && v == x[..|v|] && x + y == v + w && Eligible(c, taken, pool) == Eligible(d, taken, pool) && c !in x
    ensures || d in Picks(v + [d] + w, taken, pool, seats)
            || (Picks(x + [c] + y, taken, pool, seats) == Picks(v + [d] + w, taken, pool, seats)
                && c !in Picks(x + [c] + y, taken, pool, seats))
  {
    var fx, fy := Qualified(x, taken, pool), Qualified(y, taken, pool);
    var fv, fw := Qualified(v, taken, pool), Qualified(w, taken, pool);
    var one, two := Qualified(x + [c] + y, taken, pool), Qualified(v + [d] + w, taken, pool);
    assert one == fx + (if Eligible(c, taken, pool) then [c] else []) + fy && two == fv + (if Eligible(d, taken, pool) then [d] else []) + fw
        && fx + fy == fv + fw by {
      QualifiedAround(x, c, y, taken, pool);
      QualifiedAround(v, d, w, taken, pool);
    }
    assert fv <= fx by { QualifiedPrefix(x, |v|, taken, pool); }
    assert c !in fx by { QualifiedMember(x, taken, pool, c); }
    if Eligible(c, taken, pool) {
      SeatsRespect(fx, fy, fv, fw, c, d, seats);
    } else {
      assert c !in one by { QualifiedMember(x + [c] + y, taken, pool, c); }
      assert one == fx + fy && two == fv + fw;
    }
  }

  lemma SeatsRespect(x: seq<Candidate>, y: seq<Candidate>, v: seq<Candidate>, w: seq<Candidate>,
                     c: Candidate, d: Candidate, seats: int)
    requires v <= x && x + y == v + w && c !in x
    ensures || d in Take(v + [d] + w, seats)
            || (Take(x + [c] + y, seats) == Take(v + [d] + w, seats) && c !in Take(x + [c] + y, seats))
  {
    if |v| < seats {
      assert (v + [d] + w)[|v|] == d;
      assert Take(v + [d] + w, seats)[|v|] == d;
    } else if 0 < seats {
      assert Take(v + [d] + w, seats) == v[..seats];
      assert Take(x + [c] + y, seats) == x[..seats];
    }
  }

  lemma QualifiedAround(x: seq<Candidate>, c: Candidate, y: seq<Candidate>, taken: set<int>, pool: Pool)
    ensures Qualified(x + [c] + y, taken, pool) ==
            Qualified(x, taken, pool) + (if Eligible(c, taken, pool) then [c] else []) + Qualified(y, taken, pool)
    ensures Qualified(x + y, taken, pool) == Qualified(x, taken, pool) + Qualified(y, taken, pool)
  {
    QualifiedAppend(x + [c], y, taken, pool);
    QualifiedAppend(x, [c], taken, pool);
    QualifiedAppend(x, y, taken, pool);
    assert [c][1..] == [];
  }

  lemma AdmissionRespects(a: seq<Candidate>, k: nat, b: seq<Candidate>, l: nat, m: Admissions, pool: Pool,
                          seats: int, quota: Option<string>)
    requires l <= k < |a| == |b| && a[..k] + a[k + 1..] == b[..l] + b[l + 1..]
    requires DistinctIds(a) && a[k].id == b[l].id && a[k].attributes == b[l].attributes && a[k].id !in m
    ensures var one, two := Picks(a, m.Keys, pool, seats), Picks(b, m.Keys, pool, seats);
            || b[l].id in Admit(m, two, quota)
            || (Admit(m, one, quota) == Admit(m, two, quota) && a[k].id !in Admit(m, one, quota))
  {
    PassRespects(a, k, b, l, m.Keys, pool, seats);
    hide Picks, Admit;
    AdmitsAt(a, m, pool, seats, quota, k);
    AdmitKeys(m, Picks(b, m.Keys, pool, seats), quota);
    if b[l] in Picks(b, m.Keys, pool, seats) {
      assert b[l].id in Ids(Picks(b, m.Keys, pool, seats));
    }
  }

  lemma {:induction false} BucketsRespect(a: seq<Candidate>, k: nat, b: seq<Candidate>, l: nat, buckets: seq<Bucket>)
    requires l <= k < |a| == |b| && a[..k] + a[k + 1..] == b[..l] + b[l + 1..]
    requires DistinctIds(a) && a[k].id == b[l].id && a[k].attributes == b[l].attributes
    ensures || b[l].id in AfterBuckets(b, buckets)
            || (AfterBuckets(a, buckets) == AfterBuckets(b, buckets) && a[k].id !in AfterBuckets(a, buckets))
  {
    if buckets != [] {
      var rest, q := buckets[..|buckets| - 1], buckets[|buckets| - 1];
      var m := AfterBuckets(b, rest);
      hide Picks, Admit;
      BucketsRespect(a, k, b, l, rest);
      if b[l].id in m {
        AdmitKeys(m, Picks(b, m.Keys, Reserved(q), q.seats), Some(Label(q)));
      } else {
        AdmissionRespects(a, k, b, l, m, Reserved(q), q.seats, Some(Label(q)));
      }
    }
  }

  /** Raising one candidate's score, all else fixed, never turns them from admitted to
      not admitted, and never worsens their rank. */
  lemma RespectsImprovement(cs: seq<Candidate>, i: nat, score: Option<real>, rules: Rules)
    requires DistinctIds(cs) && i < |cs| && AtLeastAsGood(score, cs[i].score)
    ensures var better := cs[i := cs[i].(score := score)];
            && (cs[i].id in Outcome(Ranked(cs), rules) ==> cs[i].id in Outcome(Ranked(better), rules))
            && exists k, l :: 0 <= l <= k < |cs| && Ranked(cs)[k] == cs[i] && Ranked(better)[l] == better[i]
  {
    var better := cs[i := cs[i].(score := score)];
    assert better[..i] == cs[..i] && better[i + 1..] == cs[i + 1..];
    RankedFacts(cs);
    RankedFacts(better);
    var k := StandsAt(cs, i);
    var l := StandsAt(better, i);
    NotBehindBefore(Ranked(cs), k, Ranked(better), l);
    OutcomeRespects(Ranked(cs), k, Ranked(better), l, rules);
  }

  lemma NotBehindBefore(a: seq<Candidate>, k: nat, b: seq<Candidate>, l: nat)
    requires k < |a| == |b| && l < |b| && a[..k] + a[k + 1..] == b[..l] + b[l + 1..]
    requires a[k].id == b[l].id && AtLeastAsGood(b[l].score, a[k].score)
    requires forall i, j :: 0 <= i < j < |a| ==> Ahead(a[i], a[j])
    requires forall i, j :: 0 <= i < j < |b| ==> Ahead(b[i], b[j])
    ensures l <= k
  {
    var others := a[..k] + a[k + 1..];
    assert k + 1 < |a| ==> others[k] == a[k + 1] && Ahead(a[k], others[k]);
    assert k < l ==> others[k] == b[k] && Ahead(others[k], b[l]);
  }

  lemma OutcomeRespects(a: seq<Candidate>, k: nat, b: seq<Candidate>, l: nat, rules: Rules)
    requires l <= k < |a| == |b| && a[..k] + a[k + 1..] == b[..l] + b[l + 1..]
    requires DistinctIds(a) && a[k].id == b[l].id && a[k].attributes == b[l].attributes
    ensures a[k].id in Outcome(a, rules) ==> b[l].id in Outcome(b, rules)
  {
    if rules.totalSeats.Some? {
      hide AfterBuckets, Picks, Admit;
      var m := AfterBuckets(b, rules.reserved);
      var seats := rules.totalSeats.value - |m.Keys|;
      BucketsRespect(a, k, b, l, rules.reserved);
      if b[l].id in m {
        AdmitKeys(m, Picks(b, m.Keys, General, seats), None);
      } else {
        AdmissionRespects(a, k, b, l, m, General, seats, None);
      }
    } else {
      assert b[l] in b;
    }
  }
}
