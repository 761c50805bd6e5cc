/** The prerequisite graph: reachability, the worklist search that guards every edit,
    and why the graph stays acyclic. */
module PrerequisiteGraph {
  import opened Common

  /** `course` may not be taken until `required` is passed. Course ids are database keys. */
  datatype Link = Link(pk: int, course: int, required: int, minimumGrade: Option<int>, concurrentAllowed: bool)

  ghost predicate Edge(links: seq<Link>, a: int, b: int) {
    exists i :: 0 <= i < |links| && links[i].course == a && links[i].required == b
  }

  ghost predicate Path(links: seq<Link>, p: seq<int>) {
    p != [] && forall i :: 0 <= i < |p| - 1 ==> Edge(links, p[i], p[i + 1])
  }

  ghost predicate PathBetween(links: seq<Link>, p: seq<int>, a: int, b: int) {
    Path(links, p) && p[0] == a && p[|p| - 1] == b
  }

  /** `a` is `b`, or depends on it through any number of links. */
  ghost predicate Reach(links: seq<Link>, a: int, b: int) {
    exists p :: PathBetween(links, p, a, b)
  }

  ghost predicate Acyclic(links: seq<Link>) {
    forall a, b :: Edge(links, a, b) ==> !Reach(links, b, a)
  }

  // ------------------------------------------------------------ reachability

  lemma ReachSelf(links: seq<Link>, a: int)
    ensures Reach(links, a, a)
  {
    assert PathBetween(links, [a], a, a);
  }

  lemma ReachThrough(links: seq<Link>, a: int, b: int, c: int)
    requires Reach(links, a, b) && Reach(links, b, c)
    ensures Reach(links, a, c)
  {
    var p :| PathBetween(links, p, a, b);
    var q :| PathBetween(links, q, b, c);
    var r := p + q[1..];
    forall i | 0 <= i < |r| - 1
      ensures Edge(links, r[i], r[i + 1])
    {
      if i < |p| - 1 {
        assert Edge(links, p[i], p[i + 1]);
      } else {
        assert r[i] == q[i - |p| + 1] && r[i + 1] == q[i - |p| + 2];
        assert Edge(links, q[i - |p| + 1], q[i - |p| + 2]);
      }
    }
    assert PathBetween(links, r, a, c);
  }

  lemma ReachEdge(links: seq<Link>, a: int, b: int)
    requires Edge(links, a, b)
    ensures Reach(links, a, b)
  {
    assert PathBetween(links, [a, b], a, b);
  }

  lemma PathTail(links: seq<Link>, p: seq<int>, a: int, b: int)
    requires PathBetween(links, p, a, b) && |p| > 1
    ensures Edge(links, a, p[1]) && PathBetween(links, p[1..], p[1], b)
  {
  }

  lemma FirstStep(links: seq<Link>, a: int, c: int) returns (b: int)
    requires Reach(links, a, c) && a != c
    ensures Edge(links, a, b) && Reach(links, b, c)
  {
    var p :| PathBetween(links, p, a, c);
    PathTail(links, p, a, c);
    b := p[1];
  }

  /** A set closed under prerequisites contains everything reachable from inside it. */
  lemma {:induction false} ClosedSetKeepsPath(links: seq<Link>, inside: set<int>, p: seq<int>, a: int, b: int)
    requires forall v, w :: v in inside && Edge(links, v, w) ==> w in inside
    requires PathBetween(links, p, a, b) && a in inside
    ensures b in inside
  {
    if |p| > 1 {
      PathTail(links, p, a, b);
      ClosedSetKeepsPath(links, inside, p[1..], p[1], b);
    }
  }

  // --------------------------------------------------------- the cycle search

  /** The stored links, leaving out the row being edited (none for an insert). */
  function Others(rows: seq<Link>, pk: Option<int>): (r: seq<Link>) {
    if rows == [] then []
    else if pk == Some(rows[0].pk) then Others(rows[1..], pk)
    else [rows[0]] + Others(rows[1..], pk)
  }

  function RequiredBy(links: seq<Link>, course: int): (r: seq<int>) {
    if links == [] then []
    else if links[0].course == course then [links[0].required] + RequiredBy(links[1..], course)
    else RequiredBy(links[1..], course)
  }

  lemma {:induction false} OthersExact(rows: seq<Link>, pk: Option<int>, l: Link)
    ensures l in Others(rows, pk) <==> l in rows && pk != Some(l.pk)
  {
    if rows != [] {
      OthersExact(rows[1..], pk, l);
    }
  }

  lemma EdgeMember(links: seq<Link>, a: int, b: int)
    ensures Edge(links, a, b) <==> exists l :: l in links && l.course == a && l.required == b
  {
  }

  lemma {:induction false} RequiredByExact(links: seq<Link>, course: int, b: int)
    ensures b in RequiredBy(links, course) <==> Edge(links, course, b)
  {
    EdgeMember(links, course, b);
    if links != [] {
      RequiredByExact(links[1..], course, b);
      EdgeMember(links[1..], course, b);
    }
  }

  function Vertices(links: seq<Link>, start: int): set<int> {
    {start} + set l | l in links :: l.required
  }

  /** `_creates_cycle`: a depth-first walk up the prerequisites of `required`. Each turn
      either marks an unseen course or shortens the frontier. */
  method CreatesCycle(rows: seq<Link>, pk: Option<int>, course: int, required: int) returns (cycle: bool)
    ensures cycle <==> Reach(Others(rows, pk), required, course)
  {
    ghost var links := Others(rows, pk);
    ghost var vertices := Vertices(links, required);
    var seen: set<int> := {};
    var frontier := [required];
    ReachSelf(links, required);
    while frontier != []
      invariant course !in seen && seen <= vertices
      invariant forall v :: v in frontier ==> v in vertices
      invariant required in seen || required in frontier
      invariant forall v :: v in frontier ==> Reach(links, required, v)
      invariant forall v :: v in seen ==> Reach(links, required, v)
      invariant forall v, w :: v in seen && Edge(links, v, w) ==> w in seen || w in frontier
      decreases |vertices - seen|, |frontier|
    {
      var current := frontier[|frontier| - 1];
      var rest := frontier[..|frontier| - 1];
      assert frontier == rest + [current];
      if current == course {
        return true;
      }
      if current in seen {
        frontier := rest;
        continue;
      }
      var found := RequiredBy(Others(rows, pk), current);
      ExtendFrontier(links, required, current, found);
      assert vertices - seen > vertices - (seen + {current});
      SmallerSet(vertices - (seen + {current}), vertices - seen);
      seen := seen + {current};
      frontier := rest + found;
    }
    if Reach(links, required, course) {
      var p :| PathBetween(links, p, required, course);
      ClosedSetKeepsPath(links, seen, p, required, course);
      assert false;
    }
    cycle := false;
  }

  lemma SmallerSet(a: set<int>, b: set<int>)
    requires a < b
    ensures |a| < |b|
  {
    assert b == a + (b - a);
    assert b - a != {};
  }

  lemma ExtendFrontier(links: seq<Link>, start: int, current: int, found: seq<int>)
    requires found == RequiredBy(links, current) && Reach(links, start, current)
    ensures forall w :: Edge(links, current, w) ==> w in found
    ensures forall w :: w in found ==> w in Vertices(links, start) && Reach(links, start, w)
  {
    forall w
      ensures w in found <==> Edge(links, current, w)
    {
      RequiredByExact(links, current, w);
    }
    forall w | w in found
      ensures w in Vertices(links, start) && Reach(links, start, w)
    {
      EdgeMember(links, current, w);
      ReachEdge(links, current, w);
      ReachThrough(links, start, current, w);
    }
  }

  // ------------------------------------------------------ edits stay acyclic

  /** `more` has the edges of `base` and one from `course` to `required`. */
  ghost predicate AddsEdge(base: seq<Link>, more: seq<Link>, course: int, required: int) {
    forall a, b :: Edge(more, a, b) <==> Edge(base, a, b) || (a == course && b == required)
  }

  lemma {:induction false} PathUsesNewEdge(base: seq<Link>, more: seq<Link>, course: int, required: int,
                                           p: seq<int>, a: int, b: int)
    requires AddsEdge(base, more, course, required) && PathBetween(more, p, a, b)
    ensures Reach(base, a, b) || (Reach(base, a, course) && Reach(base, required, b))
  {
    if |p| == 1 {
      ReachSelf(base, a);
    } else {
      PathTail(more, p, a, b);
      PathUsesNewEdge(base, more, course, required, p[1..], p[1], b);
      ReachSelf(base, a);
      if Edge(base, a, p[1]) {
        ReachEdge(base, a, p[1]);
        if Reach(base, p[1], b) {
          ReachThrough(base, a, p[1], b);
        } else {
          ReachThrough(base, a, p[1], course);
        }
      }
    }
  }

  lemma ReachMonotone(base: seq<Link>, more: seq<Link>, a: int, b: int)
    requires Reach(base, a, b) && forall x, y :: Edge(base, x, y) ==> Edge(more, x, y)
    ensures Reach(more, a, b)
  {
    var p :| PathBetween(base, p, a, b);
    assert PathBetween(more, p, a, b);
  }

  /** The guard is exact: adding a link to an acyclic graph keeps it acyclic if and only
      if the course is not reachable from the one it would require. */
  lemma GuardExact(base: seq<Link>, more: seq<Link>, course: int, required: int)
    requires Acyclic(base) && AddsEdge(base, more, course, required)
    ensures Acyclic(more) <==> !Reach(base, required, course)
  {
    if Reach(base, required, course) {
      ReachMonotone(base, more, required, course);
      assert Edge(more, course, required);
    } else {
      forall a, b | Edge(more, a, b)
        ensures !Reach(more, b, a)
      {
        if Reach(more, b, a) {
          var p :| PathBetween(more, p, b, a);
          PathUsesNewEdge(base, more, course, required, p, b, a);
          if Edge(base, a, b) {
            assert Reach(base, required, a) && Reach(base, b, course);
            ReachEdge(base, a, b);
            ReachThrough(base, required, a, b);
            ReachThrough(base, required, b, course);
          }
          assert false;
        }
      }
    }
  }

  // ------------------------------------------------------------ the link table

  datatype SaveResult = Saved | SelfReference | CycleRejected | PairExists | NoSuchRow

  predicate PairTaken(rows: seq<Link>, course: int, required: int) {
    exists i :: 0 <= i < |rows| && rows[i].course == course && rows[i].required == required
  }

  function IndexOf(rows: seq<Link>, pk: int): (k: nat)
    ensures k <= |rows|
    ensures k < |rows| ==> rows[k].pk == pk
    ensures forall i :: 0 <= i < k ==> rows[i].pk != pk
  {
    if rows == [] then 0 else if rows[0].pk == pk then 0 else 1 + IndexOf(rows[1..], pk)
  }

  /** The table with the link stored: appended, or replacing the row being edited. */
  function Stored(rows: seq<Link>, edit: bool, link: Link): seq<Link> {
    if edit && IndexOf(rows, link.pk) < |rows| then rows[IndexOf(rows, link.pk) := link] else rows + [link]
  }

  ghost predicate PksDistinct(rows: seq<Link>) {
    forall i, j :: 0 <= i < j < |rows| ==> rows[i].pk != rows[j].pk
  }

  lemma OthersAcyclic(rows: seq<Link>, pk: Option<int>)
    requires Acyclic(rows)
    ensures Acyclic(Others(rows, pk))
  {
    var links := Others(rows, pk);
    forall a, b
      ensures Edge(links, a, b) ==> Edge(rows, a, b)
    {
      EdgeMember(links, a, b);
      EdgeMember(rows, a, b);
      if Edge(links, a, b) {
        var l :| l in links && l.course == a && l.required == b;
        OthersExact(rows, pk, l);
      }
    }
    forall a, b | Edge(links, a, b)
      ensures !Reach(links, b, a)
    {
      if Reach(links, b, a) {
        ReachMonotone(links, rows, b, a);
      }
    }
  }

  lemma {:induction false} StoredAddsEdge(rows: seq<Link>, edit: bool, link: Link)
    requires PksDistinct(rows) && (edit <==> IndexOf(rows, link.pk) < |rows|)
    ensures AddsEdge(Others(rows, Some(link.pk)), Stored(rows, edit, link), link.course, link.required)
  {
    var base, more := Others(rows, Some(link.pk)), Stored(rows, edit, link);
    forall l
      ensures l in more <==> l in base || l == link
    {
      OthersExact(rows, Some(link.pk), l);
      StoredMembers(rows, edit, link, l);
    }
    forall a, b
      ensures Edge(more, a, b) <==> Edge(base, a, b) || (a == link.course && b == link.required)
    {
      EdgeMember(more, a, b);
      EdgeMember(base, a, b);
      assert link in more;
    }
  }

  lemma StoredMembers(rows: seq<Link>, edit: bool, link: Link, l: Link)
    requires PksDistinct(rows) && (edit <==> IndexOf(rows, link.pk) < |rows|)
    ensures l in Stored(rows, edit, link) <==> (l in rows && l.pk != link.pk) || l == link
  {
  }

  /** No two links join the same pair of courses. */
  ghost predicate PairsDistinct(rows: seq<Link>) {
    forall i, j :: 0 <= i < j < |rows| ==> rows[i].course != rows[j].course || rows[i].required != rows[j].required
  }

  /** Another row than the one with key `pk` joins the pair. */
  predicate Joined(rows: seq<Link>, pk: int, course: int, required: int) {
    exists i :: 0 <= i < |rows| && rows[i].pk != pk && rows[i].course == course && rows[i].required == required
  }

  lemma JoinedExactly(rows: seq<Link>, pk: int, course: int, required: int)
    ensures PairTaken(Others(rows, Some(pk)), course, required) <==> Joined(rows, pk, course, required)
  {
    var others := Others(rows, Some(pk));
    if PairTaken(others, course, required) {
      var i :| 0 <= i < |others| && others[i].course == course && others[i].required == required;
      OthersExact(rows, Some(pk), others[i]);
      var j :| 0 <= j < |rows| && rows[j] == others[i];
      assert rows[j].pk != pk;
    }
    if Joined(rows, pk, course, required) {
      var i :| 0 <= i < |rows| && rows[i].pk != pk && rows[i].course == course && rows[i].required == required;
      OthersExact(rows, Some(pk), rows[i]);
      var j :| 0 <= j < |others| && others[j] == rows[i];
      assert others[j].course == course;
    }
  }

  lemma StoredPairs(rows: seq<Link>, edit: bool, link: Link)
    requires PksDistinct(rows) && PairsDistinct(rows) && (edit <==> IndexOf(rows, link.pk) < |rows|) && !Joined(rows, link.pk, link.course, link.required)
    ensures PairsDistinct(Stored(rows, edit, link)) && link in Stored(rows, edit, link)
  {
    var k, more := IndexOf(rows, link.pk), Stored(rows, edit, link);
    assert more[k] == link;
    forall i | 0 <= i < |more| && i != k
      ensures more[i].course != link.course || more[i].required != link.required
    {
      assert more[i] == rows[i] && rows[i].pk != link.pk;
    }
  }

  class PrerequisiteTable {
    var rows: seq<Link>
    var nextPk: int

    ghost predicate Valid()
      reads this
    {
      && PksDistinct(rows) && PairsDistinct(rows) && Acyclic(rows)
      && forall i :: 0 <= i < |rows| ==> rows[i].pk < nextPk
    }

    constructor ()
      ensures Valid() && rows == []
    {
      rows, nextPk := [], 1;
    }

    /** Saving a link after `full_clean`: an insert, or an edit of the row `edited`. */
    method Save(edited: Option<int>, course: int, required: int, minimumGrade: Option<int>, concurrentAllowed: bool)
      returns (result: SaveResult, ghost link: Link)
      requires Valid()
      modifies this
      ensures Valid()
      ensures link == Link(edited.GetOr(old(nextPk)), course, required, minimumGrade, concurrentAllowed)
      ensures result == Saved ==> rows == Stored(old(rows), edited.Some?, link)
      ensures result != Saved ==> rows == old(rows)
      ensures result == NoSuchRow <==> edited.Some? && IndexOf(old(rows), edited.value) == |old(rows)|
      ensures result != NoSuchRow ==>
              (result in {SelfReference, CycleRejected} <==> !Acyclic(Stored(old(rows), edited.Some?, link)))
      ensures result != NoSuchRow ==> (result == SelfReference <==> course == required)
      ensures result in {Saved, PairExists} ==> (result == PairExists <==> Joined(old(rows), link.pk, course, required))
      ensures result == Saved && edited.None? ==> rows == old(rows) + [link]
      ensures result == Saved && edited.Some? ==>
                |rows| == |old(rows)| && link in rows && forall i :: 0 <= i < |rows| && old(rows)[i].pk != link.pk ==> rows[i] == old(rows)[i]
    {
      var row := Link(edited.GetOr(nextPk), course, required, minimumGrade, concurrentAllowed);
      link := row;
      if edited.Some? && IndexOf(rows, edited.value) == |rows| {
        return NoSuchRow, link;
      }
      OthersAcyclic(rows, edited);
      InsertLeavesNothingOut(rows, edited, row.pk);
      StoredAddsEdge(rows, edited.Some?, row);
      GuardExact(Others(rows, edited), Stored(rows, edited.Some?, row), course, required);
      JoinedExactly(rows, row.pk, course, required);
      if course == required {
        ReachSelf(Others(rows, edited), course);
        return SelfReference, link;
      }
      var cycle := CreatesCycle(rows, edited, course, required);
      if cycle {
        return CycleRejected, link;
      }
      if PairTaken(Others(rows, edited), course, required) {
        return PairExists, link;
      }
      StoredPairs(rows, edited.Some?, row);
      rows := Stored(rows, edited.Some?, row);
      if edited.None? {
        nextPk := nextPk + 1;
      }
      result := Saved;
    }
  }

  lemma {:induction false} InsertLeavesNothingOut(rows: seq<Link>, edited: Option<int>, pk: int)
    requires edited.Some? ==> edited.value == pk
    requires edited.None? ==> forall i :: 0 <= i < |rows| ==> rows[i].pk != pk
    ensures Others(rows, edited) == Others(rows, Some(pk))
  {
    if rows != [] && edited.None? {
      forall i | 0 <= i < |rows[1..]|
        ensures rows[1..][i].pk != pk
      {
        assert rows[1..][i] == rows[i + 1];
      }
      InsertLeavesNothingOut(rows[1..], edited, pk);
    }
  }
}
