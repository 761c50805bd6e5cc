/** What holds over every run of registration, and which courses can ever be taken. */
module RegistrationRuns {
  import opened Common
  import opened PrerequisiteGraph
  import opened Registration

  // --------------------------------------------------------------- invariant

  ghost predicate OneRowEach(rows: seq<Row>) {
    forall i, j :: 0 <= i < j < |rows| ==>
      !(rows[i].student == rows[j].student && rows[i].course == rows[j].course && rows[i].semester == rows[j].semester)
  }

  /** Row `j` shows that the student of row `i` has completed `course`. */
  predicate Shows(rows: seq<Row>, i: nat, j: nat, course: int)
    requires i < |rows| && j < |rows|
  {
    rows[j].student == rows[i].student && rows[j].course == course && rows[j].status == Completed
  }

  /** Every row has, for each prerequisite of its course, an earlier completed row. */
  ghost predicate PrerequisitesCameFirst(cat: Catalogue, rows: seq<Row>) {
    forall i, l :: 0 <= i < |rows| && 0 <= l < |cat.links| && cat.links[l].course == rows[i].course ==>
      exists j :: 0 <= j < i && Shows(rows, i, j, cat.links[l].required)
  }

  ghost predicate WithinLimits(cat: Catalogue, rows: seq<Row>) {
    forall student, semester :: student in cat.maxCredits ==>
      Load(cat, rows, student, semester, None) <= cat.maxCredits[student]
  }

  ghost predicate Inv(cat: Catalogue, rows: seq<Row>) {
    && OneRowEach(rows) && PrerequisitesCameFirst(cat, rows) && WithinLimits(cat, rows)
    && forall i :: 0 <= i < |rows| ==> rows[i].student in cat.maxCredits && rows[i].course in cat.credits
  }

  lemma {:induction false} LoadBeyond(cat: Catalogue, rows: seq<Row>, student: int, semester: int, k: nat)
    requires k >= |rows|
    ensures Load(cat, rows, student, semester, Some(k)) == Load(cat, rows, student, semester, None)
  {
    if rows != [] {
      LoadBeyond(cat, rows[..|rows| - 1], student, semester, k);
    }
  }

  /** Changing one row changes the load by that row's contribution. */
  lemma {:induction false} LoadUpdate(cat: Catalogue, rows: seq<Row>, k: nat, r: Row, student: int, semester: int)
    requires k < |rows|
    ensures Load(cat, rows[k := r], student, semester, None) ==
            Load(cat, rows, student, semester, Some(k)) + Contribution(cat, r, student, semester)
    ensures Load(cat, rows, student, semester, None) ==
            Load(cat, rows, student, semester, Some(k)) + Contribution(cat, rows[k], student, semester)
  {
    var last := |rows| - 1;
    if k == last {
      assert rows[k := r][..last] == rows[..last];
      LoadBeyond(cat, rows[..last], student, semester, k);
    } else {
      assert rows[k := r][..last] == rows[..last][k := r];
      LoadUpdate(cat, rows[..last], k, r, student, semester);
    }
  }

  lemma LoadAppend(cat: Catalogue, rows: seq<Row>, r: Row, student: int, semester: int)
    ensures Load(cat, rows + [r], student, semester, None) ==
            Load(cat, rows, student, semester, None) + Contribution(cat, r, student, semester)
  {
  }

  lemma PassedShows(rows: seq<Row>, student: int, course: int) returns (j: nat)
    requires course in Passed(rows, student)
    ensures j < |rows| && rows[j].student == student && rows[j].course == course && rows[j].status == Completed
  {
    var r :| r in rows && r.student == student && r.status == Completed && r.course == course;
    j :| 0 <= j < |rows| && rows[j] == r;
  }

  // ------------------------------------------------- each event keeps it

  /** Replacing one row by the same registration with another status, as long as a
      completed row stays completed. */
  ghost predicate Restatused(rows: seq<Row>, k: nat, r: Row)
    requires k < |rows|
  {
    && r.student == rows[k].student && r.course == rows[k].course && r.semester == rows[k].semester
    && (rows[k].status == Completed ==> r.status == Completed)
  }

  lemma RestatusKeepsOrder(cat: Catalogue, rows: seq<Row>, k: nat, r: Row)
    requires PrerequisitesCameFirst(cat, rows) && OneRowEach(rows) && k < |rows| && Restatused(rows, k, r)
    ensures PrerequisitesCameFirst(cat, rows[k := r]) && OneRowEach(rows[k := r])
  {
    var more := rows[k := r];
    forall i, l | 0 <= i < |more| && 0 <= l < |cat.links| && cat.links[l].course == more[i].course
      ensures exists j :: 0 <= j < i && Shows(more, i, j, cat.links[l].required)
    {
      assert rows[i].course == more[i].course;
      var j :| 0 <= j < i && Shows(rows, i, j, cat.links[l].required);
      assert Shows(more, i, j, cat.links[l].required);
    }
  }

  lemma RestatusKeepsInv(cat: Catalogue, rows: seq<Row>, k: nat, r: Row)
    requires Inv(cat, rows) && k < |rows| && Restatused(rows, k, r)
    requires rows[k].student in cat.maxCredits
    requires Load(cat, rows, r.student, r.semester, Some(k)) + Contribution(cat, r, r.student, r.semester)
             <= cat.maxCredits[r.student]
    ensures Inv(cat, rows[k := r])
  {
    RestatusKeepsOrder(cat, rows, k, r);
    var more := rows[k := r];
    forall student, semester | student in cat.maxCredits
      ensures Load(cat, more, student, semester, None) <= cat.maxCredits[student]
    {
      LoadUpdate(cat, rows, k, r, student, semester);
    }
  }

  lemma {:induction false} NewRowKeepsInv(cat: Catalogue, rows: seq<Row>, r: Row)
    requires Inv(cat, rows) && r.status == Registered && r.student in cat.maxCredits && r.course in cat.credits
    requires Existing(rows, r.student, r.course, r.semester) == |rows|
    requires PrerequisitesMet(cat.links, r.course, Passed(rows, r.student))
    requires Load(cat, rows, r.student, r.semester, None) + Credits(cat, r.course) <= cat.maxCredits[r.student]
    ensures Inv(cat, rows + [r])
  {
    var more := rows + [r];
    forall student, semester | student in cat.maxCredits
      ensures Load(cat, more, student, semester, None) <= cat.maxCredits[student]
    {
      LoadAppend(cat, rows, r, student, semester);
    }
    forall i, l | 0 <= i < |more| && 0 <= l < |cat.links| && cat.links[l].course == more[i].course
      ensures exists j :: 0 <= j < i && Shows(more, i, j, cat.links[l].required)
    {
      if i < |rows| {
        var j :| 0 <= j < i && Shows(rows, i, j, cat.links[l].required);
        assert Shows(more, i, j, cat.links[l].required);
      } else {
        var j := PassedShows(rows, r.student, cat.links[l].required);
        assert Shows(more, i, j, cat.links[l].required);
      }
    }
  }

  lemma StepKeepsInv(cat: Catalogue, rows: seq<Row>, e: Event)
    requires Inv(cat, rows)
    ensures Inv(cat, Step(cat, rows, e))
  {
    if Verdict(cat, rows, e) == Done {
      match e
      case Register(student, course, semester, _) =>
        var k := Existing(rows, student, course, semester);
        var row := Row(student, course, semester, Registered, TakenBefore(rows, student, course, k));
        if k < |rows| {
          RestatusKeepsInv(cat, rows, k, row);
        } else {
          NewRowKeepsInv(cat, rows, row);
        }
      case Drop(k, _, _) =>
        LoadUpdate(cat, rows, k, rows[k], rows[k].student, rows[k].semester);
        RestatusKeepsInv(cat, rows, k, rows[k].(status := Dropped));
      case Complete(k, _) =>
        LoadUpdate(cat, rows, k, rows[k], rows[k].student, rows[k].semester);
        RestatusKeepsInv(cat, rows, k, rows[k].(status := Completed));
    }
  }

  lemma {:induction false} RunKeepsInv(cat: Catalogue, rows: seq<Row>, events: seq<Event>)
    requires Inv(cat, rows)
    ensures Inv(cat, Run(cat, rows, events))
    decreases events
  {
    if events != [] {
      StepKeepsInv(cat, rows, events[0]);
      RunKeepsInv(cat, Step(cat, rows, events[0]), events[1..]);
    }
  }

  /** In every run from an empty table: loads never exceed the maximum, there is one row
      per student, course and semester, and every row that was ever registered has all
      its prerequisites completed. */
  lemma RegistrationSafe(cat: Catalogue, events: seq<Event>)
    ensures var rows := Run(cat, [], events);
            && OneRowEach(rows) && WithinLimits(cat, rows)
            && forall i :: 0 <= i < |rows| ==>
                 PrerequisitesMet(cat.links, rows[i].course, Passed(rows, rows[i].student))
  {
    var rows := Run(cat, [], events);
    RunKeepsInv(cat, [], events);
    forall i, l | 0 <= i < |rows| && 0 <= l < |cat.links| && cat.links[l].course == rows[i].course
      ensures cat.links[l].required in Passed(rows, rows[i].student)
    {
      var j :| 0 <= j < i && Shows(rows, i, j, cat.links[l].required);
      assert rows[j] in rows;
    }
  }

  /** Completed rows never change, whatever happens next. */
  lemma {:induction false} CompletedForever(cat: Catalogue, rows: seq<Row>, events: seq<Event>, i: nat)
    requires i < |rows| && rows[i].status == Completed
    ensures |Run(cat, rows, events)| >= |rows| && Run(cat, rows, events)[i] == rows[i]
    decreases events
  {
    if events != [] {
      CompletedForever(cat, Step(cat, rows, events[0]), events[1..], i);
    }
  }

  // -------------------------------------------------- what can ever be taken

  ghost predicate OnCycle(links: seq<Link>, v: int) {
    exists w :: Edge(links, v, w) && Reach(links, w, v)
  }

  ghost predicate DependsOnCycle(links: seq<Link>, course: int) {
    exists v :: Reach(links, course, v) && OnCycle(links, v)
  }

  lemma AcyclicHasNone(links: seq<Link>, course: int)
    requires Acyclic(links)
    ensures !DependsOnCycle(links, course)
  {
  }

  lemma CycleContinues(links: seq<Link>, course: int) returns (next: int)
    requires DependsOnCycle(links, course)
    ensures Edge(links, course, next) && DependsOnCycle(links, next)
  {
    var v :| Reach(links, course, v) && OnCycle(links, v);
    if course == v {
      next :| Edge(links, v, next) && Reach(links, next, v);
    } else {
      next := FirstStep(links, course, v);
    }
  }

  lemma {:induction false} NoRowDependsOnCycle(cat: Catalogue, rows: seq<Row>, i: nat)
    requires PrerequisitesCameFirst(cat, rows) && i < |rows|
    ensures !DependsOnCycle(cat.links, rows[i].course)
  {
    if DependsOnCycle(cat.links, rows[i].course) {
      var next := CycleContinues(cat.links, rows[i].course);
      var l :| 0 <= l < |cat.links| && cat.links[l].course == rows[i].course && cat.links[l].required == next;
      var j :| 0 <= j < i && Shows(rows, i, j, cat.links[l].required);
      NoRowDependsOnCycle(cat, rows, j);
    }
  }

  const OPEN := Gates(true, false, false, false)

  predicate AllDone(cat: Catalogue, rows: seq<Row>, events: seq<Event>)
    decreases events
  {
    events == [] || (Verdict(cat, rows, events[0]) == Done && AllDone(cat, Step(cat, rows, events[0]), events[1..]))
  }

  lemma {:induction false} RunAppend(cat: Catalogue, rows: seq<Row>, first: seq<Event>, second: seq<Event>)
    ensures Run(cat, rows, first + second) == Run(cat, Run(cat, rows, first), second)
    ensures AllDone(cat, rows, first + second) <==> AllDone(cat, rows, first) && AllDone(cat, Run(cat, rows, first), second)
    decreases first
  {
    if first == [] {
      assert first + second == second;
    } else {
      assert (first + second)[1..] == first[1..] + second;
      RunAppend(cat, Step(cat, rows, first[0]), first[1..], second);
    }
  }

  /** The credit gate is open to a student: no single course exceeds the maximum, and the
      catalogue knows every course a link mentions. */
  ghost predicate CreditsOpen(cat: Catalogue, student: int) {
    && student in cat.maxCredits
    && (forall c :: c in cat.credits ==> cat.credits[c] <= cat.maxCredits[student])
    && (forall i :: 0 <= i < |cat.links| ==> cat.links[i].required in cat.credits)
  }

  ghost predicate OnlyCompleted(rows: seq<Row>) {
    forall i :: 0 <= i < |rows| ==> rows[i].status == Completed
  }

  lemma {:induction false} NothingActive(cat: Catalogue, rows: seq<Row>, student: int, semester: int)
    requires OnlyCompleted(rows)
    ensures Load(cat, rows, student, semester, None) == 0
  {
    if rows != [] {
      NothingActive(cat, rows[..|rows| - 1], student, semester);
    }
  }

  /** What a course still has below it; strictly less for each of its prerequisites. */
  ghost function Below(links: seq<Link>, course: int): set<int> {
    set v | v in Vertices(links, course) && Reach(links, course, v)
  }

  lemma BelowShrinks(links: seq<Link>, course: int, required: int)
    requires Edge(links, course, required) && !DependsOnCycle(links, course)
    ensures !DependsOnCycle(links, required)
    ensures |Below(links, required)| < |Below(links, course)|
  {
    ReachEdge(links, course, required);
    ReachSelf(links, course);
    if DependsOnCycle(links, required) {
      var v :| Reach(links, required, v) && OnCycle(links, v);
      ReachThrough(links, course, required, v);
    }
    EdgeMember(links, course, required);
    forall v | v in Below(links, required)
      ensures v in Below(links, course)
    {
      ReachThrough(links, course, required, v);
      assert v in Vertices(links, course);
    }
    assert course !in Below(links, required);
    assert course in Below(links, course);
    SmallerSet(Below(links, required), Below(links, course));
  }

  /** A plan that goes through from `rows`: every call succeeds, and the course is
      completed at the end, with nothing left active and nothing lost. */
  ghost predicate Plan(cat: Catalogue, rows: seq<Row>, student: int, events: seq<Event>, course: int) {
    var after := Run(cat, rows, events);
    && AllDone(cat, rows, events) && OnlyCompleted(after)
    && Passed(rows, student) <= Passed(after, student) && course in Passed(after, student)
  }

  lemma FinishCourse(cat: Catalogue, rows: seq<Row>, student: int, semester: int, course: int) returns (events: seq<Event>)
    requires OnlyCompleted(rows) && CreditsOpen(cat, student) && course in cat.credits
    requires PrerequisitesMet(cat.links, course, Passed(rows, student)) && course !in Passed(rows, student)
    ensures Plan(cat, rows, student, events, course)
  {
    var k := Existing(rows, student, course, semester);
    forall i | 0 <= i < |rows|
      ensures rows[i].student != student || rows[i].course != course
    {
      assert rows[i] in rows;
    }
    NothingActive(cat, rows, student, semester);
    var first, second := Register(student, course, semester, OPEN), Complete(|rows|, true);
    var mid := Step(cat, rows, first);
    var after := Step(cat, mid, second);
    events := [first, second];
    assert mid == rows + [Row(student, course, semester, Registered, TakenBefore(rows, student, course, k))];
    assert after == rows + [mid[|rows|].(status := Completed)];
    assert events[1..] == [second] && [second][1..] == [];
    assert Run(cat, rows, events) == Run(cat, mid, [second]) == Run(cat, after, []) == after;
    assert AllDone(cat, mid, [second]);
    assert after[|rows|] in after;
    forall r | r in rows
      ensures r in after
    {
    }
  }

  /** Completes one after the other every prerequisite named by the links before `n`. */
  lemma CompletePrerequisites(cat: Catalogue, rows: seq<Row>, student: int, semester: int, course: int, n: nat)
    returns (events: seq<Event>)
    requires OnlyCompleted(rows) && CreditsOpen(cat, student) && n <= |cat.links|
    requires !DependsOnCycle(cat.links, course)
    ensures var after := Run(cat, rows, events);
            && AllDone(cat, rows, events) && OnlyCompleted(after) && Passed(rows, student) <= Passed(after, student)
            && PrerequisitesMet(cat.links[..n], course, Passed(after, student))
    decreases |Below(cat.links, course)|, 0, n
  {
    if n == 0 {
      events := [];
    } else {
      var before := CompletePrerequisites(cat, rows, student, semester, course, n - 1);
      var mid := Run(cat, rows, before);
      var link := cat.links[n - 1];
      var rest: seq<Event> := [];
      if link.course == course {
        assert Edge(cat.links, course, link.required);
        BelowShrinks(cat.links, course, link.required);
        rest := Completable(cat, mid, student, semester, link.required);
      }
      RunAppend(cat, rows, before, rest);
      events := before + rest;
      assert forall i :: 0 <= i < n - 1 ==> cat.links[..n][i] == cat.links[..n - 1][i];
    }
  }

  /** With the calendar, hold and credit gates open, a course that does not depend on a
      cycle can be completed by register and complete calls that all succeed. */
  lemma Completable(cat: Catalogue, rows: seq<Row>, student: int, semester: int, course: int) returns (events: seq<Event>)
    requires OnlyCompleted(rows) && CreditsOpen(cat, student) && course in cat.credits
    requires !DependsOnCycle(cat.links, course)
    ensures Plan(cat, rows, student, events, course)
    decreases |Below(cat.links, course)|, 1
  {
    var before := CompletePrerequisites(cat, rows, student, semester, course, |cat.links|);
    assert cat.links[..|cat.links|] == cat.links;
    var mid := Run(cat, rows, before);
    if course in Passed(mid, student) {
      events := before;
    } else {
      var rest := FinishCourse(cat, mid, student, semester, course);
      RunAppend(cat, rows, before, rest);
      events := before + rest;
    }
  }

  ghost predicate EverRegistered(cat: Catalogue, student: int, course: int) {
    exists events: seq<Event>, i: nat :: HasRow(Run(cat, [], events), i, student, course)
  }

  predicate HasRow(rows: seq<Row>, i: nat, student: int, course: int) {
    i < |rows| && rows[i].student == student && rows[i].course == course
  }

  /** For a student the credit gate is open to, a course of the catalogue is registered
      in some run if and only if it does not depend on a prerequisite cycle. */
  lemma RegistrableExactly(cat: Catalogue, student: int, course: int)
    requires CreditsOpen(cat, student) && course in cat.credits
    ensures EverRegistered(cat, student, course) <==> !DependsOnCycle(cat.links, course)
  {
    if EverRegistered(cat, student, course) {
      var events: seq<Event>, i: nat :| HasRow(Run(cat, [], events), i, student, course);
      RunKeepsInv(cat, [], events);
      NoRowDependsOnCycle(cat, Run(cat, [], events), i);
    }
    if !DependsOnCycle(cat.links, course) {
      var events := Completable(cat, [], student, 0, course);
      var j := PassedShows(Run(cat, [], events), student, course);
      assert HasRow(Run(cat, [], events), j, student, course);
    }
  }

  /** In an acyclic catalogue every course can be completed from an empty history. */
  lemma AcyclicCompletable(cat: Catalogue, student: int, semester: int, course: int) returns (events: seq<Event>)
    requires CreditsOpen(cat, student) && course in cat.credits && Acyclic(cat.links)
    ensures AllDone(cat, [], events) && course in Passed(Run(cat, [], events), student)
  {
    AcyclicHasNone(cat.links, course);
    events := Completable(cat, [], student, semester, course);
  }

  /** In any catalogue, with any gates and limits, a course that depends on a cycle is
      never registered in any run. */
  lemma CyclicNeverRegistered(cat: Catalogue, events: seq<Event>, i: nat)
    requires i < |Run(cat, [], events)|
    ensures !DependsOnCycle(cat.links, Run(cat, [], events)[i].course)
  {
    RunKeepsInv(cat, [], events);
    NoRowDependsOnCycle(cat, Run(cat, [], events), i);
  }
}
