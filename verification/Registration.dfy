/** Course registration: registering, dropping and completing, over a fixed catalogue. */
module Registration {
  import opened Common
  import opened PrerequisiteGraph

  datatype Status = Registered | Dropped | Completed

  datatype Row = Row(student: int, course: int, semester: int, status: Status, isRepeat: bool)

  /** Credit hours per course, the prerequisite links, and the maximum semester load of
      each student's programme. */
  datatype Catalogue = Catalogue(credits: map<int, nat>, links: seq<Link>, maxCredits: map<int, nat>)

  /** What the calendar and the hold registry say at the moment of a call. */
  datatype Gates = Gates(windowOpen: bool, blocked: bool, overrideGiven: bool, mayOverride: bool)

  datatype Outcome =
    | Done
    | WindowClosed | AlreadyRegistered | AlreadyCompleted | UnknownStudent | PrerequisiteNotMet
    | CreditLimitExceeded | BlockedByHold | UnknownCourse
    | ReasonRequired | NotRegistered | NoSuchRegistration

  // ------------------------------------------------------------------ queries

  function Existing(rows: seq<Row>, student: int, course: int, semester: int): (k: nat)
    ensures k <= |rows|
    ensures k < |rows| ==> rows[k].student == student && rows[k].course == course && rows[k].semester == semester
    ensures forall i :: 0 <= i < k ==>
              !(rows[i].student == student && rows[i].course == course && rows[i].semester == semester)
  {
    if rows == [] then 0
    else if rows[0].student == student && rows[0].course == course && rows[0].semester == semester then 0
    else 1 + Existing(rows[1..], student, course, semester)
  }

  function Passed(rows: seq<Row>, student: int): set<int> {
    set r | r in rows && r.student == student && r.status == Completed :: r.course
  }

  function Credits(cat: Catalogue, course: int): nat {
    if course in cat.credits then cat.credits[course] else 0
  }

  /** Credits of the student's active registrations in a semester, leaving out the row
      at `skip`. */
  function Load(cat: Catalogue, rows: seq<Row>, student: int, semester: int, skip: Option<nat>): nat {
    if rows == [] then 0
    else
      var last := |rows| - 1;
      Load(cat, rows[..last], student, semester, skip)
      + if skip == Some(last) then 0 else Contribution(cat, rows[last], student, semester)
  }

  function Contribution(cat: Catalogue, r: Row, student: int, semester: int): nat {
    if r.student == student && r.semester == semester && r.status == Registered then Credits(cat, r.course) else 0
  }

  predicate TakenBefore(rows: seq<Row>, student: int, course: int, k: nat) {
    exists i :: 0 <= i < |rows| && i != k && rows[i].student == student && rows[i].course == course
  }

  // ------------------------------------------------------ unmet prerequisites

  /** Whether a history (course to grade point, `None` when unknown) satisfies a link. */
  predicate Satisfied(l: Link, passed: map<int, Option<int>>, concurrent: set<int>) {
    if l.required in passed then
      l.minimumGrade.None? || passed[l.required].None? || passed[l.required].value >= l.minimumGrade.value
    else
      l.concurrentAllowed && l.required in concurrent
  }

  /** The links of the given courses that are not satisfied, in order. */
  function Unmet(links: seq<Link>, courses: set<int>, passed: map<int, Option<int>>, concurrent: set<int>): seq<Link> {
    if links == [] then []
    else
      var link := links[|links| - 1];
      Unmet(links[..|links| - 1], courses, passed, concurrent)
      + if link.course in courses && !Satisfied(link, passed, concurrent) then [link] else []
  }

  lemma {:induction false} UnmetExact(links: seq<Link>, courses: set<int>, passed: map<int, Option<int>>, concurrent: set<int>)
    ensures forall l :: l in Unmet(links, courses, passed, concurrent) <==>
              l in links && l.course in courses && !Satisfied(l, passed, concurrent)
    ensures courses == {} ==> Unmet(links, courses, passed, concurrent) == []
  {
    if links != [] {
      UnmetExact(links[..|links| - 1], courses, passed, concurrent);
      assert links == links[..|links| - 1] + [links[|links| - 1]];
    }
  }

  method UnmetPrerequisites(links: seq<Link>, courses: set<int>, passed: map<int, Option<int>>, concurrent: set<int>)
    returns (failures: seq<Link>)
    ensures failures == Unmet(links, courses, passed, concurrent)
    ensures forall l :: l in failures <==>
              && l in links && l.course in courses
              && (l.required in passed ==>
                    l.minimumGrade.Some? && passed[l.required].Some? && passed[l.required].value < l.minimumGrade.value)
              && (l.required !in passed ==> !(l.concurrentAllowed && l.required in concurrent))
  {
    failures := [];
    UnmetExact(links, courses, passed, concurrent);
    if courses == {} {
      return;
    }
    for i := 0 to |links|
      invariant failures == Unmet(links[..i], courses, passed, concurrent)
    {
      var link := links[i];
      assert links[..i + 1][..i] == links[..i];
      if link.course !in courses {
        continue;
      }
      if link.required in passed {
        var achieved := passed[link.required];
        if link.minimumGrade.Some? && achieved.Some? && achieved.value < link.minimumGrade.value {
          failures := failures + [link];
        }
        continue;
      }
      if link.concurrentAllowed && link.required in concurrent {
        continue;
      }
      failures := failures + [link];
    }
    assert links[..|links|] == links;
  }

  /** All prerequisites of a course have been completed. */
  predicate PrerequisitesMet(links: seq<Link>, course: int, passed: set<int>) {
    forall i :: 0 <= i < |links| && links[i].course == course ==> links[i].required in passed
  }

  // -------------------------------------------------------------- operations

  function Refusal(cat: Catalogue, rows: seq<Row>, student: int, course: int, semester: int, gates: Gates): Outcome {
    var k := Existing(rows, student, course, semester);
    if !gates.windowOpen then WindowClosed
    else if k < |rows| && rows[k].status == Registered then AlreadyRegistered
    else if k < |rows| && rows[k].status == Completed then AlreadyCompleted
    else if student !in cat.maxCredits then UnknownStudent
    else if !PrerequisitesMet(cat.links, course, Passed(rows, student)) then PrerequisiteNotMet
    else if Load(cat, rows, student, semester, if k < |rows| then Some(k) else None) + Credits(cat, course)
            > cat.maxCredits[student] then CreditLimitExceeded
    else if gates.blocked && !(gates.overrideGiven && gates.mayOverride) then BlockedByHold
    else if course !in cat.credits then UnknownCourse
    else Done
  }

  function Registering(rows: seq<Row>, student: int, course: int, semester: int): seq<Row> {
    var k := Existing(rows, student, course, semester);
    var row := Row(student, course, semester, Registered, TakenBefore(rows, student, course, k));
    if k < |rows| then rows[k := row] else rows + [row]
  }

  datatype Event =
    | Register(student: int, course: int, semester: int, gates: Gates)
    | Drop(row: nat, reasonGiven: bool, windowOpen: bool)
    | Complete(row: nat, reasonGiven: bool)

  function Verdict(cat: Catalogue, rows: seq<Row>, e: Event): Outcome {
    match e
    case Register(student, course, semester, gates) => Refusal(cat, rows, student, course, semester, gates)
    case Drop(k, reasonGiven, windowOpen) =>
      if k >= |rows| then NoSuchRegistration
      else if !reasonGiven then ReasonRequired
      else if rows[k].status != Registered then NotRegistered
      else if !windowOpen then WindowClosed
      else Done
    case Complete(k, reasonGiven) =>
      if k >= |rows| then NoSuchRegistration else if !reasonGiven then ReasonRequired else Done
  }

  /** The rows after an event; a refused one changes nothing. */
  function Step(cat: Catalogue, rows: seq<Row>, e: Event): seq<Row> {
    if Verdict(cat, rows, e) != Done then rows
    else
      match e
      case Register(student, course, semester, _) => Registering(rows, student, course, semester)
      case Drop(k, _, _) => if k < |rows| then rows[k := rows[k].(status := Dropped)] else rows
      case Complete(k, _) => if k < |rows| then rows[k := rows[k].(status := Completed)] else rows
  }

  function Run(cat: Catalogue, rows: seq<Row>, events: seq<Event>): seq<Row>
    decreases events
  {
    if events == [] then rows else Run(cat, Step(cat, rows, events[0]), events[1..])
  }

  /** Registration passes completed courses with unknown grades and no concurrent
      courses, so a link is met exactly when its required course is completed. */
  lemma UnknownGradesPass(links: seq<Link>, course: int, done: set<int>, passed: map<int, Option<int>>, unmet: seq<Link>)
    requires passed.Keys == done && forall c :: c in passed ==> passed[c] == None
    requires forall l :: l in unmet <==> l in links && l.course in {course} && !Satisfied(l, passed, {})
    ensures unmet == [] <==> PrerequisitesMet(links, course, done)
  {
    if unmet != [] {
      assert unmet[0] in unmet;
      var i :| 0 <= i < |links| && links[i] == unmet[0];
      assert links[i].course == course && links[i].required !in done;
    } else {
      forall i | 0 <= i < |links| && links[i].course == course
        ensures links[i].required in done
      {
        assert links[i] !in unmet;
      }
    }
  }
}
