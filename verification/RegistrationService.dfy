/** The registration table and its three operations: what each does to loads, to what has
    been passed, and to the invariant. */
module RegistrationService {
  import opened Common
  import opened PrerequisiteGraph
  import opened Registration
  import opened RegistrationRuns

  predicate ActiveAt(rows: seq<Row>, i: nat, student: int, course: int, semester: int)
    requires i < |rows|
  {
    rows[i].student == student && rows[i].course == course && rows[i].semester == semester && rows[i].status == Registered
  }

  predicate IsActive(rows: seq<Row>, student: int, course: int, semester: int) {
    exists i :: 0 <= i < |rows| && ActiveAt(rows, i, student, course, semester)
  }

  /** The load of one student in one semester changes by `shift`, and no other load does. */
  ghost predicate LoadShifts(cat: Catalogue, before: seq<Row>, after: seq<Row>, student: int, semester: int, shift: int) {
    forall s, t :: Load(cat, after, s, t, None) == Load(cat, before, s, t, None) + if s == student && t == semester then shift else 0
  }

  /** What giving one row another status does. */
  lemma RestatusShifts(cat: Catalogue, rows: seq<Row>, k: nat, status: Status)
    requires k < |rows|
    ensures var row, after := rows[k], rows[k := rows[k].(status := status)];
            && LoadShifts(cat, rows, after, row.student, row.semester,
                          Weight(cat, row.(status := status)) - Weight(cat, row))
            && (row.status != Completed ==>
                  forall s :: Passed(after, s) == Passed(rows, s) + if s == row.student && status == Completed then {row.course} else {})
            && (row.status == Completed && status == Completed ==> row.course in Passed(rows, row.student) && after == rows)
  {
    var row, after := rows[k], rows[k := rows[k].(status := status)];
    forall s, t
      ensures Load(cat, after, s, t, None) == Load(cat, rows, s, t, None)
                + if s == row.student && t == row.semester then Weight(cat, row.(status := status)) - Weight(cat, row) else 0
    {
      LoadUpdate(cat, rows, k, row.(status := status), s, t);
    }
    if row.status != Completed {
      forall s
        ensures Passed(after, s) == Passed(rows, s) + if s == row.student && status == Completed then {row.course} else {}
      {
        PassedUpdate(rows, k, row.(status := status), s);
      }
    }
  }

  /** The credits a row counts for. */
  function Weight(cat: Catalogue, r: Row): nat {
    if r.status == Registered then Credits(cat, r.course) else 0
  }

  lemma PassedUpdate(rows: seq<Row>, k: nat, r: Row, student: int)
    requires k < |rows| && rows[k].status != Completed && r.student == rows[k].student && r.course == rows[k].course
    ensures Passed(rows[k := r], student) ==
            Passed(rows, student) + if student == r.student && r.status == Completed then {r.course} else {}
  {
    var after := rows[k := r];
    assert after[k] == r;
    forall x | x in after
      ensures x == r || x in rows
    {
    }
    forall x | x in rows && x != rows[k]
      ensures x in after
    {
      var i :| 0 <= i < |rows| && rows[i] == x;
      assert after[i] == x;
    }
  }

  lemma PassedAppend(rows: seq<Row>, r: Row, student: int)
    requires r.status != Completed
    ensures Passed(rows + [r], student) == Passed(rows, student)
  {
  }

  /** What storing an active row does: a new one, or one over a dropped registration. */
  lemma StoringShifts(cat: Catalogue, rows: seq<Row>, k: nat, row: Row)
    requires k <= |rows| && row.status == Registered
    requires k < |rows| ==> rows[k].status == Dropped && rows[k].student == row.student && rows[k].course == row.course
    ensures var after := if k < |rows| then rows[k := row] else rows + [row];
            && (forall s :: Passed(after, s) == Passed(rows, s))
            && LoadShifts(cat, rows, after, row.student, row.semester, Credits(cat, row.course))
  {
    var after := if k < |rows| then rows[k := row] else rows + [row];
    forall s
      ensures Passed(after, s) == Passed(rows, s)
    {
      if k < |rows| {
        PassedUpdate(rows, k, row, s);
      } else {
        PassedAppend(rows, row, s);
      }
    }
    hide Passed;
    forall s, t
      ensures Load(cat, after, s, t, None) == Load(cat, rows, s, t, None)
                + if s == row.student && t == row.semester then Credits(cat, row.course) else 0
    {
      if k < |rows| {
        LoadUpdate(cat, rows, k, row, s, t);
      } else {
        LoadAppend(cat, rows, row, s, t);
      }
    }
  }

  /** What the answer to a registration means: it succeeds exactly when nothing stands in
      the way, and each refusal names something that does. */
  ghost predicate Answers(cat: Catalogue, rows: seq<Row>, student: int, course: int, semester: int, gates: Gates, r: Outcome) {
    && (r == Done <==>
          && gates.windowOpen
          && !Has(rows, student, course, semester, Registered) && !Has(rows, student, course, semester, Completed)
          && student in cat.maxCredits && course in cat.credits
          && (forall i :: 0 <= i < |cat.links| && cat.links[i].course == course ==>
                cat.links[i].required in Passed(rows, student))
          && Load(cat, rows, student, semester, None) + cat.credits[course] <= cat.maxCredits[student]
          && (gates.blocked ==> gates.overrideGiven && gates.mayOverride))
    && (r == WindowClosed <==> !gates.windowOpen)
    && (gates.windowOpen ==> (r == AlreadyRegistered <==> Has(rows, student, course, semester, Registered)))
    && (gates.windowOpen ==> (r == AlreadyCompleted <==> Has(rows, student, course, semester, Completed)))
    && (r == UnknownStudent ==> student !in cat.maxCredits)
    && (r == PrerequisiteNotMet ==>
          exists i :: 0 <= i < |cat.links| && cat.links[i].course == course && cat.links[i].required !in Passed(rows, student))
    && (r == CreditLimitExceeded ==>
          student in cat.maxCredits
          && Load(cat, rows, student, semester, None) + (if course in cat.credits then cat.credits[course] else 0)
             > cat.maxCredits[student])
    && (r == BlockedByHold ==> gates.blocked && !(gates.overrideGiven && gates.mayOverride))
    && (r == UnknownCourse ==> course !in cat.credits)
    && (r.Done? || r.WindowClosed? || r.AlreadyRegistered? || r.AlreadyCompleted? || r.UnknownStudent? || r.PrerequisiteNotMet?
        || r.CreditLimitExceeded? || r.BlockedByHold? || r.UnknownCourse?)
  }

  /** What a successful registration leaves: one active row, a repeat exactly when the
      student has the course in another semester, in place of a dropped one if there is
      one; the credits on the load of that student and semester; all else as it was. */
  ghost predicate Registers(cat: Catalogue, rows: seq<Row>, after: seq<Row>, student: int, course: int, semester: int) {
    && Row(student, course, semester, Registered, TakenElsewhere(rows, student, course, semester)) in after
    && |after| == |rows| + (if Has(rows, student, course, semester, Dropped) then 0 else 1)
    && (forall i :: 0 <= i < |rows| && !IsRow(rows[i], student, course, semester, Dropped) ==>
          i < |after| && after[i] == rows[i])
    && course in cat.credits && LoadShifts(cat, rows, after, student, semester, cat.credits[course])
    && (forall s :: Passed(after, s) == Passed(rows, s))
  }

  lemma RegisteringDecided(cat: Catalogue, rows: seq<Row>, student: int, course: int, semester: int, gates: Gates)
    requires Inv(cat, rows)
    ensures Answers(cat, rows, student, course, semester, gates, Refusal(cat, rows, student, course, semester, gates))
  {
    var k := Existing(rows, student, course, semester);
    HasExactly(rows, student, course, semester, Registered);
    HasExactly(rows, student, course, semester, Completed);
    if k < |rows| {
      LoadUpdate(cat, rows, k, rows[k], student, semester);
    }
    hide Load, Passed, Has, OneRowEach, PrerequisitesCameFirst;
  }

  lemma RegisteringStored(cat: Catalogue, rows: seq<Row>, student: int, course: int, semester: int, gates: Gates)
    requires Inv(cat, rows) && Refusal(cat, rows, student, course, semester, gates) == Done
    ensures Registers(cat, rows, Registering(rows, student, course, semester), student, course, semester)
  {
    var k := Existing(rows, student, course, semester);
    HasExactly(rows, student, course, semester, Dropped);
    TakenExactly(rows, student, course, semester);
    RegisteringShifts(cat, rows, student, course, semester, gates);
    hide Load, LoadShifts, Passed, PrerequisitesMet, TakenBefore, TakenElsewhere, Has;
    var after := Registering(rows, student, course, semester);
    assert after[k] in after;
  }

  lemma RegisteringShifts(cat: Catalogue, rows: seq<Row>, student: int, course: int, semester: int, gates: Gates)
    ensures var e := Register(student, course, semester, gates);
            var after := Step(cat, rows, e);
            && (forall s :: Passed(after, s) == Passed(rows, s))
            && (Verdict(cat, rows, e) == Done ==>
                  && IsActive(after, student, course, semester) && PrerequisitesMet(cat.links, course, Passed(after, student))
                  && LoadShifts(cat, rows, after, student, semester, Credits(cat, course)))
  {
    var e := Register(student, course, semester, gates);
    if Verdict(cat, rows, e) == Done {
      var k := Existing(rows, student, course, semester);
      var row := Row(student, course, semester, Registered, TakenBefore(rows, student, course, k));
      assert ActiveAt(Registering(rows, student, course, semester), k, student, course, semester);
      hide Passed, Load, LoadShifts;
      StoringShifts(cat, rows, k, row);
    }
  }

  /** Some row is the student's registration for the course in the semester, with the status. */
  predicate Has(rows: seq<Row>, student: int, course: int, semester: int, status: Status) {
    exists i :: 0 <= i < |rows| && IsRow(rows[i], student, course, semester, status)
  }

  predicate IsRow(r: Row, student: int, course: int, semester: int, status: Status) {
    r.student == student && r.course == course && r.semester == semester && r.status == status
  }

  /** The student has a row for the course in another semester. */
  predicate TakenElsewhere(rows: seq<Row>, student: int, course: int, semester: int) {
    exists i :: 0 <= i < |rows| && rows[i].student == student && rows[i].course == course && rows[i].semester != semester
  }

  lemma HasExactly(rows: seq<Row>, student: int, course: int, semester: int, status: Status)
    requires OneRowEach(rows)
    ensures var k := Existing(rows, student, course, semester);
            Has(rows, student, course, semester, status) <==> k < |rows| && rows[k].status == status
  {
    var k := Existing(rows, student, course, semester);
    if k < |rows| && rows[k].status == status {
      assert IsRow(rows[k], student, course, semester, status);
    }
  }

  lemma TakenExactly(rows: seq<Row>, student: int, course: int, semester: int)
    requires OneRowEach(rows)
    ensures TakenBefore(rows, student, course, Existing(rows, student, course, semester))
            <==> TakenElsewhere(rows, student, course, semester)
  {
  }

  class RegistrationTable {
    var rows: seq<Row>

    ghost predicate Valid(cat: Catalogue)
      reads this
    {
      Inv(cat, rows)
    }

    constructor ()
      ensures rows == []
      ensures forall cat: Catalogue :: Valid(cat)
    {
      rows := [];
    }

    /** A registration adds exactly the course's credits to the load of that student and
        semester, which stays within the limit; it completes nothing, and a refused one
        changes nothing. */
    method RegisterCourse(cat: Catalogue, student: int, course: int, semester: int, gates: Gates) returns (r: Outcome)
      requires Valid(cat)
      modifies this
      ensures Valid(cat) && (r != Done ==> rows == old(rows))
      ensures Answers(cat, old(rows), student, course, semester, gates, r)
      ensures r == Done ==> Registers(cat, old(rows), rows, student, course, semester)
      ensures r == Verdict(cat, old(rows), Register(student, course, semester, gates))
      ensures rows == Step(cat, old(rows), Register(student, course, semester, gates))
    {
      StepKeepsInv(cat, rows, Register(student, course, semester, gates));
      RegisteringDecided(cat, rows, student, course, semester, gates);
      if Refusal(cat, rows, student, course, semester, gates) == Done {
        RegisteringStored(cat, rows, student, course, semester, gates);
      }
      hide Inv, Load, Answers, Registers, TakenBefore, Credits, Passed, Existing;
      if !gates.windowOpen {
        return WindowClosed;
      }
      var k := Existing(rows, student, course, semester);
      if k < |rows| && rows[k].status == Registered {
        return AlreadyRegistered;
      }
      if k < |rows| && rows[k].status == Completed {
        return AlreadyCompleted;
      }
      var courseCredits := Credits(cat, course);
      if student !in cat.maxCredits {
        return UnknownStudent;
      }
      var passed := map c | c in Passed(rows, student) :: Option<int>.None;
      var unmet := UnmetPrerequisites(cat.links, {course}, passed, {});
      UnknownGradesPass(cat.links, course, Passed(rows, student), passed, unmet);
      if unmet != [] {
        return PrerequisiteNotMet;
      }
      var projected := Load(cat, rows, student, semester, if k < |rows| then Some(k) else None) + courseCredits;
      if projected > cat.maxCredits[student] {
        return CreditLimitExceeded;
      }
      if gates.blocked {
        var canOverride := gates.overrideGiven && gates.mayOverride;
        if !canOverride {
          return BlockedByHold;
        }
      }
      var isRepeat := TakenBefore(rows, student, course, k);
      if course !in cat.credits {
        return UnknownCourse;
      }
      if k < |rows| {
        rows := rows[k := rows[k].(status := Registered, isRepeat := isRepeat)];
      } else {
        rows := rows + [Row(student, course, semester, Registered, isRepeat)];
      }
      r := Done;
    }

    /** A drop succeeds if and only if the registration is active, a reason is given and
        the window is open; it takes exactly the course's credits off that student's load
        in that semester, and takes nothing completed away. */
    method DropCourse(ghost cat: Catalogue, k: nat, reasonGiven: bool, windowOpen: bool) returns (r: Outcome)
      requires Valid(cat)
      modifies this
      ensures Valid(cat) && (r != Done ==> rows == old(rows))
      ensures r == Done <==> k < |old(rows)| && reasonGiven && old(rows)[k].status == Registered && windowOpen
      ensures k < |old(rows)| ==> (r == ReasonRequired <==> !reasonGiven)
      ensures k < |old(rows)| && reasonGiven ==> (r == NotRegistered <==> old(rows)[k].status != Registered)
      ensures k < |old(rows)| && reasonGiven && old(rows)[k].status == Registered ==> (r == WindowClosed <==> !windowOpen)
      ensures r == Done ==>
                var row := old(rows)[k];
                && row.course in cat.credits
                && LoadShifts(cat, old(rows), rows, row.student, row.semester, -(cat.credits[row.course] as int))
                && rows == old(rows)[k := row.(status := Dropped)]
      ensures r == Done ==> !IsActive(rows, old(rows)[k].student, old(rows)[k].course, old(rows)[k].semester)
      ensures forall s :: Passed(rows, s) == Passed(old(rows), s)
      ensures r == Verdict(cat, old(rows), Drop(k, reasonGiven, windowOpen))
      ensures rows == Step(cat, old(rows), Drop(k, reasonGiven, windowOpen))
    {
      StepKeepsInv(cat, rows, Drop(k, reasonGiven, windowOpen));
      if k >= |rows| {
        return NoSuchRegistration;
      }
      if !reasonGiven {
        return ReasonRequired;
      }
      RestatusShifts(cat, rows, k, Dropped);
      if rows[k].status != Registered {
        return NotRegistered;
      }
      if !windowOpen {
        return WindowClosed;
      }
      rows := rows[k := rows[k].(status := Dropped)];
      r := Done;
    }

    /** A completion adds exactly that course to what the student has passed, for nobody
        else, and takes its credits off the load if it was active; a second one changes
        nothing. */
    method RecordPriorCompletion(ghost cat: Catalogue, k: nat, reasonGiven: bool) returns (r: Outcome)
      requires Valid(cat)
      modifies this
      ensures Valid(cat) && (r != Done ==> rows == old(rows))
      ensures r == Done <==> k < |old(rows)| && reasonGiven
      ensures k < |old(rows)| ==> (r == ReasonRequired <==> !reasonGiven)
      ensures r == Done ==>
                forall s :: Passed(rows, s) == Passed(old(rows), s) + if s == old(rows)[k].student then {old(rows)[k].course} else {}
      ensures r == Done ==>
                var row := old(rows)[k];
                && row.course in cat.credits
                && LoadShifts(cat, old(rows), rows, row.student, row.semester,
                              if row.status == Registered then -(cat.credits[row.course] as int) else 0)
                && rows == old(rows)[k := row.(status := Completed)]
      ensures r == Done && old(rows)[k].status == Completed ==> rows == old(rows)
      ensures r == Verdict(cat, old(rows), Complete(k, reasonGiven))
      ensures rows == Step(cat, old(rows), Complete(k, reasonGiven))
    {
      StepKeepsInv(cat, rows, Complete(k, reasonGiven));
      if k >= |rows| {
        return NoSuchRegistration;
      }
      if !reasonGiven {
        return ReasonRequired;
      }
      RestatusShifts(cat, rows, k, Completed);
      if rows[k].status == Completed {
        assert rows[k := rows[k].(status := Completed)] == rows;
        return Done;
      }
      rows := rows[k := rows[k].(status := Completed)];
      r := Done;
    }
  }
}
