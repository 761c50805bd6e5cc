/** The printed forms of student IDs, invoice and receipt numbers, and why no two issued
    numbers of a kind are equal. */
module IdFormats {
  import opened Common
  import opened IdAllocation

  // ------------------------------------------------------------------ numbers

  predicate IsDigit(c: char) { '0' <= c <= '9' }

  function DigitChar(d: nat): (c: char)
    requires d < 10
    ensures IsDigit(c) && DigitValue(c) == d
  {
    (d + '0' as int) as char
  }

  function DigitValue(c: char): (d: nat)
    requires IsDigit(c)
    ensures d < 10
  {
    c as int - '0' as int
  }

  function Digits(n: nat): (s: string)
    ensures s != "" && forall i :: 0 <= i < |s| ==> IsDigit(s[i])
  {
    if n < 10 then [DigitChar(n)] else Digits(n / 10) + [DigitChar(n % 10)]
  }

  /** `f"{n:0{width}d}"`: padded to the width, longer when the number needs it. */
  function Padded(n: nat, width: nat): (s: string)
    ensures s != "" && |s| >= width && forall i :: 0 <= i < |s| ==> IsDigit(s[i])
  {
    Zeros(Max(0, width - |Digits(n)|)) + Digits(n)
  }

  function ReadNumber(s: string): nat
    requires forall i :: 0 <= i < |s| ==> IsDigit(s[i])
  {
    if s == "" then 0 else 10 * ReadNumber(s[..|s| - 1]) + DigitValue(s[|s| - 1])
  }

  lemma {:induction false} ReadDigits(n: nat)
    ensures ReadNumber(Digits(n)) == n
  {
    if n < 10 {
      assert [DigitChar(n)][..0] == "";
      assert ReadNumber("") == 0;
    } else {
      ReadDigits(n / 10);
      assert (Digits(n / 10) + [DigitChar(n % 10)])[..|Digits(n / 10)|] == Digits(n / 10);
    }
  }

  lemma {:induction false} ReadZeros(k: nat, s: string)
    requires forall i :: 0 <= i < |s| ==> IsDigit(s[i])
    ensures ReadNumber(Zeros(k) + s) == ReadNumber(s)
  {
    if s != "" {
      assert (Zeros(k) + s)[..k + |s| - 1] == Zeros(k) + s[..|s| - 1];
      ReadZeros(k, s[..|s| - 1]);
    } else if k > 0 {
      assert (Zeros(k) + "")[..k - 1] == Zeros(k - 1) + "";
      ReadZeros(k - 1, "");
    } else {
      assert Zeros(0) + "" == "";
    }
  }

  /** A padded number reads back to its value, and is no longer than it has to be: longer
      than the width only when it starts with another digit than zero. */
  lemma ReadPadded(n: nat, width: nat)
    ensures ReadNumber(Padded(n, width)) == n
    ensures |Padded(n, width)| >= width && (|Padded(n, width)| > Max(width, 1) ==> Padded(n, width)[0] != '0')
  {
    ReadDigits(n);
    ReadZeros(Max(0, width - |Digits(n)|), Digits(n));
    NoLeadingZero(n);
  }

  lemma {:induction false} NoLeadingZero(n: nat)
    ensures |Digits(n)| > 1 ==> Digits(n)[0] != '0'
    ensures n > 0 ==> Digits(n)[0] != '0'
  {
    if n >= 10 {
      NoLeadingZero(n / 10);
    }
  }

  // ------------------------------------------------------------------ parsing

  /** Python's `s.split("/")`. */
  function Split(s: string): (parts: seq<string>)
    ensures parts != []
    ensures forall i :: 0 <= i < |parts| ==> '/' !in parts[i]
  {
    if s == "" then [""]
    else
      var rest := Split(s[1..]);
      if s[0] == '/' then [""] + rest else [[s[0]] + rest[0]] + rest[1..]
  }

  lemma {:induction false} SplitPart(part: string, rest: string)
    requires '/' !in part
    ensures Split(part + "/" + rest) == [part] + Split(rest)
  {
    var s := part + "/" + rest;
    if part == "" {
      assert s[1..] == rest;
    } else {
      assert s[1..] == part[1..] + "/" + rest;
      SplitPart(part[1..], rest);
      assert [s[0]] + part[1..] == part;
    }
  }

  lemma {:induction false} SplitWhole(part: string)
    requires '/' !in part
    ensures Split(part) == [part]
  {
    if part != "" {
      SplitWhole(part[1..]);
      assert [part[0]] + part[1..] == part;
    }
  }

  predicate IsSpace(c: char) { c in {' ', '\t', '\n', '\r'} }

  function Strip(s: string): (r: string)
    ensures forall c :: c in r ==> c in s
  {
    if s == "" then ""
    else if IsSpace(s[0]) then Strip(s[1..])
    else if IsSpace(s[|s| - 1]) then Strip(s[..|s| - 1])
    else s
  }

  /** The leading calendar year of an academic year name such as "2026/2027". */
  function LeadingYear(name: string): (year: string)
    ensures '/' !in year
  {
    Strip(Split(name)[0])
  }

  // -------------------------------------------------------------- the formats

  /** What a student ID is made of besides its sequence number; codes have no "/". */
  datatype Intake = Intake(faculty: string, programme: string, year: string)

  predicate Plain(k: Intake) { '/' !in k.faculty && '/' !in k.programme && '/' !in k.year }

  function StudentScope(k: Intake): string {
    "student_id:" + k.faculty + ":" + k.programme + ":" + k.year
  }

  /** The default template, `{faculty}/{programme}/{year}/{seq:04d}`. */
  function StudentId(k: Intake, n: nat): string {
    k.faculty + "/" + (k.programme + "/" + (k.year + "/" + Padded(n, 4)))
  }

  predicate AllDigits(s: string) { s != "" && forall i :: 0 <= i < |s| ==> IsDigit(s[i]) }

  function ParseStudentId(s: string): Option<(Intake, nat)> {
    var parts := Split(s);
    if |parts| == 4 && AllDigits(parts[3]) then Some((Intake(parts[0], parts[1], parts[2]), ReadNumber(parts[3]))) else None
  }

  datatype DocumentKind = InvoiceNumber | ReceiptNumber

  function Prefix(kind: DocumentKind): string {
    if kind == InvoiceNumber then "INV" else "RCT"
  }

  function DocumentScope(kind: DocumentKind, year: string): string {
    (if kind == InvoiceNumber then "invoice_no:" else "receipt_no:") + year
  }

  function DocumentNumber(kind: DocumentKind, year: string, n: nat): string {
    Prefix(kind) + "/" + (year + "/" + Padded(n, 5))
  }

  function ParseDocumentNumber(s: string): Option<(DocumentKind, string, nat)> {
    var parts := Split(s);
    if |parts| == 3 && parts[0] in {"INV", "RCT"} && AllDigits(parts[2]) then
      Some((if parts[0] == "INV" then InvoiceNumber else ReceiptNumber, parts[1], ReadNumber(parts[2])))
    else None
  }

  /** Student IDs parse back to their parts, for every sequence number. */
  lemma StudentIdRoundTrip(k: Intake, n: nat)
    requires Plain(k)
    ensures ParseStudentId(StudentId(k, n)) == Some((k, n))
  {
    var seqNo := Padded(n, 4);
    ReadPadded(n, 4);
    assert '/' !in seqNo;
    SplitWhole(seqNo);
    SplitPart(k.year, seqNo);
    SplitPart(k.programme, k.year + "/" + seqNo);
    SplitPart(k.faculty, k.programme + "/" + (k.year + "/" + seqNo));
    assert Split(StudentId(k, n)) == [k.faculty, k.programme, k.year, seqNo];
  }

  /** Invoice and receipt numbers parse back to their kind, year and sequence number. */
  lemma DocumentNumberRoundTrip(kind: DocumentKind, year: string, n: nat)
    requires '/' !in year
    ensures ParseDocumentNumber(DocumentNumber(kind, year, n)) == Some((kind, year, n))
  {
    var seqNo := Padded(n, 5);
    ReadPadded(n, 5);
    assert '/' !in seqNo;
    SplitWhole(seqNo);
    SplitPart(year, seqNo);
    SplitPart(Prefix(kind), year + "/" + seqNo);
    assert Split(DocumentNumber(kind, year, n)) == [Prefix(kind), year, seqNo];
  }

  // ------------------------------------------------------- no two are equal

  /** Over every interleaving of allocations, two committed holders never print the same
      student ID, even when their counters' scopes happen to coincide. */
  lemma StudentIdsDistinct(actions: seq<Action>, i: nat, j: nat, x: Intake, y: Intake)
    requires i < j < |Exec(Initial, actions).issued| && Plain(x) && Plain(y)
    requires var issued := Exec(Initial, actions).issued;
             issued[i].scope == StudentScope(x) && issued[j].scope == StudentScope(y)
    ensures var issued := Exec(Initial, actions).issued;
            StudentId(x, issued[i].value) != StudentId(y, issued[j].value)
  {
    var issued := Exec(Initial, actions).issued;
    TicketsNeverCollide(actions);
    StudentIdRoundTrip(x, issued[i].value);
    StudentIdRoundTrip(y, issued[j].value);
    assert issued[i] != issued[j];
  }

  /** The same for invoice and receipt numbers, across years and across the two kinds. */
  lemma DocumentNumbersDistinct(actions: seq<Action>, i: nat, j: nat, kind: DocumentKind, name: string,
                                kind': DocumentKind, name': string)
    requires i < j < |Exec(Initial, actions).issued|
    requires var issued := Exec(Initial, actions).issued;
             && issued[i].scope == DocumentScope(kind, LeadingYear(name))
             && issued[j].scope == DocumentScope(kind', LeadingYear(name'))
    ensures var issued := Exec(Initial, actions).issued;
            DocumentNumber(kind, LeadingYear(name), issued[i].value) != DocumentNumber(kind', LeadingYear(name'), issued[j].value)
  {
    var issued := Exec(Initial, actions).issued;
    TicketsNeverCollide(actions);
    DocumentNumberRoundTrip(kind, LeadingYear(name), issued[i].value);
    DocumentNumberRoundTrip(kind', LeadingYear(name'), issued[j].value);
    assert issued[i] != issued[j];
  }

  // ------------------------------------------------------------- issuing

  /** `generate_invoice_number` and `generate_receipt_number`: the number is of the kind and
      year asked for, and one more than the last of that kind and year; no other counter
      moves. */
  method GenerateDocumentNumber(table: SequenceTable, kind: DocumentKind, academicYear: string) returns (number: string)
    modifies table
    ensures var year := LeadingYear(academicYear);
            var scope := (if kind == InvoiceNumber then "invoice_no:" else "receipt_no:") + year;
            var value := old(Last(table.counters, scope)) + 1;
            && table.counters == old(table.counters)[scope := value]
            && ParseDocumentNumber(number) == Some((kind, year, value))
            && number == (if kind == InvoiceNumber then "INV/" else "RCT/") + year + "/" + Padded(value, 5)
  {
    var year := LeadingYear(academicYear);
    var value := table.Allocate(DocumentScope(kind, year));
    number := DocumentNumber(kind, year, value);
    DocumentNumberRoundTrip(kind, year, value);
    DocumentNumberForm(kind, year, value);
    hide ParseDocumentNumber, DocumentNumber, Padded;
  }

  lemma DocumentNumberForm(kind: DocumentKind, year: string, n: nat)
    ensures DocumentNumber(kind, year, n) == (if kind == InvoiceNumber then "INV/" else "RCT/") + year + "/" + Padded(n, 5)
  {
    hide Padded;
  }

  /** `generate_student_id` with the default template: the next number of that faculty,
      programme and intake year. */
  method GenerateStudentId(table: SequenceTable, faculty: string, programme: string, academicYear: string) returns (id: string)
    modifies table
    ensures var year := LeadingYear(academicYear);
            var scope := "student_id:" + faculty + ":" + programme + ":" + year;
            var value := old(Last(table.counters, scope)) + 1;
            && table.counters == old(table.counters)[scope := value]
            && id == faculty + "/" + programme + "/" + year + "/" + Padded(value, 4)
            && ('/' !in faculty && '/' !in programme ==> ParseStudentId(id) == Some((Intake(faculty, programme, year), value)))
  {
    var intake := Intake(faculty, programme, LeadingYear(academicYear));
    var value := table.Allocate(StudentScope(intake));
    id := StudentId(intake, value);
    if '/' !in faculty && '/' !in programme {
      StudentIdRoundTrip(intake, value);
    }
    StudentIdForm(intake, value);
    hide ParseStudentId, StudentId, Padded;
  }

  lemma StudentIdForm(k: Intake, n: nat)
    ensures StudentId(k, n) == k.faculty + "/" + k.programme + "/" + k.year + "/" + Padded(n, 4)
  {
    var number := Padded(n, 4);
    hide Padded;
    assert k.faculty + "/" + (k.programme + "/" + (k.year + "/" + number)) == k.faculty + "/" + k.programme + "/" + k.year + "/" + number;
  }

  /** The leading year is what comes before the first "/", without the blanks around it. */
  lemma LeadingYearIs(before: string, year: string, after: string, rest: string)
    requires '/' !in before && '/' !in year && '/' !in after
    requires (forall c :: c in before + after ==> IsSpace(c)) && year != "" && !IsSpace(year[0]) && !IsSpace(year[|year| - 1])
    ensures LeadingYear(before + year + after + "/" + rest) == year
    ensures LeadingYear(before + year + after) == year
  {
    var part := before + year + after;
    SplitPart(part, rest);
    SplitWhole(part);
    StripsBlanks(before, year, after);
  }

  lemma {:induction false} StripsBlanks(before: string, year: string, after: string)
    requires (forall c :: c in before + after ==> IsSpace(c)) && year != "" && !IsSpace(year[0]) && !IsSpace(year[|year| - 1])
    ensures Strip(before + year + after) == year
    decreases |before| + |after|
  {
    var s := before + year + after;
    if before != "" {
      assert before[0] in before + after && s[1..] == before[1..] + year + after;
      StripsBlanks(before[1..], year, after);
    } else if after != "" {
      assert s[0] == year[0];
      assert after[|after| - 1] in before + after && s[..|s| - 1] == before + year + after[..|after| - 1];
      StripsBlanks(before, year, after[..|after| - 1]);
    } else {
      assert s == year;
    }
  }
}
