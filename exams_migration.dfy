/**
 * Migration 0069_exams: five foreign tables over the exam data of
 * CAMPUSonline and the five materialized views built on them (exam modes,
 * exam types, examinee states, exams, examinees), composed as a list of
 * (forward, reverse) statement pairs.
 */
module ExamsMigration {
  import opened Wrappers
  import opened Text
  import opened Sql
  import opened Ddl

  /** A row of `pv_pruefungs_modi`. */
  datatype ModeSource = ModeSource(nr: Option<int>, kurzbezeichnung: Option<string>, name: Option<string>, nameEngl: Option<string>)

  /** A row of `campusonline_exam_mode`. */
  datatype ExamMode = ExamMode(id: Option<int>, short: Option<string>, name: Hstore)

  /** A row of `pv_pruefungs_typen`. */
  datatype TypeSource = TypeSource(
    nr: Option<int>, kurzbezeichnung: Option<string>,
    zeugnisbezeichnung: Option<string>, zeugnisbezeichnungEngl: Option<string>,
    name: Option<string>, nameEngl: Option<string>)

  /** A row of `campusonline_exam_type`. */
  datatype ExamType = ExamType(id: Option<int>, short: Option<string>, certificate: Hstore, name: Hstore)

  /** A row of `pv_pruef_status_typen`. */
  datatype StatusSource = StatusSource(nr: Option<int>, kurzbezeichnung: Option<string>, name: Option<string>)

  /** A row of `campusonline_examinee_status`. */
  datatype ExamineeStatus = ExamineeStatus(id: Option<int>, short: Option<string>, name: Hstore)

  /** A row of `pv_termine`; timestamps are seconds since the epoch. */
  datatype ExamSource = ExamSource(
    terminNr: Option<int>, orgNr: Option<int>, modNr: Option<int>, typNr: Option<int>,
    prueferPersonNr: Option<int>, stpSpNr: Option<int>,
    anmeldeBeginn: Option<int>, anmeldeEnde: Option<int>, beginnZeit: Option<int>,
    webanmeldungsFlag: Option<string>, anmerkung: Option<string>, terminGueltigFlag: Option<string>,
    abmeldeEnde: Option<int>, ort: Option<string>)

  /** A row of `campusonline_exam`. */
  datatype Exam = Exam(
    id: Option<int>, organization: Option<int>, mode: Option<int>, examType: Option<int>,
    examiner: Option<int>, course: Option<int>,
    registrationStart: Option<int>, registrationEnd: Option<int>, start: Option<int>,
    onlineRegistration: Option<bool>, note: Option<string>, valid: Option<bool>,
    deregistrationEnd: Option<int>, location: Option<string>)

  /** A row of `pv_kandidaten`. */
  datatype ExamineeSource = ExamineeSource(
    kandidatenNr: Option<int>, terminNr: Option<int>, stPersonNr: Option<int>, statusDatum: Option<int>,
    pstTypNr: Option<int>, anmeldeDatum: Option<int>, datumDerLetztbeurteilung: Option<int>)

  /** A row of `campusonline_examinee`; `registration` and `assessmentClosure` are days since the epoch. */
  datatype Examinee = Examinee(
    id: Option<int>, exam: Option<int>, student: Option<int>, statusDatetime: Option<int>,
    status: Option<int>, registration: Option<int>, assessmentClosure: Option<int>)

  /** `ts AT TIME ZONE tz`, given the conversion to local wall-clock time for the configured zone. */
  function AtTimeZone(local: int -> int, ts: Option<int>): (r: Option<int>)
    ensures r.None? <==> ts.None?
  {
    match ts
    case None => None
    case Some(t) => Some(local(t))
  }

  function ModeOf(m: ModeSource): ExamMode {
    ExamMode(m.nr, m.kurzbezeichnung, Translations(m.name, m.nameEngl))
  }

  function TypeOf(t: TypeSource): ExamType {
    ExamType(t.nr, t.kurzbezeichnung, Translations(t.zeugnisbezeichnung, t.zeugnisbezeichnungEngl), Translations(t.name, t.nameEngl))
  }

  /** The status name is an hstore with the German name only. */
  function StatusOf(s: StatusSource): (r: ExamineeStatus)
    ensures r.name.Keys == {"de"} && r.name["de"] == s.name
  {
    ExamineeStatus(s.nr, s.kurzbezeichnung, map["de" := s.name])
  }

  /** `lower(flag) = 'j'` as written: NULL for a NULL flag. */
  function FlagAsWritten(flag: Option<string>): Option<bool> {
    LowerEquals(flag, "j")
  }

  /** The flag as the non-null model field expects it: a NULL flag reads as false. */
  function Flag(flag: Option<string>): bool {
    FlagAsWritten(flag) == Some(true)
  }

  /** A row of `campusonline_exam` as the view is written: both flags are `lower(flag) = 'j'`. */
  function ExamOf(local: int -> int, e: ExamSource): Exam {
    Exam(e.terminNr, e.orgNr, e.modNr, e.typNr, e.prueferPersonNr, e.stpSpNr,
      AtTimeZone(local, e.anmeldeBeginn), AtTimeZone(local, e.anmeldeEnde), AtTimeZone(local, e.beginnZeit),
      FlagAsWritten(e.webanmeldungsFlag), e.anmerkung, FlagAsWritten(e.terminGueltigFlag),
      AtTimeZone(local, e.abmeldeEnde), e.ort)
  }

  /** A row of `campusonline_exam` with the flags the non-null model fields expect. */
  function CorrectedExamOf(local: int -> int, e: ExamSource): Exam {
    ExamOf(local, e).(onlineRegistration := Some(Flag(e.webanmeldungsFlag)), valid := Some(Flag(e.terminGueltigFlag)))
  }

  /**
   * Every column of an exam row but the two flags comes from its source
   * row: the numbers and texts unchanged, the timestamps converted to
   * local time, NULL staying NULL.
   */
  predicate CopiesExam(local: int -> int, e: ExamSource, x: Exam) {
    x.id == e.terminNr && x.organization == e.orgNr && x.mode == e.modNr &&
    x.examType == e.typNr && x.examiner == e.prueferPersonNr && x.course == e.stpSpNr &&
    x.registrationStart == AtTimeZone(local, e.anmeldeBeginn) && x.registrationEnd == AtTimeZone(local, e.anmeldeEnde) &&
    x.start == AtTimeZone(local, e.beginnZeit) && x.deregistrationEnd == AtTimeZone(local, e.abmeldeEnde) &&
    x.note == e.anmerkung && x.location == e.ort
  }

  /** A flag column reads true exactly when the source flag is 'j' in either case. */
  predicate Affirms(flag: Option<string>, b: Option<bool>) {
    b == Some(true) <==> flag == Some("j") || flag == Some("J")
  }

  function ExamineeOf(local: int -> int, k: ExamineeSource): Examinee {
    Examinee(k.kandidatenNr, k.terminNr, k.stPersonNr, AtTimeZone(local, k.statusDatum),
      k.pstTypNr, DateOf(k.anmeldeDatum), DateOf(k.datumDerLetztbeurteilung))
  }

  /** `campusonline_exam_mode`: one row per source row, in order, the names as German/English maps. */
  function ModeView(rows: seq<ModeSource>): (r: seq<ExamMode>)
    ensures |r| == |rows|
    ensures forall i :: 0 <= i < |rows| ==> r[i].id == rows[i].nr && r[i].short == rows[i].kurzbezeichnung
    ensures forall i :: 0 <= i < |rows| ==>
      r[i].name.Keys == {"de", "en"} && r[i].name["de"] == rows[i].name && r[i].name["en"] == rows[i].nameEngl
  {
    seq(|rows|, i requires 0 <= i < |rows| => ModeOf(rows[i]))
  }

  /** `campusonline_exam_type`: one row per source row, in order, certificate and name as German/English maps. */
  function TypeView(rows: seq<TypeSource>): (r: seq<ExamType>)
    ensures |r| == |rows|
    ensures forall i :: 0 <= i < |rows| ==> r[i].id == rows[i].nr && r[i].short == rows[i].kurzbezeichnung
    ensures forall i :: 0 <= i < |rows| ==>
      r[i].certificate.Keys == {"de", "en"} &&
      r[i].certificate["de"] == rows[i].zeugnisbezeichnung && r[i].certificate["en"] == rows[i].zeugnisbezeichnungEngl
    ensures forall i :: 0 <= i < |rows| ==>
      r[i].name.Keys == {"de", "en"} && r[i].name["de"] == rows[i].name && r[i].name["en"] == rows[i].nameEngl
  {
    seq(|rows|, i requires 0 <= i < |rows| => TypeOf(rows[i]))
  }

  /** `campusonline_examinee_status`: one row per source row, in order, the name as a German-only map. */
  function StatusView(rows: seq<StatusSource>): (r: seq<ExamineeStatus>)
    ensures |r| == |rows|
    ensures forall i :: 0 <= i < |rows| ==> r[i].id == rows[i].nr && r[i].short == rows[i].kurzbezeichnung
    ensures forall i :: 0 <= i < |rows| ==> r[i].name.Keys == {"de"} && r[i].name["de"] == rows[i].name
  {
    seq(|rows|, i requires 0 <= i < |rows| => StatusOf(rows[i]))
  }

  /**
   * `campusonline_exam` as written: one row per source row, in order; a
   * flag is NULL exactly when its source flag is NULL and true exactly
   * when it is 'j' or 'J'.
   */
  function ExamView(local: int -> int, rows: seq<ExamSource>): (r: seq<Exam>)
    ensures |r| == |rows|
    ensures forall i :: 0 <= i < |rows| ==> CopiesExam(local, rows[i], r[i])
    ensures forall i :: 0 <= i < |rows| ==>
      (r[i].onlineRegistration.None? <==> rows[i].webanmeldungsFlag.None?) && Affirms(rows[i].webanmeldungsFlag, r[i].onlineRegistration)
    ensures forall i :: 0 <= i < |rows| ==>
      (r[i].valid.None? <==> rows[i].terminGueltigFlag.None?) && Affirms(rows[i].terminGueltigFlag, r[i].valid)
  {
    forall e | e in rows
      ensures Affirms(e.webanmeldungsFlag, FlagAsWritten(e.webanmeldungsFlag))
      ensures Affirms(e.terminGueltigFlag, FlagAsWritten(e.terminGueltigFlag))
    {
      FlagAsWrittenSpec(e.webanmeldungsFlag);
      FlagAsWrittenSpec(e.terminGueltigFlag);
    }
    seq(|rows|, i requires 0 <= i < |rows| => ExamOf(local, rows[i]))
  }

  /**
   * `campusonline_exam` with the flags the model fields expect: the same
   * rows, but a flag is never NULL and is true exactly when its source
   * flag is 'j' or 'J'.
   */
  function CorrectedExamView(local: int -> int, rows: seq<ExamSource>): (r: seq<Exam>)
    ensures |r| == |rows|
    ensures forall i :: 0 <= i < |rows| ==> CopiesExam(local, rows[i], r[i])
    ensures forall i :: 0 <= i < |rows| ==> r[i].onlineRegistration.Some? && Affirms(rows[i].webanmeldungsFlag, r[i].onlineRegistration)
    ensures forall i :: 0 <= i < |rows| ==> r[i].valid.Some? && Affirms(rows[i].terminGueltigFlag, r[i].valid)
  {
    forall e | e in rows
      ensures Affirms(e.webanmeldungsFlag, Some(Flag(e.webanmeldungsFlag)))
      ensures Affirms(e.terminGueltigFlag, Some(Flag(e.terminGueltigFlag)))
    {
      FlagSpec(e.webanmeldungsFlag);
      FlagSpec(e.terminGueltigFlag);
    }
    seq(|rows|, i requires 0 <= i < |rows| => CorrectedExamOf(local, rows[i]))
  }

  /**
   * The corrected view differs from the view as written only in flags
   * that are NULL there, which it reads as false: a row whose two source
   * flags are both set is the same in both.
   */
  lemma CorrectedExamViewAgrees(local: int -> int, rows: seq<ExamSource>, i: int)
    requires 0 <= i < |rows|
    ensures var x, y := ExamView(local, rows)[i], CorrectedExamView(local, rows)[i];
      (rows[i].webanmeldungsFlag.Some? ==> y.onlineRegistration == x.onlineRegistration) &&
      (rows[i].webanmeldungsFlag.None? ==> x.onlineRegistration.None? && y.onlineRegistration == Some(false)) &&
      (rows[i].terminGueltigFlag.Some? ==> y.valid == x.valid) &&
      (rows[i].terminGueltigFlag.None? ==> x.valid.None? && y.valid == Some(false)) &&
      (rows[i].webanmeldungsFlag.Some? && rows[i].terminGueltigFlag.Some? ==> y == x)
  {
  }

  /**
   * `campusonline_examinee`: one row per source row, in order; the dates
   * are the days the source timestamps fall on.
   */
  function ExamineeView(local: int -> int, rows: seq<ExamineeSource>): (r: seq<Examinee>)
    ensures |r| == |rows|
    ensures forall i :: 0 <= i < |rows| ==>
      r[i].id == rows[i].kandidatenNr && r[i].exam == rows[i].terminNr && r[i].student == rows[i].stPersonNr &&
      r[i].statusDatetime == AtTimeZone(local, rows[i].statusDatum) && r[i].status == rows[i].pstTypNr
    ensures forall i :: 0 <= i < |rows| ==>
      (r[i].registration.None? <==> rows[i].anmeldeDatum.None?) &&
      (rows[i].anmeldeDatum.Some? ==>
        r[i].registration.value * SecondsPerDay <= rows[i].anmeldeDatum.value < (r[i].registration.value + 1) * SecondsPerDay)
    ensures forall i :: 0 <= i < |rows| ==>
      (r[i].assessmentClosure.None? <==> rows[i].datumDerLetztbeurteilung.None?) &&
      (rows[i].datumDerLetztbeurteilung.Some? ==>
        r[i].assessmentClosure.value * SecondsPerDay <= rows[i].datumDerLetztbeurteilung.value < (r[i].assessmentClosure.value + 1) * SecondsPerDay)
  {
    seq(|rows|, i requires 0 <= i < |rows| => ExamineeOf(local, rows[i]))
  }

  /** The flag expression as written is NULL exactly for a NULL flag, and true exactly for 'j' or 'J'. */
  lemma FlagAsWrittenSpec(flag: Option<string>)
    ensures FlagAsWritten(flag).None? <==> flag.None?
    ensures FlagAsWritten(flag) == Some(true) <==> flag == Some("j") || flag == Some("J")
  {
    if flag.Some? {
      LowerIsLetter(flag.value, 'j');
    }
  }

  /** The corrected flag is true exactly for 'j' or 'J', false for NULL, and agrees with the expression as written wherever that is not NULL. */
  lemma FlagSpec(flag: Option<string>)
    ensures Flag(flag) <==> flag == Some("j") || flag == Some("J")
    ensures flag.None? ==> !Flag(flag)
    ensures flag.Some? ==> FlagAsWritten(flag) == Some(Flag(flag))
  {
    FlagAsWrittenSpec(flag);
  }

  /** Id and foreign keys of an exam are its source row's numbers, unchanged. */
  lemma ExamKeysCopied(local: int -> int, rows: seq<ExamSource>, i: int)
    requires 0 <= i < |rows|
    ensures var x := ExamView(local, rows)[i];
      x.id == rows[i].terminNr && x.organization == rows[i].orgNr && x.mode == rows[i].modNr &&
      x.examType == rows[i].typNr && x.examiner == rows[i].prueferPersonNr && x.course == rows[i].stpSpNr
  {
  }

  /** Registration and assessment closure are the days the source timestamps fall on. */
  lemma ExamineeDates(local: int -> int, k: ExamineeSource)
    ensures var x := ExamineeOf(local, k);
      (x.registration.None? <==> k.anmeldeDatum.None?) &&
      (k.anmeldeDatum.Some? ==> x.registration.value * SecondsPerDay <= k.anmeldeDatum.value < (x.registration.value + 1) * SecondsPerDay) &&
      (x.assessmentClosure.None? <==> k.datumDerLetztbeurteilung.None?) &&
      (k.datumDerLetztbeurteilung.Some? ==> x.assessmentClosure.value * SecondsPerDay <= k.datumDerLetztbeurteilung.value < (x.assessmentClosure.value + 1) * SecondsPerDay)
  {
  }

  /** Mode and type names and the type certificate are German/English maps. */
  lemma Translated(m: ModeSource, t: TypeSource)
    ensures ModeOf(m).name.Keys == {"de", "en"} && ModeOf(m).name["de"] == m.name && ModeOf(m).name["en"] == m.nameEngl
    ensures TypeOf(t).name.Keys == {"de", "en"} && TypeOf(t).name["de"] == t.name && TypeOf(t).name["en"] == t.nameEngl
    ensures TypeOf(t).certificate.Keys == {"de", "en"}
    ensures TypeOf(t).certificate["de"] == t.zeugnisbezeichnung && TypeOf(t).certificate["en"] == t.zeugnisbezeichnungEngl
  {
  }

  // The schema objects, by their lower-case names.

  const Termine := "pv_termine"
  const Kandidaten := "pv_kandidaten"
  const Modi := "pv_pruefungs_modi"
  const Typen := "pv_pruefungs_typen"
  const StatusTypen := "pv_pruef_status_typen"

  const TermineColumns: set<string> := {
    "termin_nr", "org_nr", "pv_pr_mod_nr", "pv_pr_typ_nr", "pruefer_person_nr", "stp_sp_nr",
    "anmelde_beginn", "anmelde_ende", "beginn_zeit", "webanmeldungs_flag", "anmerkung",
    "termin_gueltig_flag", "abmelde_ende", "ort"}
  const KandidatenColumns: set<string> := {
    "kandidaten_nr", "termin_nr", "st_person_nr", "status_datum", "pv_pst_typ_nr", "anmelde_datum",
    "datum_der_letztbeurteilung"}
  const ModiColumns: set<string> := {"nr", "kurzbezeichnung", "name", "name_engl"}
  const TypenColumns: set<string> := {"nr", "kurzbezeichnung", "zeugnisbezeichnung", "zeugnisbezeichnung_engl", "name", "name_engl"}
  const StatusTypenColumns: set<string> := {"nr", "kurzbezeichnung", "name"}

  const ModeViewName := "campusonline_exam_mode"
  const TypeViewName := "campusonline_exam_type"
  const StatusViewName := "campusonline_examinee_status"
  const ExamViewName := "campusonline_exam"
  const ExamineeViewName := "campusonline_examinee"

  const ModeViewDef := View(Reads(Modi, ModiColumns), {"id", "short", "name"})
  const TypeViewDef := View(Reads(Typen, TypenColumns), {"id", "short", "certificate", "name"})
  const StatusViewDef := View(Reads(StatusTypen, StatusTypenColumns), {"id", "short", "name"})
  const ExamViewDef := View(Reads(Termine, TermineColumns), {
    "id", "organization_id", "mode_id", "type_id", "examiner_id", "course_id", "registration_start",
    "registration_end", "start", "online_registration", "note", "valid", "deregistration_end", "location"})
  const ExamineeViewDef := View(Reads(Kandidaten, KandidatenColumns), {
    "id", "exam_id", "student_id", "status_datetime", "status_id", "registration", "assessment_closure"})

  /** The migration's `ops`: five tables, then the five views that read them. */
  const Ops: seq<(Op, Op)> := [
    (CreateTable(Termine, TermineColumns), DropTable(Termine)),
    (CreateTable(Kandidaten, KandidatenColumns), DropTable(Kandidaten)),
    (CreateTable(Modi, ModiColumns), DropTable(Modi)),
    (CreateTable(Typen, TypenColumns), DropTable(Typen)),
    (CreateTable(StatusTypen, StatusTypenColumns), DropTable(StatusTypen)),
    (CreateView(ModeViewName, ModeViewDef), DropView(ModeViewName)),
    (CreateView(TypeViewName, TypeViewDef), DropView(TypeViewName)),
    (CreateView(StatusViewName, StatusViewDef), DropView(StatusViewName)),
    (CreateView(ExamViewName, ExamViewDef), DropView(ExamViewName)),
    (CreateView(ExamineeViewName, ExamineeViewDef), DropView(ExamineeViewName))]

  /** Every reverse half drops what its forward half creates. */
  lemma OpsAreCreations()
    ensures forall i :: 0 <= i < |Ops| ==> CreationPair(Ops[i])
  {
  }

  /** In the reverse list every view is dropped before any foreign table. */
  lemma ViewsDroppedFirst()
    ensures forall i, j :: 0 <= i < |Ops| && 0 <= j < |Ops| && Reverses(Ops)[i].DropView? && Reverses(Ops)[j].DropTable? ==> i < j
  {
  }

  /** After a successful forward run from a consistent catalog, the reverse run restores that catalog. */
  lemma ReverseRestores(c: Catalog)
    requires Consistent(c) && Run(c, Forwards(Ops)).Success?
    ensures Run(Run(c, Forwards(Ops)).value, Reverses(Ops)) == Success(c)
  {
    OpsAreCreations();
    CreationsUndone(c, Ops);
    RoundTrip(c, Ops);
  }

  /** Names this migration creates. */
  const Tables := {Termine, Kandidaten, Modi, Typen, StatusTypen}
  const Views := {ModeViewName, TypeViewName, StatusViewName, ExamViewName, ExamineeViewName}

  /**
   * On a catalog that has none of the five tables and views, the forward run
   * succeeds: each table exists before the view that reads it is created.
   */
  lemma ForwardSucceeds(c: Catalog)
    requires forall t :: t in Tables ==> t !in c.tables
    requires forall v :: v in Views ==> v !in c.views
    ensures Run(c, Forwards(Ops)).Success?
    ensures var d := Run(c, Forwards(Ops)).value;
      d.tables == c.tables[Termine := TermineColumns][Kandidaten := KandidatenColumns][Modi := ModiColumns][Typen := TypenColumns][StatusTypen := StatusTypenColumns] &&
      d.views == c.views[ModeViewName := ModeViewDef][TypeViewName := TypeViewDef][StatusViewName := StatusViewDef][ExamViewName := ExamViewDef][ExamineeViewName := ExamineeViewDef] &&
      d.indexes == c.indexes
  {
    var fw := Forwards(Ops);
    var c5 := c.(tables := c.tables[Termine := TermineColumns][Kandidaten := KandidatenColumns][Modi := ModiColumns][Typen := TypenColumns][StatusTypen := StatusTypenColumns]);
    CreateTables(c);
    CreateViews(c5);
    assert fw == fw[..5] + fw[5..];
    RunAppend(c, fw[..5], fw[5..]);
  }

  /** The first five statements create the foreign tables. */
  lemma CreateTables(c: Catalog)
    requires forall t :: t in Tables ==> t !in c.tables
    ensures Run(c, Forwards(Ops)[..5]) == Success(c.(tables := c.tables[Termine := TermineColumns][Kandidaten := KandidatenColumns][Modi := ModiColumns][Typen := TypenColumns][StatusTypen := StatusTypenColumns]))
  {
    var fw := Forwards(Ops)[..5];
    var c1 := c.(tables := c.tables[Termine := TermineColumns]);
    var c2 := c1.(tables := c1.tables[Kandidaten := KandidatenColumns]);
    var c3 := c2.(tables := c2.tables[Modi := ModiColumns]);
    var c4 := c3.(tables := c3.tables[Typen := TypenColumns]);
    var c5 := c4.(tables := c4.tables[StatusTypen := StatusTypenColumns]);
    assert Apply(c, fw[0]) == Success(c1);
    assert Apply(c1, fw[1]) == Success(c2);
    assert Apply(c2, fw[2]) == Success(c3);
    assert Apply(c3, fw[3]) == Success(c4);
    assert Apply(c4, fw[4]) == Success(c5);
    RunThrough([c, c1, c2, c3, c4, c5], fw);
  }

  /** The last five statements create the views over the tables. */
  lemma CreateViews(c5: Catalog)
    requires forall v :: v in Views ==> v !in c5.views
    requires Termine in c5.tables && c5.tables[Termine] == TermineColumns
    requires Kandidaten in c5.tables && c5.tables[Kandidaten] == KandidatenColumns
    requires Modi in c5.tables && c5.tables[Modi] == ModiColumns
    requires Typen in c5.tables && c5.tables[Typen] == TypenColumns
    requires StatusTypen in c5.tables && c5.tables[StatusTypen] == StatusTypenColumns
    ensures Run(c5, Forwards(Ops)[5..]) == Success(c5.(views := c5.views[ModeViewName := ModeViewDef][TypeViewName := TypeViewDef][StatusViewName := StatusViewDef][ExamViewName := ExamViewDef][ExamineeViewName := ExamineeViewDef]))
  {
    var fw := Forwards(Ops)[5..];
    var c6 := c5.(views := c5.views[ModeViewName := ModeViewDef]);
    var c7 := c6.(views := c6.views[TypeViewName := TypeViewDef]);
    var c8 := c7.(views := c7.views[StatusViewName := StatusViewDef]);
    var c9 := c8.(views := c8.views[ExamViewName := ExamViewDef]);
    var c10 := c9.(views := c9.views[ExamineeViewName := ExamineeViewDef]);
    CreateReadingView(c5, ModeViewName, Modi, ModiColumns, ModeViewDef.columns);
    CreateReadingView(c6, TypeViewName, Typen, TypenColumns, TypeViewDef.columns);
    CreateReadingView(c7, StatusViewName, StatusTypen, StatusTypenColumns, StatusViewDef.columns);
    CreateReadingView(c8, ExamViewName, Termine, TermineColumns, ExamViewDef.columns);
    CreateReadingView(c9, ExamineeViewName, Kandidaten, KandidatenColumns, ExamineeViewDef.columns);
    RunThrough([c5, c6, c7, c8, c9, c10], fw);
  }

  /** A view reading all columns of an existing table can be created under a fresh name. */
  lemma CreateReadingView(c: Catalog, v: string, table: string, columns: set<string>, out: set<string>)
    requires table in c.tables && c.tables[table] == columns && v !in c.views
    ensures Apply(c, CreateView(v, View(Reads(table, columns), out))) == Success(c.(views := c.views[v := View(Reads(table, columns), out)]))
  {
  }

  /** Creating a view before the table it reads fails: the forward order of tables before views is needed. */
  lemma ViewBeforeTableFails(c: Catalog)
    requires Termine !in c.tables && ExamViewName !in c.views
    ensures Apply(c, CreateView(ExamViewName, ExamViewDef)) == Failure(Missing(ExamViewName))
  {
    assert (Termine, "termin_nr") in ExamViewDef.sources;
  }
}
