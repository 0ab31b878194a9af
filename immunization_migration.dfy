/**
 * Migration 0063_immunization: the student view `campusonline_student`
 * switches its `immunized` flag from the column IMPFUNG_ERHALTEN ('JA'/'NEIN')
 * to the new column COVID_IMUNISIERUNGS_STATUS ('J'/'N') of the foreign
 * table `stud_impfstatus`; the view is rebuilt with its indexes, and the
 * two columns the old rule used are dropped from the table.
 */
module ImmunizationMigration {
  import opened Wrappers
  import opened Text
  import opened Sql
  import opened Query
  import opened Ddl

  /** A row of `stud`; `stud_nr` is `numeric`. */
  datatype StudentSource = StudentSource(
    studNr: Option<real>, studMnr: Option<string>, studFamnam: Option<string>, studVorname: Option<string>,
    studAkadgrad: Option<string>, studMifare: Option<string>, studBenutzername: Option<string>,
    persProfilbild: Option<string>, email: Option<string>)

  /** A row of `stud_impfstatus`, with the old and the new status column. */
  datatype StatusRow = StatusRow(stPersonNr: Option<real>, impfungErhalten: Option<string>, covidStatus: Option<string>)

  /** A row of `campusonline_student`. */
  datatype Student = Student(
    id: Option<int>, matriculation: Option<string>, lastName: Option<string>, firstName: Option<string>,
    title: Option<string>, cardid: Option<string>, username: Option<string>, avatar: Option<string>,
    email: Option<string>, immunized: bool)

  /** `UPPER(coalesce(si.covid_imunisierungs_status, 'N')) = 'J'`. */
  function Immunized(status: Option<string>): bool {
    Upper(status.GetOr("N")) == "J"
  }

  /** The rule before this migration: `UPPER(coalesce(si.impfung_erhalten, 'NEIN')) = 'JA'`. */
  function ImmunizedBefore(received: Option<string>): bool {
    Upper(received.GetOr("NEIN")) == "JA"
  }

  /** `s.stud_nr::int = si.st_person_nr::int`. */
  predicate SameStudent(s: StudentSource, si: StatusRow) {
    EqualsTrue(CastInteger(s.studNr), CastInteger(si.stPersonNr))
  }

  /** One student joined with an optional status row; a missing row reads as NULL. */
  function StudentOf(s: StudentSource, si: Option<StatusRow>): Student {
    var status := if si.Some? then si.value.covidStatus else None;
    Student(CastInteger(s.studNr), s.studMnr, s.studFamnam, s.studVorname, s.studAkadgrad, s.studMifare,
      s.studBenutzername, s.persProfilbild, s.email, Immunized(status))
  }

  /** `campusonline_student`: students LEFT JOIN their status rows. */
  function StudentView(students: seq<StudentSource>, statuses: seq<StatusRow>): seq<Student> {
    LeftJoin(students, statuses, SameStudent, StudentOf)
  }

  /** Immunized exactly for the status 'J' or 'j'; no status is not immunized. */
  lemma ImmunizedSpec(status: Option<string>)
    ensures Immunized(status) <==> status == Some("J") || status == Some("j")
    ensures status.None? ==> !Immunized(status)
  {
    UpperIsLetter(status.GetOr("N"), 'J');
  }

  /** The previous rule: immunized exactly for 'JA' in any letter case; no value is not immunized. */
  lemma ImmunizedBeforeSpec(received: Option<string>)
    ensures ImmunizedBefore(received) <==>
      received.Some? && |received.value| == 2 && received.value[0] in {'J', 'j'} && received.value[1] in {'A', 'a'}
    ensures received.None? ==> !ImmunizedBefore(received)
  {
    var s := received.GetOr("NEIN");
    if |s| == 2 {
      assert Upper(s) == [UpperChar(s[0]), UpperChar(s[1])];
    }
  }

  /**
   * Every student is in the view: one without a status row once, with
   * `immunized` false; one with status rows once per row, with the flag
   * that row's status gives.
   */
  lemma StudentsKept(students: seq<StudentSource>, statuses: seq<StatusRow>, s: StudentSource)
    requires s in students
    ensures Matches(s, statuses, SameStudent) == [] ==>
      StudentOf(s, None) in StudentView(students, statuses) && !StudentOf(s, None).immunized
    ensures forall si :: si in statuses && SameStudent(s, si) ==>
      StudentOf(s, Some(si)) in StudentView(students, statuses) && StudentOf(s, Some(si)).immunized == Immunized(si.covidStatus)
  {
    LeftJoinKeepsLeft(students, statuses, SameStudent, StudentOf, s);
    ImmunizedSpec(None);
  }

  /** A student with several status rows appears once per row; one with none appears once. */
  lemma RowsPerStudent(s: StudentSource, statuses: seq<StatusRow>)
    ensures |StudentView([s], statuses)| == if Matches(s, statuses, SameStudent) == [] then 1 else |Matches(s, statuses, SameStudent)|
  {
    assert [s][1..] == [];
    assert StudentView([s], statuses) == JoinRow(s, statuses, SameStudent, StudentOf) + LeftJoin([], statuses, SameStudent, StudentOf);
  }

  // The schema objects, by their lower-case names.

  const Stud := "stud"
  const Impfstatus := "stud_impfstatus"
  const StudentViewName := "campusonline_student"
  const Covid := "covid_imunisierungs_status"
  const Received := "impfung_erhalten"
  const Status := "status"

  const StudColumns: set<string> := {
    "stud_nr", "stud_mnr", "stud_famnam", "stud_vorname", "stud_akadgrad", "stud_mifare",
    "stud_benutzername", "pers_profilbild", "email"}
  const StudentColumns: set<string> := {
    "id", "matriculation", "last_name", "first_name", "title", "cardid", "username", "avatar", "email", "immunized"}

  /** The view before: it reads IMPFUNG_ERHALTEN. */
  const OldStudentDef := View(Reads(Stud, StudColumns) + {(Impfstatus, "st_person_nr"), (Impfstatus, Received)}, StudentColumns)

  /** The view after: it reads COVID_IMUNISIERUNGS_STATUS. */
  const NewStudentDef := View(Reads(Stud, StudColumns) + {(Impfstatus, "st_person_nr"), (Impfstatus, Covid)}, StudentColumns)

  const CardidIdx := "campusonline_student_cardid_idx"
  const MatriculationIdx := "campusonline_student_matriculation_idx"
  const IdIdx := "campusonline_student_id_idx"
  const UsernameIdx := "campusonline_student_username_idx"
  const EmailIdx := "campusonline_student_email_idx"

  function On(column: string): Index {
    Index(StudentViewName, [column], false)
  }

  /** Dropping an index of the student view, undone by creating it again. */
  function DropIndexPair(name: string, column: string): (Op, Op) {
    (DropIndex(name), CreateIndex(name, On(column)))
  }

  /** Creating an index on the student view, undone by dropping it. */
  function CreateIndexPair(name: string, column: string): (Op, Op) {
    (CreateIndex(name, On(column)), DropIndex(name))
  }

  /** The migration's `ops`. */
  const Ops: seq<(Op, Op)> := [
    (AddColumn(Impfstatus, Covid), DropColumn(Impfstatus, Covid)),
    DropIndexPair(CardidIdx, "cardid"),
    DropIndexPair(MatriculationIdx, "matriculation"),
    DropIndexPair(IdIdx, "id"),
    DropIndexPair(UsernameIdx, "username"),
    (DropView(StudentViewName), CreateView(StudentViewName, OldStudentDef)),
    (CreateView(StudentViewName, NewStudentDef), DropView(StudentViewName)),
    CreateIndexPair(IdIdx, "id"),
    CreateIndexPair(MatriculationIdx, "matriculation"),
    CreateIndexPair(CardidIdx, "cardid"),
    CreateIndexPair(UsernameIdx, "username"),
    CreateIndexPair(EmailIdx, "email"),
    (DropColumn(Impfstatus, Received), AddColumn(Impfstatus, Received)),
    (DropColumn(Impfstatus, Status), AddColumn(Impfstatus, Status))]

  /**
   * The catalog this migration expects: the tables with the columns the
   * views read, the old view with exactly its four indexes, the new column
   * and the email index not yet there, and no other view reading the
   * columns this migration drops.
   */
  predicate Before(c: Catalog) {
    Consistent(c) &&
    Stud in c.tables && StudColumns <= c.tables[Stud] &&
    Impfstatus in c.tables && {"st_person_nr", Received, Status} <= c.tables[Impfstatus] && Covid !in c.tables[Impfstatus] &&
    StudentViewName in c.views && c.views[StudentViewName] == OldStudentDef &&
    CardidIdx in c.indexes && c.indexes[CardidIdx] == On("cardid") &&
    MatriculationIdx in c.indexes && c.indexes[MatriculationIdx] == On("matriculation") &&
    IdIdx in c.indexes && c.indexes[IdIdx] == On("id") &&
    UsernameIdx in c.indexes && c.indexes[UsernameIdx] == On("username") &&
    EmailIdx !in c.indexes &&
    (forall i :: i in c.indexes && c.indexes[i].view == StudentViewName ==> i in {CardidIdx, MatriculationIdx, IdIdx, UsernameIdx}) &&
    forall v :: v in c.views && v != StudentViewName ==> (Impfstatus, Received) !in c.views[v].sources && (Impfstatus, Status) !in c.views[v].sources
  }

  // The catalogs the forward run passes through.

  /** After the new column is added and the first two old indexes are dropped. */
  function Midway(c: Catalog): Catalog
    requires Impfstatus in c.tables
  {
    var c1 := WithCovid(c);
    c1.(indexes := c1.indexes - {CardidIdx} - {MatriculationIdx})
  }

  /** After the old view is dropped with all four of its indexes. */
  function Cleared(c: Catalog): Catalog
    requires Impfstatus in c.tables
  {
    var m := Midway(c);
    Catalog(m.tables, m.views - {StudentViewName}, m.indexes - {IdIdx} - {UsernameIdx})
  }

  /** After the new view and its five indexes are created. */
  function Indexed(c: Catalog): Catalog
    requires Impfstatus in c.tables
  {
    var c6 := Cleared(c);
    Catalog(c6.tables, c6.views[StudentViewName := NewStudentDef],
      c6.indexes[IdIdx := On("id")][MatriculationIdx := On("matriculation")][CardidIdx := On("cardid")][UsernameIdx := On("username")][EmailIdx := On("email")])
  }

  /** The catalog after this migration. */
  function After(c: Catalog): Catalog
    requires Impfstatus in c.tables
  {
    Catalog(c.tables[Impfstatus := c.tables[Impfstatus] + {Covid} - {Received, Status}],
      c.views[StudentViewName := NewStudentDef],
      c.indexes[IdIdx := On("id")][MatriculationIdx := On("matriculation")][CardidIdx := On("cardid")][UsernameIdx := On("username")][EmailIdx := On("email")])
  }

  function WithCovid(c: Catalog): Catalog
    requires Impfstatus in c.tables
  {
    c.(tables := c.tables[Impfstatus := c.tables[Impfstatus] + {Covid}])
  }

  /** The named index exists on the student view's column. */
  predicate HasIndex(c: Catalog, name: string, column: string) {
    name in c.indexes && c.indexes[name] == On(column)
  }

  /** Adding the new column to `stud_impfstatus`. */
  lemma AddCovidStep(c: Catalog, c1: Catalog)
    requires Consistent(c) && Impfstatus in c.tables && Covid !in c.tables[Impfstatus]
    requires c1 == WithCovid(c)
    ensures StepUndone(c, Ops[0], c1) && Consistent(c1)
  {
    AddColumnStep(c, Impfstatus, Covid);
  }

  /** Dropping one of the old view's indexes. */
  lemma DropIndexPairStep(a: Catalog, name: string, column: string)
    requires Consistent(a) && HasIndex(a, name, column)
    ensures StepUndone(a, DropIndexPair(name, column), a.(indexes := a.indexes - {name}))
    ensures Consistent(a.(indexes := a.indexes - {name}))
  {
    DropIndexStep(a, name);
  }

  /** Dropping the old view once no index is left on it. */
  lemma DropOldViewStep(c5: Catalog, c6: Catalog)
    requires Consistent(c5) && StudentViewName in c5.views && c5.views[StudentViewName] == OldStudentDef
    requires forall i :: i in c5.indexes ==> c5.indexes[i].view != StudentViewName
    requires c6 == c5.(views := c5.views - {StudentViewName})
    ensures StepUndone(c5, Ops[5], c6) && Consistent(c6)
  {
    DropViewStep(c5, StudentViewName);
  }

  /** Creating the new view, which reads the new column. */
  lemma CreateNewViewStep(c6: Catalog, c7: Catalog)
    requires Consistent(c6) && StudentViewName !in c6.views
    requires Stud in c6.tables && StudColumns <= c6.tables[Stud]
    requires Impfstatus in c6.tables && {"st_person_nr", Covid} <= c6.tables[Impfstatus]
    requires c7 == c6.(views := c6.views[StudentViewName := NewStudentDef])
    ensures StepUndone(c6, Ops[6], c7) && Consistent(c7)
  {
    CreateViewStep(c6, StudentViewName, NewStudentDef);
  }

  /** Creating one of the new view's indexes. */
  lemma CreateIndexPairStep(a: Catalog, name: string, column: string)
    requires Consistent(a) && name !in a.indexes && StudentViewName in a.views && column in a.views[StudentViewName].columns
    ensures StepUndone(a, CreateIndexPair(name, column), a.(indexes := a.indexes[name := On(column)]))
    ensures Consistent(a.(indexes := a.indexes[name := On(column)]))
  {
    CreateIndexStep(a, name, On(column));
  }

  /** Dropping the two columns only the old view read. */
  lemma DropColumnSteps(c12: Catalog, c13: Catalog, c14: Catalog)
    requires Consistent(c12) && Impfstatus in c12.tables && {Received, Status} <= c12.tables[Impfstatus]
    requires forall v :: v in c12.views ==> (Impfstatus, Received) !in c12.views[v].sources && (Impfstatus, Status) !in c12.views[v].sources
    requires c13 == c12.(tables := c12.tables[Impfstatus := c12.tables[Impfstatus] - {Received}])
    requires c14 == c13.(tables := c13.tables[Impfstatus := c13.tables[Impfstatus] - {Status}])
    ensures StepUndone(c12, Ops[12], c13) && StepUndone(c13, Ops[13], c14)
  {
    DropColumnStep(c12, Impfstatus, Received);
    DropColumnStep(c13, Impfstatus, Status);
  }

  /** The segments of `Ops` the proofs below step through. */
  lemma OpsSlices()
    ensures Ops[0..3] == [Ops[0], DropIndexPair(CardidIdx, "cardid"), DropIndexPair(MatriculationIdx, "matriculation")]
    ensures Ops[3..6] == [DropIndexPair(IdIdx, "id"), DropIndexPair(UsernameIdx, "username"), Ops[5]]
    ensures Ops[6..9] == [Ops[6], CreateIndexPair(IdIdx, "id"), CreateIndexPair(MatriculationIdx, "matriculation")]
    ensures Ops[9..12] == [CreateIndexPair(CardidIdx, "cardid"), CreateIndexPair(UsernameIdx, "username"), CreateIndexPair(EmailIdx, "email")]
    ensures Ops[12..14] == [Ops[12], Ops[13]]
  {
  }

  /** Pairs 0 to 2: the new column, then the first two indexes dropped. */
  lemma SegmentAddAndDrop(c: Catalog, c1: Catalog, c2: Catalog, c3: Catalog)
    requires Consistent(c) && Impfstatus in c.tables && Covid !in c.tables[Impfstatus]
    requires HasIndex(c, CardidIdx, "cardid") && HasIndex(c, MatriculationIdx, "matriculation")
    requires c1 == WithCovid(c)
    requires c2 == c1.(indexes := c1.indexes - {CardidIdx})
    requires c3 == c2.(indexes := c2.indexes - {MatriculationIdx})
    ensures UndoneSegment(c, Ops[0..3], c3) && Consistent(c3)
  {
    AddCovidStep(c, c1);
    DropIndexPairStep(c1, CardidIdx, "cardid");
    DropIndexPairStep(c2, MatriculationIdx, "matriculation");
    ThreeSteps(c, c1, c2, c3, Ops[0], DropIndexPair(CardidIdx, "cardid"), DropIndexPair(MatriculationIdx, "matriculation"));
    OpsSlices();
  }

  /** Pairs 3 to 5: the other two indexes and then the old view dropped. */
  lemma SegmentDropView(c3: Catalog, c4: Catalog, c5: Catalog, c6: Catalog)
    requires Consistent(c3) && HasIndex(c3, IdIdx, "id") && HasIndex(c3, UsernameIdx, "username")
    requires StudentViewName in c3.views && c3.views[StudentViewName] == OldStudentDef
    requires forall i :: i in c3.indexes && c3.indexes[i].view == StudentViewName ==> i in {IdIdx, UsernameIdx}
    requires c4 == c3.(indexes := c3.indexes - {IdIdx})
    requires c5 == c4.(indexes := c4.indexes - {UsernameIdx})
    requires c6 == c5.(views := c5.views - {StudentViewName})
    ensures UndoneSegment(c3, Ops[3..6], c6) && Consistent(c6)
  {
    DropIndexPairStep(c3, IdIdx, "id");
    DropIndexPairStep(c4, UsernameIdx, "username");
    DropOldViewStep(c5, c6);
    ThreeSteps(c3, c4, c5, c6, DropIndexPair(IdIdx, "id"), DropIndexPair(UsernameIdx, "username"), Ops[5]);
    OpsSlices();
  }

  /** Pairs 6 to 8: the new view and its first two indexes. */
  lemma SegmentNewView(c6: Catalog, c7: Catalog, c8: Catalog, c9: Catalog)
    requires Consistent(c6) && StudentViewName !in c6.views
    requires Stud in c6.tables && StudColumns <= c6.tables[Stud]
    requires Impfstatus in c6.tables && {"st_person_nr", Covid} <= c6.tables[Impfstatus]
    requires IdIdx !in c6.indexes && MatriculationIdx !in c6.indexes
    requires c7 == c6.(views := c6.views[StudentViewName := NewStudentDef])
    requires c8 == c7.(indexes := c7.indexes[IdIdx := On("id")])
    requires c9 == c8.(indexes := c8.indexes[MatriculationIdx := On("matriculation")])
    ensures UndoneSegment(c6, Ops[6..9], c9) && Consistent(c9)
  {
    CreateNewViewStep(c6, c7);
    CreateIndexPairStep(c7, IdIdx, "id");
    CreateIndexPairStep(c8, MatriculationIdx, "matriculation");
    ThreeSteps(c6, c7, c8, c9, Ops[6], CreateIndexPair(IdIdx, "id"), CreateIndexPair(MatriculationIdx, "matriculation"));
    OpsSlices();
  }

  /** Pairs 9 to 11: the remaining three indexes of the new view. */
  lemma SegmentIndexes(c9: Catalog, c10: Catalog, c11: Catalog, c12: Catalog)
    requires Consistent(c9) && StudentViewName in c9.views && c9.views[StudentViewName] == NewStudentDef
    requires CardidIdx !in c9.indexes && UsernameIdx !in c9.indexes && EmailIdx !in c9.indexes
    requires c10 == c9.(indexes := c9.indexes[CardidIdx := On("cardid")])
    requires c11 == c10.(indexes := c10.indexes[UsernameIdx := On("username")])
    requires c12 == c11.(indexes := c11.indexes[EmailIdx := On("email")])
    ensures UndoneSegment(c9, Ops[9..12], c12) && Consistent(c12)
  {
    CreateIndexPairStep(c9, CardidIdx, "cardid");
    CreateIndexPairStep(c10, UsernameIdx, "username");
    CreateIndexPairStep(c11, EmailIdx, "email");
    ThreeSteps(c9, c10, c11, c12, CreateIndexPair(CardidIdx, "cardid"), CreateIndexPair(UsernameIdx, "username"), CreateIndexPair(EmailIdx, "email"));
    OpsSlices();
  }

  /** Pairs 12 and 13: the two old columns dropped. */
  lemma SegmentDropColumns(c12: Catalog, c13: Catalog, c14: Catalog)
    requires Consistent(c12) && Impfstatus in c12.tables && {Received, Status} <= c12.tables[Impfstatus]
    requires forall v :: v in c12.views ==> (Impfstatus, Received) !in c12.views[v].sources && (Impfstatus, Status) !in c12.views[v].sources
    requires c13 == c12.(tables := c12.tables[Impfstatus := c12.tables[Impfstatus] - {Received}])
    requires c14 == c13.(tables := c13.tables[Impfstatus := c13.tables[Impfstatus] - {Status}])
    ensures UndoneSegment(c12, Ops[12..14], c14)
  {
    DropColumnSteps(c12, c13, c14);
    TwoSteps(c12, c13, c14, Ops[12], Ops[13]);
    OpsSlices();
  }

  /** Once two of the old view's four indexes are dropped, only the other two remain on it. */
  lemma RemainingOldIndexes(c: Catalog, c3: Catalog)
    requires forall i :: i in c.indexes && c.indexes[i].view == StudentViewName ==> i in {CardidIdx, MatriculationIdx, IdIdx, UsernameIdx}
    requires c3.indexes == c.indexes - {CardidIdx} - {MatriculationIdx}
    ensures forall i :: i in c3.indexes && c3.indexes[i].view == StudentViewName ==> i in {IdIdx, UsernameIdx}
  {
    forall i | i in c3.indexes && c3.indexes[i].view == StudentViewName
      ensures i in {IdIdx, UsernameIdx}
    {
      assert i in c.indexes && i != CardidIdx && i != MatriculationIdx;
    }
  }

  /** Pairs 0 to 2, from the catalog this migration expects. */
  lemma ClearFirstHalf(c: Catalog)
    requires Before(c)
    ensures UndoneSegment(c, Ops[0..3], Midway(c)) && Consistent(Midway(c))
    ensures HasIndex(Midway(c), IdIdx, "id") && HasIndex(Midway(c), UsernameIdx, "username")
    ensures StudentViewName in Midway(c).views && Midway(c).views[StudentViewName] == OldStudentDef
    ensures forall i :: i in Midway(c).indexes && Midway(c).indexes[i].view == StudentViewName ==> i in {IdIdx, UsernameIdx}
  {
    var c1 := WithCovid(c);
    var c2 := c1.(indexes := c1.indexes - {CardidIdx});
    SegmentAddAndDrop(c, c1, c2, Midway(c));
    RemainingOldIndexes(c, Midway(c));
  }

  /** Pairs 3 to 5, from the midway catalog. */
  lemma ClearSecondHalf(c: Catalog)
    requires Impfstatus in c.tables
    requires Consistent(Midway(c))
    requires HasIndex(Midway(c), IdIdx, "id") && HasIndex(Midway(c), UsernameIdx, "username")
    requires StudentViewName in Midway(c).views && Midway(c).views[StudentViewName] == OldStudentDef
    requires forall i :: i in Midway(c).indexes && Midway(c).indexes[i].view == StudentViewName ==> i in {IdIdx, UsernameIdx}
    ensures UndoneSegment(Midway(c), Ops[3..6], Cleared(c)) && Consistent(Cleared(c))
  {
    var m := Midway(c);
    var c4 := m.(indexes := m.indexes - {IdIdx});
    var c5 := c4.(indexes := c4.indexes - {UsernameIdx});
    SegmentDropView(m, c4, c5, Cleared(c));
  }

  /** Pairs 0 to 5: the new column added, the old view's indexes and the old view dropped. */
  lemma ClearSegment(c: Catalog)
    requires Before(c)
    ensures UndoneSegment(c, Ops[0..6], Cleared(c)) && Consistent(Cleared(c))
  {
    ClearFirstHalf(c);
    ClearSecondHalf(c);
    SegmentsJoin(c, Ops, 0, 3, 6, Midway(c), Cleared(c));
  }

  /** What the cleared catalog still holds, as the new view and its indexes need it. */
  lemma ClearedShape(c: Catalog)
    requires Before(c)
    ensures StudentViewName !in Cleared(c).views
    ensures Stud in Cleared(c).tables && StudColumns <= Cleared(c).tables[Stud]
    ensures Impfstatus in Cleared(c).tables && {"st_person_nr", Covid, Received, Status} <= Cleared(c).tables[Impfstatus]
    ensures forall i :: i in Cleared(c).indexes ==> i in c.indexes
    ensures IdIdx !in Cleared(c).indexes && MatriculationIdx !in Cleared(c).indexes
    ensures CardidIdx !in Cleared(c).indexes && UsernameIdx !in Cleared(c).indexes
    ensures Cleared(c).views == c.views - {StudentViewName}
  {
  }

  /** Pairs 6 to 11: the new view and its five indexes. */
  lemma BuildView(c: Catalog)
    requires Before(c) && Consistent(Cleared(c))
    ensures UndoneSegment(Cleared(c), Ops[6..12], Indexed(c)) && Consistent(Indexed(c))
  {
    ClearedShape(c);
    var c6 := Cleared(c);
    var c7 := c6.(views := c6.views[StudentViewName := NewStudentDef]);
    var c8 := c7.(indexes := c7.indexes[IdIdx := On("id")]);
    var c9 := c8.(indexes := c8.indexes[MatriculationIdx := On("matriculation")]);
    var c10 := c9.(indexes := c9.indexes[CardidIdx := On("cardid")]);
    var c11 := c10.(indexes := c10.indexes[UsernameIdx := On("username")]);
    SegmentNewView(c6, c7, c8, c9);
    SegmentIndexes(c9, c10, c11, Indexed(c));
    SegmentsJoin(c6, Ops, 6, 9, 12, c9, Indexed(c));
  }

  /** Four keys removed and then set again, with a fifth set besides, end as if only set. */
  lemma ReaddedAll<K, V>(m: map<K, V>, a: K, b: K, c: K, d: K, e: K, va: V, vb: V, vc: V, vd: V, ve: V)
    ensures (m - {a} - {b} - {c} - {d})[c := vc][b := vb][a := va][d := vd][e := ve]
         == m[c := vc][b := vb][a := va][d := vd][e := ve]
  {
    var x := (m - {a} - {b} - {c} - {d})[c := vc][b := vb][a := va][d := vd][e := ve];
    var y := m[c := vc][b := vb][a := va][d := vd][e := ve];
    assert forall k :: k in x <==> k in y;
  }

  /** One column added to a table and then two others dropped from it, one at a time. */
  lemma ColumnsSwapped<K>(m: map<K, set<string>>, k: K, added: string, first: string, second: string)
    requires k in m
    ensures var m1 := m[k := m[k] + {added}];
            var m2 := m1[k := m1[k] - {first}];
            m2[k := m2[k] - {second}] == m[k := m[k] + {added} - {first, second}]
  {
    assert m[k] + {added} - {first} - {second} == m[k] + {added} - {first, second};
  }

  /** The new view replaces the old one under the same name. */
  lemma IndexedViews(c: Catalog)
    requires Impfstatus in c.tables
    ensures Indexed(c).views == After(c).views
  {
    RemoveThenSet(c.views, StudentViewName, NewStudentDef);
  }

  /** Every old index is dropped and recreated, so the indexes end as `After` states them. */
  lemma IndexedIndexes(c: Catalog)
    requires Impfstatus in c.tables
    ensures Indexed(c).indexes == After(c).indexes
  {
    ReaddedAll(c.indexes, CardidIdx, MatriculationIdx, IdIdx, UsernameIdx, EmailIdx,
      On("cardid"), On("matriculation"), On("id"), On("username"), On("email"));
  }

  /** Once the old view is gone, no view reads the two old columns. */
  lemma OldColumnsUnread(c: Catalog)
    requires Before(c)
    ensures forall v :: v in Indexed(c).views ==> (Impfstatus, Received) !in Indexed(c).views[v].sources && (Impfstatus, Status) !in Indexed(c).views[v].sources
  {
    IndexedViews(c);
    assert (Impfstatus, Received) !in NewStudentDef.sources;
    assert (Impfstatus, Status) !in NewStudentDef.sources;
  }

  /** Pairs 12 and 13: the old columns dropped once no view reads them. */
  lemma DropColumns(c: Catalog)
    requires Before(c) && Consistent(Indexed(c))
    ensures UndoneSegment(Indexed(c), Ops[12..14], After(c))
  {
    ClearedShape(c);
    OldColumnsUnread(c);
    var c12 := Indexed(c);
    var c13 := c12.(tables := c12.tables[Impfstatus := c12.tables[Impfstatus] - {Received}]);
    var c14 := c13.(tables := c13.tables[Impfstatus := c13.tables[Impfstatus] - {Status}]);
    SegmentDropColumns(c12, c13, c14);
    ColumnsSwapped(c.tables, Impfstatus, Covid, Received, Status);
    IndexedViews(c);
    IndexedIndexes(c);
  }

  /** Pairs 6 to 13: the new view and its indexes created, the old columns dropped. */
  lemma BuildSegment(c: Catalog)
    requires Before(c) && Consistent(Cleared(c))
    ensures UndoneSegment(Cleared(c), Ops[6..14], After(c))
  {
    BuildView(c);
    DropColumns(c);
    SegmentsJoin(Cleared(c), Ops, 6, 12, 14, Indexed(c), After(c));
  }

  /** All fourteen pairs, joined from the two halves. */
  lemma WholeMigration(c: Catalog)
    requires Before(c)
    ensures UndoneSegment(c, Ops, After(c))
  {
    ClearSegment(c);
    BuildSegment(c);
    SegmentsJoin(c, Ops, 0, 6, 14, Cleared(c), After(c));
    WholeSlice(Ops);
  }

  lemma WholeSlice<T>(s: seq<T>)
    ensures s[0..|s|] == s
  {
  }

  /**
   * From the catalog this migration expects, forward succeeds and reaches
   * the new state: the COVID column added, the old view and its indexes
   * replaced by the new view with five indexes, and IMPFUNG_ERHALTEN and
   * STATUS dropped. Reverse then restores the catalog exactly: it re-adds
   * the dropped columns before it recreates the old view that reads them.
   */
  lemma MigrationRoundTrip(c: Catalog)
    requires Before(c)
    ensures Run(c, Forwards(Ops)) == Success(After(c))
    ensures Run(After(c), Reverses(Ops)) == Success(c)
  {
    WholeMigration(c);
    RoundTrip(c, Ops);
  }
}
