/**
 * Migration 0059_roomallocation: the foreign table `hybrid_angemeldete`
 * (students registered for a hybrid course term, on site or not) and the
 * materialized view `campusonline_roomallocation`, which joins it with the
 * course group terms and aggregates one row per group, with its indexes.
 */
module RoomAllocationMigration {
  import opened Wrappers
  import opened Text
  import opened Sql
  import opened Query
  import opened Ddl

  /** A row of `hybrid_angemeldete`; the numbers are `numeric`, the times seconds since the epoch. */
  datatype HybridRow = HybridRow(
    terminNr: Option<real>, raumNr: Option<real>, datumVon: Option<int>, datumBis: Option<int>,
    stPersonNr: Option<real>, angemeldet: Option<string>)

  /** The columns of a `lv_grp_term` row that the view reads. */
  datatype TermRow = TermRow(terminNr: Option<real>, lvBeginn: Option<int>, lvEnde: Option<int>)

  /** The GROUP BY key; NULLs group together. */
  datatype GroupKey = GroupKey(terminNr: Option<real>, raumNr: Option<real>, stPersonNr: Option<real>, angemeldet: Option<string>)

  /** A row of `campusonline_roomallocation`. */
  datatype RoomAllocation = RoomAllocation(
    id: string, term: Option<int>, room: Option<int>, student: Option<int>,
    start: Option<int>, end: Option<int>, onsite: Option<bool>)

  function KeyOf(h: HybridRow): GroupKey {
    GroupKey(h.terminNr, h.raumNr, h.stPersonNr, h.angemeldet)
  }

  /** The course group terms the join condition `ha.termin_nr = lgt.termin_nr` pairs with a term number. */
  function TermsOf(terminNr: Option<real>, lgt: seq<TermRow>): (r: seq<TermRow>)
    ensures forall l :: l in r <==> l in lgt && EqualsTrue(terminNr, l.terminNr)
  {
    Filter(lgt, (l: TermRow) => EqualsTrue(terminNr, l.terminNr))
  }

  /** `MIN` over a column: NULLs are ignored, and no non-NULL value gives NULL. */
  function MinOf(values: seq<Option<int>>): (r: Option<int>)
    ensures r.None? <==> forall i :: 0 <= i < |values| ==> values[i].None?
    ensures r.Some? ==> r in values && forall i :: 0 <= i < |values| && values[i].Some? ==> r.value <= values[i].value
  {
    if values == [] then None
    else
      var rest := MinOf(values[1..]);
      if values[0].None? then rest
      else if rest.None? || values[0].value <= rest.value then values[0]
      else rest
  }

  /** `MAX` over a column: NULLs are ignored, and no non-NULL value gives NULL. */
  function MaxOf(values: seq<Option<int>>): (r: Option<int>)
    ensures r.None? <==> forall i :: 0 <= i < |values| ==> values[i].None?
    ensures r.Some? ==> r in values && forall i :: 0 <= i < |values| && values[i].Some? ==> values[i].value <= r.value
  {
    if values == [] then None
    else
      var rest := MaxOf(values[1..]);
      if values[0].None? then rest
      else if rest.None? || rest.value <= values[0].value then values[0]
      else rest
  }

  function Starts(terms: seq<TermRow>): (r: seq<Option<int>>)
    ensures |r| == |terms| && forall i :: 0 <= i < |terms| ==> r[i] == terms[i].lvBeginn
  {
    seq(|terms|, i requires 0 <= i < |terms| => terms[i].lvBeginn)
  }

  function Ends(terms: seq<TermRow>): (r: seq<Option<int>>)
    ensures |r| == |terms| && forall i :: 0 <= i < |terms| ==> r[i] == terms[i].lvEnde
  {
    seq(|terms|, i requires 0 <= i < |terms| => terms[i].lvEnde)
  }

  /** `CONCAT_WS('-', term, room, student)` over the integer casts. */
  function IdOf(k: GroupKey): string {
    ConcatWs("-", [IntText(CastInteger(k.terminNr)), IntText(CastInteger(k.raumNr)), IntText(CastInteger(k.stPersonNr))])
  }

  /** `n::text` with NULL propagation. */
  function IntText(n: Option<int>): (r: Option<string>)
    ensures r.None? <==> n.None?
  {
    match n
    case None => None
    case Some(v) => Some(IntToString(v))
  }

  /** The aggregated row of one group. */
  function AllocationOf(k: GroupKey, lgt: seq<TermRow>): RoomAllocation {
    var terms := TermsOf(k.terminNr, lgt);
    RoomAllocation(
      IdOf(k), CastInteger(k.terminNr), CastInteger(k.raumNr), CastInteger(k.stPersonNr),
      MinOf(Starts(terms)), MaxOf(Ends(terms)), UpperEquals(k.angemeldet, "J"))
  }

  /** The groups with at least one row in the inner join. */
  function Groups(ha: seq<HybridRow>, lgt: seq<TermRow>): set<GroupKey> {
    set h | h in ha && TermsOf(h.terminNr, lgt) != [] :: KeyOf(h)
  }

  /** `campusonline_roomallocation`, one row per group; the view's row order is unspecified. */
  function AllocationView(ha: seq<HybridRow>, lgt: seq<TermRow>): map<GroupKey, RoomAllocation> {
    map k | k in Groups(ha, lgt) :: AllocationOf(k, lgt)
  }

  /**
   * A registration's group is in the view exactly when its term number is
   * non-NULL and some course group term has it; other registrations are
   * dropped by the inner join.
   */
  lemma GroupedExactlyWhenMatched(ha: seq<HybridRow>, lgt: seq<TermRow>, h: HybridRow)
    requires h in ha
    ensures KeyOf(h) in AllocationView(ha, lgt) <==> h.terminNr.Some? && exists l :: l in lgt && l.terminNr == h.terminNr
  {
    if h.terminNr.Some? && exists l :: l in lgt && l.terminNr == h.terminNr {
      var l :| l in lgt && l.terminNr == h.terminNr;
      assert l in TermsOf(h.terminNr, lgt);
    }
    if KeyOf(h) in AllocationView(ha, lgt) {
      var h' :| h' in ha && TermsOf(h'.terminNr, lgt) != [] && KeyOf(h') == KeyOf(h);
      assert TermsOf(h.terminNr, lgt)[0] in TermsOf(h.terminNr, lgt);
    }
  }

  /** `start` is the earliest and `end` the latest time over the group's course group terms. */
  lemma StartEndBounds(ha: seq<HybridRow>, lgt: seq<TermRow>, k: GroupKey, l: TermRow)
    requires k in AllocationView(ha, lgt) && l in lgt && EqualsTrue(k.terminNr, l.terminNr)
    ensures l.lvBeginn.Some? ==> AllocationView(ha, lgt)[k].start.Some? && AllocationView(ha, lgt)[k].start.value <= l.lvBeginn.value
    ensures l.lvEnde.Some? ==> AllocationView(ha, lgt)[k].end.Some? && l.lvEnde.value <= AllocationView(ha, lgt)[k].end.value
  {
    var terms := TermsOf(k.terminNr, lgt);
    assert l in terms;
    var i :| 0 <= i < |terms| && terms[i] == l;
    assert Starts(terms)[i] == l.lvBeginn && Ends(terms)[i] == l.lvEnde;
  }

  /** When every matching course group term starts no later than it ends, so does the allocation. */
  lemma StartBeforeEnd(ha: seq<HybridRow>, lgt: seq<TermRow>, k: GroupKey)
    requires k in AllocationView(ha, lgt)
    requires forall l :: l in lgt && EqualsTrue(k.terminNr, l.terminNr) ==> l.lvBeginn.Some? && l.lvEnde.Some? && l.lvBeginn.value <= l.lvEnde.value
    ensures AllocationView(ha, lgt)[k].start.Some? && AllocationView(ha, lgt)[k].end.Some?
    ensures AllocationView(ha, lgt)[k].start.value <= AllocationView(ha, lgt)[k].end.value
  {
    var terms := TermsOf(k.terminNr, lgt);
    var h :| h in ha && TermsOf(h.terminNr, lgt) != [] && KeyOf(h) == k;
    assert terms[0] in terms;
    var first := MinOf(Starts(terms));
    var i :| 0 <= i < |terms| && Starts(terms)[i] == first;
    assert terms[i] in terms;
    StartEndBounds(ha, lgt, k, terms[i]);
  }

  /** `onsite` is NULL for a NULL registration flag and true exactly for 'J' or 'j'. */
  lemma OnsiteSpec(ha: seq<HybridRow>, lgt: seq<TermRow>, k: GroupKey)
    requires k in AllocationView(ha, lgt)
    ensures AllocationView(ha, lgt)[k].onsite.None? <==> k.angemeldet.None?
    ensures AllocationView(ha, lgt)[k].onsite == Some(true) <==> k.angemeldet == Some("J") || k.angemeldet == Some("j")
  {
    if k.angemeldet.Some? {
      UpperIsLetter(k.angemeldet.value, 'J');
    }
  }

  /** The id is the three numbers joined with '-', and a NULL room is skipped rather than rendered. */
  lemma IdSpec(k: GroupKey)
    requires k.terminNr.Some? && k.stPersonNr.Some?
    ensures var t, s := NumericToInteger(k.terminNr.value), NumericToInteger(k.stPersonNr.value);
      IdOf(k) == if k.raumNr.Some? then IntToString(t) + "-" + IntToString(NumericToInteger(k.raumNr.value)) + "-" + IntToString(s)
                 else IntToString(t) + "-" + IntToString(s)
  {
    var t, s := IntToString(NumericToInteger(k.terminNr.value)), IntToString(NumericToInteger(k.stPersonNr.value));
    if k.raumNr.Some? {
      ConcatWsThree("-", t, IntToString(NumericToInteger(k.raumNr.value)), s);
    } else {
      ConcatWsSkipsNull("-", t, s);
    }
  }

  /**
   * A student registered for the same term and room both with and without
   * the on-site flag forms two groups with one and the same id, although the
   * model declares `id` its primary key.
   */
  lemma DuplicateIds(ha: seq<HybridRow>, lgt: seq<TermRow>, h: HybridRow, other: string)
    requires h in ha && h.(angemeldet := Some(other)) in ha && h.angemeldet != Some(other)
    requires h.terminNr.Some? && exists l :: l in lgt && l.terminNr == h.terminNr
    ensures var k, k' := KeyOf(h), KeyOf(h.(angemeldet := Some(other)));
      k != k' && k in AllocationView(ha, lgt) && k' in AllocationView(ha, lgt) &&
      AllocationView(ha, lgt)[k].id == AllocationView(ha, lgt)[k'].id
  {
    GroupedExactlyWhenMatched(ha, lgt, h);
    GroupedExactlyWhenMatched(ha, lgt, h.(angemeldet := Some(other)));
  }

  const Hybrid := "hybrid_angemeldete"
  const HybridColumns: set<string> := {"termin_nr", "raum_nr", "datum_von", "datum_bis", "st_person_nr", "angemeldet"}
  const LvGrpTerm := "lv_grp_term"
  const AllocationViewName := "campusonline_roomallocation"
  const AllocationViewDef := View(
    {(Hybrid, "termin_nr"), (Hybrid, "raum_nr"), (Hybrid, "st_person_nr"), (Hybrid, "angemeldet"),
     (LvGrpTerm, "termin_nr"), (LvGrpTerm, "lv_beginn"), (LvGrpTerm, "lv_ende")},
    {"id", "term", "room_id", "student_id", "start", "end", "onsite"})

  /** The index on `id` is not unique, so duplicate ids do not stop it being built. */
  const IdIndex := Index(AllocationViewName, ["id"], false)
  const RoomIndex := Index(AllocationViewName, ["room_id"], false)
  const StudentIndex := Index(AllocationViewName, ["student_id"], false)
  const TimerangeIndex := Index(AllocationViewName, ["start", "end"], false)

  /** The migration's `ops`: table, view, then the four indexes on the view. */
  const Ops: seq<(Op, Op)> := [
    (CreateTable(Hybrid, HybridColumns), DropTable(Hybrid)),
    (CreateView(AllocationViewName, AllocationViewDef), DropView(AllocationViewName)),
    (CreateIndex("campusonline_roomallocation_id_idx", IdIndex), DropIndex("campusonline_roomallocation_id_idx")),
    (CreateIndex("campusonline_roomallocation_room_id_idx", RoomIndex), DropIndex("campusonline_roomallocation_room_id_idx")),
    (CreateIndex("campusonline_roomallocation_student_id_idx", StudentIndex), DropIndex("campusonline_roomallocation_student_id_idx")),
    (CreateIndex("campusonline_roomallocation_timerange_idx", TimerangeIndex), DropIndex("campusonline_roomallocation_timerange_idx"))]

  /** Reverse drops the four indexes, then the view, then the foreign table. */
  lemma ReverseOrder()
    ensures Reverses(Ops) == [
      DropIndex("campusonline_roomallocation_timerange_idx"), DropIndex("campusonline_roomallocation_student_id_idx"),
      DropIndex("campusonline_roomallocation_room_id_idx"), DropIndex("campusonline_roomallocation_id_idx"),
      DropView(AllocationViewName), DropTable(Hybrid)]
  {
  }

  /** After a successful forward run from a consistent catalog, the reverse run restores it. */
  lemma ReverseRestores(c: Catalog)
    requires Consistent(c) && Run(c, Forwards(Ops)).Success?
    ensures Run(Run(c, Forwards(Ops)).value, Reverses(Ops)) == Success(c)
  {
    CreationsUndone(c, Ops);
    RoundTrip(c, Ops);
  }

  /**
   * When `lv_grp_term` exists with the columns the view reads and none of
   * the new names is taken, forward succeeds: table, then view, then indexes.
   */
  lemma ForwardSucceeds(c: Catalog)
    requires Hybrid !in c.tables && AllocationViewName !in c.views
    requires LvGrpTerm in c.tables && {"termin_nr", "lv_beginn", "lv_ende"} <= c.tables[LvGrpTerm]
    requires forall i :: 0 <= i < |Ops| && Ops[i].0.CreateIndex? ==> Ops[i].0.index !in c.indexes
    ensures Run(c, Forwards(Ops)).Success?
  {
    var fw := Forwards(Ops);
    var c1 := c.(tables := c.tables[Hybrid := HybridColumns]);
    var c2 := c1.(views := c1.views[AllocationViewName := AllocationViewDef]);
    var c3 := c2.(indexes := c2.indexes[fw[2].index := IdIndex]);
    var c4 := c3.(indexes := c3.indexes[fw[3].index := RoomIndex]);
    var c5 := c4.(indexes := c4.indexes[fw[4].index := StudentIndex]);
    var c6 := c5.(indexes := c5.indexes[fw[5].index := TimerangeIndex]);
    assert Apply(c1, fw[1]) == Success(c2);
    assert Ops[2].0.CreateIndex? && Ops[3].0.CreateIndex? && Ops[4].0.CreateIndex? && Ops[5].0.CreateIndex?;
    assert Apply(c2, fw[2]) == Success(c3);
    assert Apply(c3, fw[3]) == Success(c4);
    assert Apply(c4, fw[4]) == Success(c5);
    assert Apply(c5, fw[5]) == Success(c6);
    RunThrough([c, c1, c2, c3, c4, c5, c6], fw);
  }
}
