/**
 * Migration 0031_functions: the foreign table `funktionen` and the
 * materialized view `campusonline_function` over it. Unlike the later
 * migrations it gives `RunSQL` two separate statement lists: forward drops
 * any previous view and table and creates both anew, reverse drops them.
 */
module FunctionsMigration {
  import opened Wrappers
  import opened Text
  import opened Sql
  import opened Ddl

  /** A row of `funktionen`; `funk_nr` is `numeric`. */
  datatype FunctionSource = FunctionSource(
    funkNr: Option<real>, funkBez: Option<string>, funkGruppe: Option<string>,
    funkLeiter: Option<string>, funkNameW: Option<string>, funkNameM: Option<string>)

  /** A row of `campusonline_function`. */
  datatype Function = Function(
    id: Option<int>, name: Option<string>, category: Option<string>, leader: bool,
    nameFemale: Option<string>, nameMale: Option<string>)

  /** `CASE upper(funk_leiter) WHEN 'X' THEN TRUE ELSE FALSE END`. */
  function Leader(funkLeiter: Option<string>): bool {
    CaseWhenTrue(UpperEquals(funkLeiter, "X"))
  }

  function FunctionOf(f: FunctionSource): Function {
    Function(CastInteger(f.funkNr), f.funkBez, f.funkGruppe, Leader(f.funkLeiter), f.funkNameW, f.funkNameM)
  }

  /**
   * `campusonline_function`: one row per source row, in order; the id is
   * the function number rounded to an integer, a function is led exactly
   * when its leader mark is 'X' in either case, the texts are copied.
   */
  function FunctionView(rows: seq<FunctionSource>): (r: seq<Function>)
    ensures |r| == |rows|
    ensures forall i :: 0 <= i < |rows| ==>
      (r[i].id.None? <==> rows[i].funkNr.None?) &&
      (rows[i].funkNr.Some? ==> rows[i].funkNr.value - 1.0 / 2.0 <= r[i].id.value as real <= rows[i].funkNr.value + 1.0 / 2.0)
    ensures forall i :: 0 <= i < |rows| ==> (r[i].leader <==> rows[i].funkLeiter == Some("X") || rows[i].funkLeiter == Some("x"))
    ensures forall i :: 0 <= i < |rows| ==>
      r[i].name == rows[i].funkBez && r[i].category == rows[i].funkGruppe &&
      r[i].nameFemale == rows[i].funkNameW && r[i].nameMale == rows[i].funkNameM
  {
    forall f | f in rows
      ensures Leader(f.funkLeiter) <==> f.funkLeiter == Some("X") || f.funkLeiter == Some("x")
    {
      LeaderSpec(f.funkLeiter);
    }
    seq(|rows|, i requires 0 <= i < |rows| => FunctionOf(rows[i]))
  }

  /** A function is led exactly when its leader mark is 'X' or 'x'; a NULL mark is not a leader. */
  lemma LeaderSpec(funkLeiter: Option<string>)
    ensures Leader(funkLeiter) <==> funkLeiter == Some("X") || funkLeiter == Some("x")
    ensures funkLeiter.None? ==> !Leader(funkLeiter)
  {
    if funkLeiter.Some? {
      UpperIsLetter(funkLeiter.value, 'X');
    }
  }

  /** The id is the function number rounded to the nearest integer; the texts are copied. */
  lemma FunctionRowSpec(rows: seq<FunctionSource>, i: int)
    requires 0 <= i < |rows|
    ensures var f, x := rows[i], FunctionView(rows)[i];
      (x.id.None? <==> f.funkNr.None?) &&
      (f.funkNr.Some? ==> f.funkNr.value - 1.0 / 2.0 <= x.id.value as real <= f.funkNr.value + 1.0 / 2.0) &&
      x.name == f.funkBez && x.category == f.funkGruppe && x.nameFemale == f.funkNameW && x.nameMale == f.funkNameM
  {
  }

  const Funktionen := "funktionen"
  const FunktionenColumns: set<string> := {"funk_nr", "funk_bez", "funk_gruppe", "funk_leiter", "funk_name_w", "funk_name_m"}
  const FunctionViewName := "campusonline_function"
  const FunctionViewDef := View(
    set c | c in FunktionenColumns :: (Funktionen, c),
    {"id", "name", "category", "leader", "name_female", "name_male"})

  /** The forward list: drop the old view and table if present, then create the table and the view. */
  const Forward: seq<Op> := [
    DropView(FunctionViewName), DropTable(Funktionen),
    CreateTable(Funktionen, FunktionenColumns), CreateView(FunctionViewName, FunctionViewDef)]

  /** The reverse list: drop the view, then the table. */
  const Reverse: seq<Op> := [DropView(FunctionViewName), DropTable(Funktionen)]

  /** No view other than the function view reads `funktionen`. */
  predicate OnlyFunctionViewReads(c: Catalog) {
    forall v, r :: v in c.views && v != FunctionViewName && r in c.views[v].sources ==> r.0 != Funktionen
  }

  /** The catalog after forward: the table and view as defined here, and no index on the view. */
  function Migrated(c: Catalog): (d: Catalog)
    ensures d.tables.Keys == c.tables.Keys + {Funktionen} && d.views.Keys == c.views.Keys + {FunctionViewName}
  {
    Catalog(c.tables[Funktionen := FunktionenColumns], c.views[FunctionViewName := FunctionViewDef], IndexesWithout(c.indexes, FunctionViewName))
  }

  /** The catalog after reverse: neither the table nor the view nor an index on it. */
  function Removed(c: Catalog): (d: Catalog)
    ensures Funktionen !in d.tables && FunctionViewName !in d.views
    ensures forall i :: i in d.indexes ==> d.indexes[i].view != FunctionViewName
  {
    Catalog(c.tables - {Funktionen}, c.views - {FunctionViewName}, IndexesWithout(c.indexes, FunctionViewName))
  }

  /**
   * When no other view reads `funktionen`, forward succeeds whether or not
   * the view and table existed before, and yields the migrated catalog.
   */
  lemma ForwardSucceeds(c: Catalog)
    requires Consistent(c) && OnlyFunctionViewReads(c)
    ensures Run(c, Forward) == Success(Migrated(c))
  {
    var c1 := if FunctionViewName in c.views then c.(views := c.views - {FunctionViewName}, indexes := IndexesWithout(c.indexes, FunctionViewName)) else c;
    assert c1.indexes == IndexesWithout(c.indexes, FunctionViewName);
    assert !TableInUse(c1, Funktionen);
    var c2 := c1.(tables := c1.tables - {Funktionen});
    var c3 := c2.(tables := c2.tables[Funktionen := FunktionenColumns]);
    var c4 := c3.(views := c3.views[FunctionViewName := FunctionViewDef]);
    if Funktionen !in c1.tables {
      assert c1.tables - {Funktionen} == c1.tables;
    }
    assert Apply(c1, Forward[1]) == Success(c2);
    assert Apply(c3, Forward[3]) == Success(c4);
    assert c4.tables == c.tables[Funktionen := FunktionenColumns];
    assert c4.views == c.views[FunctionViewName := FunctionViewDef];
    RunThrough([c, c1, c2, c3, c4], Forward);
  }

  /** Forward can run again on its own result and changes nothing: it is idempotent. */
  lemma ForwardIdempotent(c: Catalog)
    requires Consistent(c) && OnlyFunctionViewReads(c)
    ensures Consistent(Migrated(c)) && OnlyFunctionViewReads(Migrated(c))
    ensures Run(Migrated(c), Forward) == Success(Migrated(c))
  {
    var d := Migrated(c);
    ForwardSucceeds(c);
    RunConsistent(c, Forward);
    assert IndexesWithout(d.indexes, FunctionViewName) == d.indexes;
    assert d.tables[Funktionen := FunktionenColumns] == d.tables;
    assert d.views[FunctionViewName := FunctionViewDef] == d.views;
    ForwardSucceeds(d);
  }

  /** Reverse drops the view before the table it reads, and so removes both after forward. */
  lemma ReverseAfterForward(c: Catalog)
    requires Consistent(c) && OnlyFunctionViewReads(c)
    ensures Run(Migrated(c), Reverse) == Success(Removed(c))
  {
    var d := Migrated(c);
    var d1 := d.(views := d.views - {FunctionViewName}, indexes := IndexesWithout(d.indexes, FunctionViewName));
    assert !TableInUse(d1, Funktionen);
    var d2 := d1.(tables := d1.tables - {Funktionen});
    assert d1.views == c.views - {FunctionViewName};
    assert IndexesWithout(d.indexes, FunctionViewName) == IndexesWithout(c.indexes, FunctionViewName);
    assert d2.tables == c.tables - {Funktionen};
    RunThrough([d, d1, d2], Reverse);
  }

  /** Dropping the table first fails while the view still reads it: the order of the reverse list is needed. */
  lemma TableFirstFails(c: Catalog)
    ensures Run(Migrated(c), [DropTable(Funktionen), DropView(FunctionViewName)]) == Failure(DependentObjects(Funktionen))
  {
    assert (Funktionen, "funk_nr") in Migrated(c).views[FunctionViewName].sources;
  }
}
