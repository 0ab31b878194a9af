/**
 * The schema objects the migrations create and drop (foreign tables with
 * their columns, materialized views with the columns they read, indexes on
 * views), the DDL statements as operations on them with PostgreSQL's
 * error cases, and Django's `RunSQL` over a list of statements. The
 * migrations share one pattern: a list of (forward, reverse) pairs whose
 * forward halves run in order and whose reverse halves run last to first.
 */
module Ddl {
  import opened Wrappers

  /** A materialized view: the (table, column) pairs it reads and the columns it has. */
  datatype View = View(sources: set<(string, string)>, columns: set<string>)

  /** The (table, column) pairs a view reads from one table. */
  function Reads(table: string, columns: set<string>): (r: set<(string, string)>)
    ensures forall t, c :: (t, c) in r <==> t == table && c in columns
  {
    set c | c in columns :: (table, c)
  }

  /** An index on a view's columns. */
  datatype Index = Index(view: string, columns: seq<string>, unique: bool)

  /**
   * The catalog: foreign tables by name with their columns, materialized
   * views and indexes by name. Unquoted identifiers are folded to lower
   * case, so every name here is lower case.
   */
  datatype Catalog = Catalog(tables: map<string, set<string>>, views: map<string, View>, indexes: map<string, Index>)

  /** Every view reads existing columns and every index is on existing columns of an existing view. */
  predicate Consistent(c: Catalog) {
    (forall v, r :: v in c.views && r in c.views[v].sources ==> r.0 in c.tables && r.1 in c.tables[r.0]) &&
    (forall i :: i in c.indexes ==> IndexFits(c.views, c.indexes[i]))
  }

  /** An index is on an existing view and on columns that view has. */
  predicate IndexFits(views: map<string, View>, ix: Index) {
    ix.view in views && forall k :: 0 <= k < |ix.columns| ==> ix.columns[k] in views[ix.view].columns
  }

  /** One SQL statement. The `Drop…` forms other than `DropColumn` carry `IF EXISTS`. */
  datatype Op =
    | CreateTable(table: string, columns: set<string>)
    | DropTable(table: string)
    | AddColumn(table: string, column: string)
    | DropColumn(table: string, column: string)
    | CreateView(view: string, definition: View)
    | DropView(view: string)
    | CreateIndex(index: string, spec: Index)
    | DropIndex(index: string)

  datatype DdlError =
    | AlreadyExists(name: string)
    | Missing(name: string)
    | DependentObjects(name: string)

  /** Some view reads a column of `table`. */
  predicate TableInUse(c: Catalog, table: string) {
    exists v, r :: v in c.views && r in c.views[v].sources && r.0 == table
  }

  /** Every index of `c` except those on `view`, which PostgreSQL drops with it. */
  function IndexesWithout(indexes: map<string, Index>, view: string): (r: map<string, Index>)
    ensures forall i :: i in r <==> i in indexes && indexes[i].view != view
    ensures forall i :: i in r ==> r[i] == indexes[i]
  {
    map i | i in indexes && indexes[i].view != view :: indexes[i]
  }

  /** What a statement does to the catalog, or the error PostgreSQL raises. */
  function Apply(c: Catalog, op: Op): Result<Catalog, DdlError> {
    match op
    case CreateTable(t, cols) =>
      if t in c.tables then Failure(AlreadyExists(t)) else Success(c.(tables := c.tables[t := cols]))
    case DropTable(t) =>
      if t !in c.tables then Success(c)
      else if TableInUse(c, t) then Failure(DependentObjects(t))
      else Success(c.(tables := c.tables - {t}))
    case AddColumn(t, col) =>
      if t !in c.tables then Failure(Missing(t))
      else if col in c.tables[t] then Failure(AlreadyExists(col))
      else Success(c.(tables := c.tables[t := c.tables[t] + {col}]))
    case DropColumn(t, col) =>
      if t !in c.tables then Failure(Missing(t))
      else if col !in c.tables[t] then Failure(Missing(col))
      else if exists v :: v in c.views && (t, col) in c.views[v].sources then Failure(DependentObjects(col))
      else Success(c.(tables := c.tables[t := c.tables[t] - {col}]))
    case CreateView(v, definition) =>
      if v in c.views then Failure(AlreadyExists(v))
      else if !(forall r :: r in definition.sources ==> r.0 in c.tables && r.1 in c.tables[r.0]) then Failure(Missing(v))
      else Success(c.(views := c.views[v := definition]))
    case DropView(v) =>
      if v !in c.views then Success(c)
      else Success(c.(views := c.views - {v}, indexes := IndexesWithout(c.indexes, v)))
    case CreateIndex(i, ix) =>
      if i in c.indexes then Failure(AlreadyExists(i))
      else if !IndexFits(c.views, ix) then Failure(Missing(ix.view))
      else Success(c.(indexes := c.indexes[i := ix]))
    case DropIndex(i) =>
      if i !in c.indexes then Success(c) else Success(c.(indexes := c.indexes - {i}))
  }

  /** A successful statement keeps the catalog consistent. */
  lemma ApplyConsistent(c: Catalog, op: Op)
    requires Consistent(c) && Apply(c, op).Success?
    ensures Consistent(Apply(c, op).value)
  {
  }

  /** `RunSQL` with a list: the statements in order, stopping at the first error. */
  function Run(c: Catalog, ops: seq<Op>): Result<Catalog, DdlError>
    decreases |ops|
  {
    if ops == [] then Success(c)
    else match Apply(c, ops[0])
      case Success(d) => Run(d, ops[1..])
      case Failure(e) => Failure(e)
  }

  /** A successful run keeps the catalog consistent. */
  lemma {:induction false} RunConsistent(c: Catalog, ops: seq<Op>)
    requires Consistent(c) && Run(c, ops).Success?
    ensures Consistent(Run(c, ops).value)
    decreases |ops|
  {
    if ops != [] {
      ApplyConsistent(c, ops[0]);
      RunConsistent(Apply(c, ops[0]).value, ops[1..]);
    }
  }

  /** A run through given intermediate catalogs: each statement takes one to the next. */
  lemma {:induction false} RunThrough(cs: seq<Catalog>, ops: seq<Op>)
    requires |cs| == |ops| + 1
    requires forall i :: 0 <= i < |ops| ==> Apply(cs[i], ops[i]) == Success(cs[i + 1])
    ensures Run(cs[0], ops) == Success(cs[|ops|])
    decreases |ops|
  {
    if ops != [] {
      RunThrough(cs[1..], ops[1..]);
    }
  }

  /** Running two lists one after the other is running their concatenation. */
  lemma {:induction false} RunAppend(c: Catalog, a: seq<Op>, b: seq<Op>)
    ensures Run(c, a + b) == match Run(c, a) case Success(d) => Run(d, b) case Failure(e) => Failure(e)
    decreases |a|
  {
    if a == [] {
      assert a + b == b;
    } else {
      assert (a + b)[0] == a[0] && (a + b)[1..] == a[1..] + b;
      if Apply(c, a[0]).Success? {
        RunAppend(Apply(c, a[0]).value, a[1..], b);
      }
    }
  }

  /** `[forward for forward, reverse in ops]`. */
  function Forwards(pairs: seq<(Op, Op)>): (r: seq<Op>)
    ensures |r| == |pairs| && forall i :: 0 <= i < |pairs| ==> r[i] == pairs[i].0
  {
    seq(|pairs|, i requires 0 <= i < |pairs| => pairs[i].0)
  }

  /** `[reverse for forward, reverse in reversed(ops)]`. */
  function Reverses(pairs: seq<(Op, Op)>): (r: seq<Op>)
    ensures |r| == |pairs| && forall i :: 0 <= i < |pairs| ==> r[i] == pairs[|pairs| - 1 - i].1
  {
    seq(|pairs|, i requires 0 <= i < |pairs| => pairs[|pairs| - 1 - i].1)
  }

  /**
   * Along the forward run from `c`, each reverse half undoes its forward
   * half: from the catalog the forward statement produced it restores the
   * one before.
   */
  predicate UndoesAlong(c: Catalog, pairs: seq<(Op, Op)>)
    decreases |pairs|
  {
    pairs == [] ||
    match Apply(c, pairs[0].0)
    case Success(d) => Apply(d, pairs[0].1) == Success(c) && UndoesAlong(d, pairs[1..])
    case Failure(_) => true
  }

  /**
   * If every reverse half undoes its forward half, the composed reverse
   * undoes the composed forward: after a successful forward run, the
   * reverse run restores the original catalog.
   */
  lemma {:induction false} RoundTrip(c: Catalog, pairs: seq<(Op, Op)>)
    requires UndoesAlong(c, pairs) && Run(c, Forwards(pairs)).Success?
    ensures Run(Run(c, Forwards(pairs)).value, Reverses(pairs)) == Success(c)
    decreases |pairs|
  {
    if pairs != [] {
      var d := Apply(c, pairs[0].0).value;
      var rest := pairs[1..];
      assert Forwards(pairs)[1..] == Forwards(rest);
      RoundTrip(d, rest);
      var e := Run(c, Forwards(pairs)).value;
      assert Reverses(pairs) == Reverses(rest) + [pairs[0].1];
      RunAppend(e, Reverses(rest), [pairs[0].1]);
    }
  }

  /** The forward half of `p` takes `a` to `b`, and its reverse half takes `b` back to `a`. */
  predicate StepUndone(a: Catalog, p: (Op, Op), b: Catalog) {
    Apply(a, p.0) == Success(b) && Apply(b, p.1) == Success(a)
  }

  /** Forward runs `pairs` from `a` to `b`, and each reverse half undoes its forward half along the way. */
  predicate UndoneSegment(a: Catalog, pairs: seq<(Op, Op)>, b: Catalog) {
    Run(a, Forwards(pairs)) == Success(b) && UndoesAlong(a, pairs)
  }

  /** Two consecutive undone segments of a list of pairs make one. */
  lemma {:induction false} SegmentsJoin(a: Catalog, pairs: seq<(Op, Op)>, i: nat, j: nat, k: nat, b: Catalog, c: Catalog)
    requires i <= j <= k <= |pairs|
    requires UndoneSegment(a, pairs[i..j], b) && UndoneSegment(b, pairs[j..k], c)
    ensures UndoneSegment(a, pairs[i..k], c)
    decreases j - i
  {
    if i < j {
      var d := Apply(a, pairs[i].0).value;
      assert pairs[i..j][0] == pairs[i] && pairs[i..j][1..] == pairs[i + 1..j];
      assert pairs[i..k][0] == pairs[i] && pairs[i..k][1..] == pairs[i + 1..k];
      assert Forwards(pairs[i..j])[1..] == Forwards(pairs[i + 1..j]);
      assert Forwards(pairs[i..k])[1..] == Forwards(pairs[i + 1..k]);
      SegmentsJoin(d, pairs, i + 1, j, k, b, c);
    }
  }

  /** Undone segments run one after the other make one over the concatenated pairs. */
  lemma SegmentsAppend(a: Catalog, p: seq<(Op, Op)>, q: seq<(Op, Op)>, b: Catalog, c: Catalog)
    requires UndoneSegment(a, p, b) && UndoneSegment(b, q, c)
    ensures UndoneSegment(a, p + q, c)
  {
    var s := p + q;
    assert s[0..|p|] == p && s[|p|..|s|] == q && s[0..|s|] == s;
    SegmentsJoin(a, s, 0, |p|, |s|, b, c);
  }

  /**
   * Pairs that step through given catalogs, each forward half taking one
   * catalog to the next and each reverse half taking it back, run forward
   * to the last catalog and undo along the way.
   */
  lemma {:induction false} UndoesThrough(cs: seq<Catalog>, pairs: seq<(Op, Op)>)
    requires |cs| == |pairs| + 1
    requires forall i :: 0 <= i < |pairs| ==> StepUndone(cs[i], pairs[i], cs[i + 1])
    ensures UndoneSegment(cs[0], pairs, cs[|pairs|])
    decreases |pairs|
  {
    if pairs != [] {
      UndoesThrough(cs[1..], pairs[1..]);
      assert Forwards(pairs)[1..] == Forwards(pairs[1..]);
    } else {
      assert Forwards(pairs) == [];
    }
  }

  /** Two pairs stepping through three catalogs. */
  lemma TwoSteps(a: Catalog, b: Catalog, c: Catalog, p: (Op, Op), q: (Op, Op))
    requires StepUndone(a, p, b) && StepUndone(b, q, c)
    ensures UndoneSegment(a, [p, q], c)
  {
    var cs := [a, b, c];
    forall i | 0 <= i < 2 ensures StepUndone(cs[i], [p, q][i], cs[i + 1]) {
      if i == 0 {} else {}
    }
    UndoesThrough(cs, [p, q]);
  }

  /** Three pairs stepping through four catalogs. */
  lemma ThreeSteps(a: Catalog, b: Catalog, c: Catalog, d: Catalog, p: (Op, Op), q: (Op, Op), r: (Op, Op))
    requires StepUndone(a, p, b) && StepUndone(b, q, c) && StepUndone(c, r, d)
    ensures UndoneSegment(a, [p, q, r], d)
  {
    var cs := [a, b, c, d];
    forall i | 0 <= i < 3 ensures StepUndone(cs[i], [p, q, r][i], cs[i + 1]) {
      if i == 0 {} else if i == 1 {} else {}
    }
    UndoesThrough(cs, [p, q, r]);
  }

  /** Three existing indexes dropped one after the other, each drop undone by recreating the index. */
  lemma DropThreeIndexes(a: Catalog, n1: string, n2: string, n3: string)
    requires Consistent(a) && n1 in a.indexes && n2 in a.indexes && n3 in a.indexes
    requires n1 != n2 && n1 != n3 && n2 != n3
    ensures var b := a.(indexes := a.indexes - {n1} - {n2} - {n3});
      UndoneSegment(a, [(DropIndex(n1), CreateIndex(n1, a.indexes[n1])), (DropIndex(n2), CreateIndex(n2, a.indexes[n2])),
                        (DropIndex(n3), CreateIndex(n3, a.indexes[n3]))], b) && Consistent(b)
  {
    var a1 := a.(indexes := a.indexes - {n1});
    var a2 := a1.(indexes := a1.indexes - {n2});
    DropIndexStep(a, n1);
    DropIndexStep(a1, n2);
    DropIndexStep(a2, n3);
    ThreeSteps(a, a1, a2, a2.(indexes := a2.indexes - {n3}), (DropIndex(n1), CreateIndex(n1, a.indexes[n1])),
      (DropIndex(n2), CreateIndex(n2, a.indexes[n2])), (DropIndex(n3), CreateIndex(n3, a.indexes[n3])));
  }

  /** Three new indexes created one after the other, each undone by dropping it. */
  lemma CreateThreeIndexes(a: Catalog, n1: string, i1: Index, n2: string, i2: Index, n3: string, i3: Index)
    requires Consistent(a) && n1 !in a.indexes && n2 !in a.indexes && n3 !in a.indexes
    requires n1 != n2 && n1 != n3 && n2 != n3
    requires IndexFits(a.views, i1) && IndexFits(a.views, i2) && IndexFits(a.views, i3)
    ensures var b := a.(indexes := a.indexes[n1 := i1][n2 := i2][n3 := i3]);
      UndoneSegment(a, [(CreateIndex(n1, i1), DropIndex(n1)), (CreateIndex(n2, i2), DropIndex(n2)), (CreateIndex(n3, i3), DropIndex(n3))], b) &&
      Consistent(b)
  {
    var a1 := a.(indexes := a.indexes[n1 := i1]);
    var a2 := a1.(indexes := a1.indexes[n2 := i2]);
    CreateIndexStep(a, n1, i1);
    CreateIndexStep(a1, n2, i2);
    CreateIndexStep(a2, n3, i3);
    ThreeSteps(a, a1, a2, a2.(indexes := a2.indexes[n3 := i3]), (CreateIndex(n1, i1), DropIndex(n1)),
      (CreateIndex(n2, i2), DropIndex(n2)), (CreateIndex(n3, i3), DropIndex(n3)));
  }

  /** A key removed and then set again ends as if only set. */
  lemma RemoveThenSet<K, V>(m: map<K, V>, k: K, v: V)
    ensures (m - {k})[k := v] == m[k := v]
  {
    assert ((m - {k})[k := v]).Keys == m[k := v].Keys;
  }

  /** A pair whose forward half creates an object and whose reverse half drops that same object. */
  predicate CreationPair(p: (Op, Op)) {
    match p.0
    case CreateTable(t, _) => p.1 == DropTable(t)
    case AddColumn(t, col) => p.1 == DropColumn(t, col)
    case CreateView(v, _) => p.1 == DropView(v)
    case CreateIndex(i, _) => p.1 == DropIndex(i)
    case _ => false
  }

  /** Dropping what a successful creation made gives back the catalog before it. */
  lemma CreationUndone(c: Catalog, p: (Op, Op))
    requires Consistent(c) && CreationPair(p) && Apply(c, p.0).Success?
    ensures Apply(Apply(c, p.0).value, p.1) == Success(c)
  {
    var d := Apply(c, p.0).value;
    match p.0
    case CreateTable(t, _) =>
      assert !TableInUse(d, t);
      assert d.tables - {t} == c.tables;
    case AddColumn(t, col) =>
      assert c.tables[t] + {col} - {col} == c.tables[t];
      assert d.tables[t := d.tables[t] - {col}] == c.tables;
    case CreateView(v, _) =>
      assert d.views - {v} == c.views;
      assert IndexesWithout(d.indexes, v) == c.indexes;
    case CreateIndex(i, _) =>
      assert d.indexes - {i} == c.indexes;
  }

  /** A list of creation pairs undoes along any run from a consistent catalog. */
  lemma {:induction false} CreationsUndone(c: Catalog, pairs: seq<(Op, Op)>)
    requires Consistent(c) && forall i :: 0 <= i < |pairs| ==> CreationPair(pairs[i])
    ensures UndoesAlong(c, pairs)
    decreases |pairs|
  {
    if pairs != [] && Apply(c, pairs[0].0).Success? {
      CreationUndone(c, pairs[0]);
      ApplyConsistent(c, pairs[0].0);
      CreationsUndone(Apply(c, pairs[0].0).value, pairs[1..]);
    }
  }

  /** Dropping an existing index, and recreating it with its definition. */
  lemma DropIndexStep(c: Catalog, i: string)
    requires Consistent(c) && i in c.indexes
    ensures StepUndone(c, (DropIndex(i), CreateIndex(i, c.indexes[i])), c.(indexes := c.indexes - {i}))
    ensures Consistent(c.(indexes := c.indexes - {i}))
  {
    var d := c.(indexes := c.indexes - {i});
    assert d.indexes[i := c.indexes[i]] == c.indexes;
  }

  /** Creating an index under a fresh name, and dropping it again. */
  lemma CreateIndexStep(c: Catalog, i: string, ix: Index)
    requires Consistent(c) && i !in c.indexes && IndexFits(c.views, ix)
    ensures StepUndone(c, (CreateIndex(i, ix), DropIndex(i)), c.(indexes := c.indexes[i := ix]))
    ensures Consistent(c.(indexes := c.indexes[i := ix]))
  {
    var d := c.(indexes := c.indexes[i := ix]);
    assert d.indexes - {i} == c.indexes;
  }

  /** Dropping a view no index depends on, and recreating it with its definition. */
  lemma DropViewStep(c: Catalog, v: string)
    requires Consistent(c) && v in c.views && forall i :: i in c.indexes ==> c.indexes[i].view != v
    ensures StepUndone(c, (DropView(v), CreateView(v, c.views[v])), c.(views := c.views - {v}))
    ensures Consistent(c.(views := c.views - {v}))
  {
    var d := c.(views := c.views - {v});
    assert IndexesWithout(c.indexes, v) == c.indexes;
    assert d.views[v := c.views[v]] == c.views;
  }

  /** Creating a view under a fresh name over existing columns, and dropping it again. */
  lemma CreateViewStep(c: Catalog, v: string, definition: View)
    requires Consistent(c) && v !in c.views
    requires forall r :: r in definition.sources ==> r.0 in c.tables && r.1 in c.tables[r.0]
    ensures StepUndone(c, (CreateView(v, definition), DropView(v)), c.(views := c.views[v := definition]))
    ensures Consistent(c.(views := c.views[v := definition]))
  {
    var d := c.(views := c.views[v := definition]);
    assert d.views - {v} == c.views;
    assert IndexesWithout(d.indexes, v) == c.indexes;
  }

  /** Dropping a column no view reads, and adding it back. */
  lemma DropColumnStep(c: Catalog, t: string, col: string)
    requires Consistent(c) && t in c.tables && col in c.tables[t]
    requires forall v :: v in c.views ==> (t, col) !in c.views[v].sources
    ensures StepUndone(c, (DropColumn(t, col), AddColumn(t, col)), c.(tables := c.tables[t := c.tables[t] - {col}]))
    ensures Consistent(c.(tables := c.tables[t := c.tables[t] - {col}]))
  {
    var d := c.(tables := c.tables[t := c.tables[t] - {col}]);
    assert c.tables[t] - {col} + {col} == c.tables[t];
    assert d.tables[t := d.tables[t] + {col}] == c.tables;
  }

  /** Adding a new column to an existing table, and dropping it again. */
  lemma AddColumnStep(c: Catalog, t: string, col: string)
    requires Consistent(c) && t in c.tables && col !in c.tables[t]
    ensures StepUndone(c, (AddColumn(t, col), DropColumn(t, col)), c.(tables := c.tables[t := c.tables[t] + {col}]))
    ensures Consistent(c.(tables := c.tables[t := c.tables[t] + {col}]))
  {
    var d := c.(tables := c.tables[t := c.tables[t] + {col}]);
    assert c.tables[t] + {col} - {col} == c.tables[t];
    assert d.tables[t := d.tables[t] - {col}] == c.tables;
  }
}
