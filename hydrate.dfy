/**
 * `XMLTasks.hydrate`: the Linz exchange document is built from the flat
 * tables `linz.stpl`, `linz.fach`, `linz.ghk`, `linz.lv` and `linz.pv`.
 * Each STPL row gets the FACH rows that agree with it on the study-plan
 * keys, each FACH row the GHK rows that agree with it on those keys and
 * KENNUNG; LV and PV rows become flat lists. A column is copied onto the
 * data class only when the class has an attribute of that name and the
 * value is truthy. The rendered body is cached and returned.
 */
module XmlTasks {
  import opened Wrappers
  import opened Text
  import opened Query
  import opened Linz
  import opened Caches

  /** `CAMPUSONLINE_XML_CACHE_KEY`'s default. */
  const XmlCacheKey := "campusonlineXML"

  /** A row as `fetchdict` returns it: column name to value. */
  type Row = map<string, Value>

  /** A query result: the column names of the cursor description and the tuples. */
  datatype Table = Table(columns: seq<string>, tuples: seq<seq<Value>>)

  /** The five tables the Celery task reads. */
  datatype Db = Db(stpl: Table, fach: Table, ghk: Table, lv: Table, pv: Table)

  /** `dict(zip(columns, values))`: pairs up to the shorter length; a repeated column keeps its later value. */
  function Zip(columns: seq<string>, values: seq<Value>): (r: Row)
    ensures forall c :: c in r <==> exists i :: 0 <= i < |columns| && i < |values| && columns[i] == c
    decreases |columns|
  {
    if columns == [] || values == [] then map[]
    else
      var rest := Zip(columns[1..], values[1..]);
      if columns[0] in rest then rest else rest[columns[0] := values[0]]
  }

  /** `fetchdict(cursor)`: every tuple as a row. */
  function FetchDict(t: Table): (r: seq<Row>)
    ensures |r| == |t.tuples|
  {
    seq(|t.tuples|, i requires 0 <= i < |t.tuples| => Zip(t.columns, t.tuples[i]))
  }

  /** With one value per column, a row has exactly the table's columns, and a column appearing once maps to its value. */
  lemma {:induction false} ZipLookup(columns: seq<string>, values: seq<Value>, i: nat)
    requires |values| == |columns| && i < |columns|
    requires forall j :: 0 <= j < |columns| && j != i ==> columns[j] != columns[i]
    ensures columns[i] in Zip(columns, values) && Zip(columns, values)[columns[i]] == values[i]
  {
    if i > 0 {
      ZipLookup(columns[1..], values[1..], i - 1);
    } else {
      var rest := Zip(columns[1..], values[1..]);
      assert columns[0] !in rest;
    }
  }

  /** The conditions of a lookup query: `" AND ".join(f"{name}=%s" for name in keys)`. */
  function Conditions(keys: seq<string>): string {
    Join(seq(|keys|, i requires 0 <= i < |keys| => keys[i] + "=%s"), " AND ")
  }

  /** The value of column `c`, or NULL when the row has no such column. */
  function Get(row: Row, c: string): Value {
    if c in row then row[c] else Null
  }

  /**
   * The parameter list of a lookup query: `[row[key.lower()] for key in
   * keys]`. A missing column would raise `KeyError`; it reads as NULL here,
   * which matches nothing, and `WellFormed` rules it out.
   */
  function Params(row: Row, keys: seq<string>): (r: seq<Value>)
    ensures |r| == |keys|
    ensures forall i :: 0 <= i < |keys| && Lower(keys[i]) in row ==> r[i] == row[Lower(keys[i])]
  {
    seq(|keys|, i requires 0 <= i < |keys| => Get(row, Lower(keys[i])))
  }

  /** SQL `a = b`: true only when neither side is NULL and they are equal. */
  predicate SqlEquals(a: Value, b: Value) {
    a != Null && b != Null && a == b
  }

  /**
   * A row satisfies the WHERE clause `Conditions(keys)` with parameters
   * `params`: PostgreSQL folds the unquoted names to lower case, and the
   * i-th placeholder takes the i-th parameter.
   */
  predicate WhereHolds(row: Row, keys: seq<string>, params: seq<Value>)
    requires |params| == |keys|
  {
    forall i :: 0 <= i < |keys| ==> Lower(keys[i]) in row && SqlEquals(row[Lower(keys[i])], params[i])
  }

  /**
   * Since conditions and parameters are built from the same iteration of
   * the key set, the WHERE clause compares each key column of the
   * candidate with the same column of the outer row, whatever that order.
   */
  lemma WhereHoldsPairsKeys(row: Row, outer: Row, keys: seq<string>)
    ensures WhereHolds(row, keys, Params(outer, keys)) <==>
      forall k :: k in keys ==> Lower(k) in row && SqlEquals(row[Lower(k)], Get(outer, Lower(k)))
  {
    if forall k :: k in keys ==> Lower(k) in row && SqlEquals(row[Lower(k)], Get(outer, Lower(k))) {
      forall i | 0 <= i < |keys| ensures Lower(keys[i]) in row && SqlEquals(row[Lower(keys[i])], Params(outer, keys)[i]) {
        assert keys[i] in keys;
      }
    }
  }

  /** `SELECT * FROM table WHERE Conditions(keys)` with `params`, in table order. */
  function Select(t: Table, keys: seq<string>, params: seq<Value>): (r: seq<Row>)
    requires |params| == |keys|
    ensures forall row :: row in r <==> row in FetchDict(t) && WhereHolds(row, keys, params)
  {
    Filter(FetchDict(t), (row: Row) => WhereHolds(row, keys, params))
  }

  /** The attribute names of a data class, in declaration order; `hasattr` is membership in it. */
  function NameList(fields: seq<Field>): (r: seq<string>)
    ensures |r| == |fields| && forall i :: 0 <= i < |fields| ==> r[i] == fields[i].name
  {
    seq(|fields|, i requires 0 <= i < |fields| => fields[i].name)
  }

  /** `keys_FACH`, in one iteration order of the set. */
  const FachKeys: seq<string> := ["SKZ_UNI", "SKZ_KEY", "SKZKEY", "VERSION", "ABSCHNITT"]

  /** `keys_GHK = keys_FACH | {"KENNUNG"}`, in one iteration order of the set. */
  const GhkKeys: seq<string> := FachKeys + ["KENNUNG"]

  /** The columns the FACH lookup compares, as PostgreSQL names them. */
  const FachKeyColumns: seq<string> := ["skz_uni", "skz_key", "skzkey", "version", "abschnitt"]

  /** The columns the GHK lookup compares. */
  const GhkKeyColumns: seq<string> := FachKeyColumns + ["kennung"]

  lemma LowerOfLetters(s: string, t: string)
    requires |s| == |t| && forall i :: 0 <= i < |s| ==> LowerChar(s[i]) == t[i]
    ensures Lower(s) == t
  {
  }

  /** The key names lower-case to the key columns. */
  lemma KeyColumns()
    ensures |FachKeys| == |FachKeyColumns| && forall i :: 0 <= i < |FachKeys| ==> Lower(FachKeys[i]) == FachKeyColumns[i]
    ensures |GhkKeys| == |GhkKeyColumns| && forall i :: 0 <= i < |GhkKeys| ==> Lower(GhkKeys[i]) == GhkKeyColumns[i]
  {
    LowerOfLetters("SKZ_UNI", "skz_uni");
    LowerOfLetters("SKZ_KEY", "skz_key");
    LowerOfLetters("SKZKEY", "skzkey");
    LowerOfLetters("VERSION", "version");
    LowerOfLetters("ABSCHNITT", "abschnitt");
    LowerOfLetters("KENNUNG", "kennung");
  }

  /** Every name of `keys` lower-cases to a column of `t`. */
  predicate HasKeyColumns(t: Table, keys: seq<string>) {
    forall i :: 0 <= i < |keys| ==> Lower(keys[i]) in t.columns
  }

  /** Column names as PostgreSQL reports unquoted identifiers: no upper-case letters. */
  predicate LowerCaseColumns(t: Table) {
    forall c, j :: c in t.columns && 0 <= j < |c| ==> !('A' <= c[j] <= 'Z')
  }

  /** Every tuple has one value per column. */
  predicate Rectangular(t: Table) {
    forall i :: 0 <= i < |t.tuples| ==> |t.tuples[i]| == |t.columns|
  }

  /**
   * The tables the Celery task can read: rectangular, lower-case column names,
   * the key columns the lookups use on both sides of each join, and no column named like a child
   * element list (`fach` on STPL, `ghk` on FACH), which `setattr` would
   * overwrite.
   */
  predicate WellFormed(db: Db) {
    Rectangular(db.stpl) && Rectangular(db.fach) && Rectangular(db.ghk) && Rectangular(db.lv) && Rectangular(db.pv) &&
    LowerCaseColumns(db.fach) && LowerCaseColumns(db.ghk) &&
    HasKeyColumns(db.stpl, FachKeys) && HasKeyColumns(db.fach, FachKeys) &&
    HasKeyColumns(db.fach, GhkKeys) && HasKeyColumns(db.ghk, GhkKeys) &&
    "fach" !in db.stpl.columns && "ghk" !in db.fach.columns
  }

  /** Rows of a rectangular table have exactly its columns. */
  lemma FetchDictColumns(t: Table)
    requires Rectangular(t)
    ensures forall row :: row in FetchDict(t) ==> forall c :: c in row <==> c in t.columns
  {
    forall row | row in FetchDict(t) ensures forall c :: c in row <==> c in t.columns {
      var i :| 0 <= i < |t.tuples| && FetchDict(t)[i] == row;
      assert |t.tuples[i]| == |t.columns|;
    }
  }

  /** The attributes `setattr` gives an instance: named columns that are attributes of the class and hold a truthy value. */
  function Copied(row: Row, names: seq<string>, attributes: seq<string>): (r: Attrs)
    ensures forall n :: n in r ==> n in attributes && Truthy(r[n])
  {
    map n | n in names && n in attributes && n in row && Truthy(row[n]) :: row[n]
  }

  /** `set(columns) - keys`, as a sequence; the order does not matter to `Copied`. */
  function Without(columns: seq<string>, keys: seq<string>): (r: seq<string>)
    ensures forall c :: c in r <==> c in columns && c !in keys
  {
    Filter(columns, (c: string) => c !in keys)
  }

  /**
   * The loop `for name in names: if hasattr(obj, name) and row[name]:
   * setattr(obj, name, row[name])` on a fresh instance.
   */
  method CopyAttributes(row: Row, names: seq<string>, attributes: seq<string>) returns (attrs: Attrs)
    requires forall n :: n in names ==> n in row
    ensures attrs == Copied(row, names, attributes)
  {
    attrs := map[];
    for i := 0 to |names|
      invariant attrs == Copied(row, names[..i], attributes)
    {
      var name := names[i];
      assert names[..i + 1] == names[..i] + [name];
      if name in attributes && Truthy(row[name]) {
        attrs := attrs[name := row[name]];
      }
    }
    assert names[..|names|] == names;
  }

  function GhkOf(db: Db, row: Row): Ghk {
    Ghk(Copied(row, Without(db.ghk.columns, GhkKeys), NameList(GhkFields)))
  }

  function LvOf(db: Db, row: Row): Lv {
    Lv(Copied(row, db.lv.columns, NameList(LvFields)))
  }

  function PvOf(db: Db, row: Row): Pv {
    Pv(Copied(row, db.pv.columns, NameList(PvFields)))
  }

  /** The GHK rows a FACH row gets. */
  function GhkRows(db: Db, fach: Row): seq<Row>
  {
    Select(db.ghk, GhkKeys, Params(fach, GhkKeys))
  }

  /** The FACH rows an STPL row gets. */
  function FachRows(db: Db, stpl: Row): seq<Row>
  {
    Select(db.fach, FachKeys, Params(stpl, FachKeys))
  }

  function GhksOf(db: Db, rows: seq<Row>): seq<Ghk> {
    seq(|rows|, k requires 0 <= k < |rows| => GhkOf(db, rows[k]))
  }

  function FachOf(db: Db, row: Row): Fach {
    Fach(GhksOf(db, GhkRows(db, row)), Copied(row, Without(db.fach.columns, FachKeys), NameList(FachFields)))
  }

  function FachsOf(db: Db, rows: seq<Row>): seq<Fach> {
    seq(|rows|, k requires 0 <= k < |rows| => FachOf(db, rows[k]))
  }

  function StplOf(db: Db, row: Row): Stpl {
    Stpl(FachsOf(db, FachRows(db, row)), Copied(row, db.stpl.columns, NameList(StplFields)))
  }

  function StplsOf(db: Db, rows: seq<Row>): (r: seq<Stpl>)
    ensures |r| == |rows|
  {
    seq(|rows|, k requires 0 <= k < |rows| => StplOf(db, rows[k]))
  }

  function LvsOf(db: Db, rows: seq<Row>): (r: seq<Lv>)
    ensures |r| == |rows|
  {
    seq(|rows|, k requires 0 <= k < |rows| => LvOf(db, rows[k]))
  }

  function PvsOf(db: Db, rows: seq<Row>): (r: seq<Pv>)
    ensures |r| == |rows|
  {
    seq(|rows|, k requires 0 <= k < |rows| => PvOf(db, rows[k]))
  }

  /** The document `hydrate` builds, before rendering. */
  function HydrateSpec(db: Db): (x: Exchange)
    ensures |x.stpl| == |db.stpl.tuples| && |x.lv| == |db.lv.tuples| && |x.pv| == |db.pv.tuples|
  {
    Exchange(StplsOf(db, FetchDict(db.stpl)), LvsOf(db, FetchDict(db.lv)), PvsOf(db, FetchDict(db.pv)))
  }

  lemma RowColumns(t: Table, row: Row)
    requires Rectangular(t) && row in FetchDict(t)
    ensures forall c :: c in row <==> c in t.columns
  {
    FetchDictColumns(t);
  }

  /** One GHK instance, built from a GHK row. */
  method BuildGhk(db: Db, row: Row) returns (g: Ghk)
    requires Rectangular(db.ghk) && row in FetchDict(db.ghk)
    ensures g == GhkOf(db, row)
  {
    RowColumns(db.ghk, row);
    var attrs := CopyAttributes(row, Without(db.ghk.columns, GhkKeys), NameList(GhkFields));
    g := Ghk(attrs);
  }

  /** The inner loop over the GHK rows of one FACH row. */
  method BuildGhks(db: Db, rows: seq<Row>) returns (ghks: seq<Ghk>)
    requires Rectangular(db.ghk) && forall r :: r in rows ==> r in FetchDict(db.ghk)
    ensures ghks == GhksOf(db, rows)
  {
    ghks := [];
    for k := 0 to |rows|
      invariant |ghks| == k
      invariant ghks == GhksOf(db, rows[..k])
    {
      var g := BuildGhk(db, rows[k]);
      assert GhksOf(db, rows[..k + 1]) == GhksOf(db, rows[..k]) + [GhkOf(db, rows[k])];
      ghks := ghks + [g];
    }
    assert rows[..|rows|] == rows;
  }

  /** One FACH instance with the GHK instances whose keys match it. */
  method BuildFach(db: Db, row: Row) returns (f: Fach)
    requires Rectangular(db.fach) && Rectangular(db.ghk) && row in FetchDict(db.fach)
    ensures f == FachOf(db, row)
  {
    RowColumns(db.fach, row);
    var attrs := CopyAttributes(row, Without(db.fach.columns, FachKeys), NameList(FachFields));
    var ghks := BuildGhks(db, GhkRows(db, row));
    f := Fach(ghks, attrs);
  }

  /** The loop over the FACH rows of one STPL row. */
  method BuildFachs(db: Db, rows: seq<Row>) returns (fachs: seq<Fach>)
    requires Rectangular(db.fach) && Rectangular(db.ghk) && forall r :: r in rows ==> r in FetchDict(db.fach)
    ensures fachs == FachsOf(db, rows)
  {
    fachs := [];
    for k := 0 to |rows|
      invariant |fachs| == k
      invariant fachs == FachsOf(db, rows[..k])
    {
      var f := BuildFach(db, rows[k]);
      assert FachsOf(db, rows[..k + 1]) == FachsOf(db, rows[..k]) + [FachOf(db, rows[k])];
      fachs := fachs + [f];
    }
    assert rows[..|rows|] == rows;
  }

  /** One STPL instance with the FACH instances whose keys match it. */
  method BuildStpl(db: Db, row: Row) returns (st: Stpl)
    requires WellFormed(db) && row in FetchDict(db.stpl)
    ensures st == StplOf(db, row)
  {
    RowColumns(db.stpl, row);
    var attrs := CopyAttributes(row, db.stpl.columns, NameList(StplFields));
    var fachs := BuildFachs(db, FachRows(db, row));
    st := Stpl(fachs, attrs);
  }

  /** The three loops of `hydrate` that build the document root. */
  method BuildExchange(db: Db) returns (root: Exchange)
    requires WellFormed(db)
    ensures root == HydrateSpec(db)
  {
    var stpls := BuildStpls(db, FetchDict(db.stpl));
    var lvs := BuildLvs(db, FetchDict(db.lv));
    var pvs := BuildPvs(db, FetchDict(db.pv));
    root := Exchange(stpls, lvs, pvs);
  }

  /** The loop over the STPL rows. */
  method BuildStpls(db: Db, rows: seq<Row>) returns (stpls: seq<Stpl>)
    requires WellFormed(db) && forall r :: r in rows ==> r in FetchDict(db.stpl)
    ensures stpls == StplsOf(db, rows)
  {
    stpls := [];
    for k := 0 to |rows|
      invariant stpls == StplsOf(db, rows[..k])
    {
      var st := BuildStpl(db, rows[k]);
      assert StplsOf(db, rows[..k + 1]) == StplsOf(db, rows[..k]) + [StplOf(db, rows[k])];
      stpls := stpls + [st];
    }
    assert rows[..|rows|] == rows;
  }

  /** The loop over the LV rows. */
  method BuildLvs(db: Db, rows: seq<Row>) returns (lvs: seq<Lv>)
    requires Rectangular(db.lv) && forall r :: r in rows ==> r in FetchDict(db.lv)
    ensures lvs == LvsOf(db, rows)
  {
    lvs := [];
    for k := 0 to |rows|
      invariant lvs == LvsOf(db, rows[..k])
    {
      RowColumns(db.lv, rows[k]);
      var attrs := CopyAttributes(rows[k], db.lv.columns, NameList(LvFields));
      assert LvsOf(db, rows[..k + 1]) == LvsOf(db, rows[..k]) + [LvOf(db, rows[k])];
      lvs := lvs + [Lv(attrs)];
    }
    assert rows[..|rows|] == rows;
  }

  /** The loop over the PV rows. */
  method BuildPvs(db: Db, rows: seq<Row>) returns (pvs: seq<Pv>)
    requires Rectangular(db.pv) && forall r :: r in rows ==> r in FetchDict(db.pv)
    ensures pvs == PvsOf(db, rows)
  {
    pvs := [];
    for k := 0 to |rows|
      invariant pvs == PvsOf(db, rows[..k])
    {
      RowColumns(db.pv, rows[k]);
      var attrs := CopyAttributes(rows[k], db.pv.columns, NameList(PvFields));
      assert PvsOf(db, rows[..k + 1]) == PvsOf(db, rows[..k]) + [PvOf(db, rows[k])];
      pvs := pvs + [Pv(attrs)];
    }
    assert rows[..|rows|] == rows;
  }

  /**
   * `hydrate`: builds the document from the tables, renders it with
   * `render` (the XML serializer), stores the body under the XML cache key
   * and returns it.
   */
  method Hydrate(db: Db, cache: Cache, render: Exchange -> string) returns (body: string)
    requires WellFormed(db)
    modifies cache
    ensures body == render(HydrateSpec(db))
    ensures cache.entries == old(cache.entries)[XmlCacheKey := CText(body)]
  {
    var root := BuildExchange(db);
    body := render(root);
    cache.Set(XmlCacheKey, CText(body));
  }

  /**
   * The copied attributes of an instance are valid for its class exactly
   * when every required attribute's column was read and holds a truthy
   * value: copying never sets a foreign name or a NULL.
   */
  lemma CopiedValid(row: Row, names: seq<string>, fields: seq<Field>)
    ensures AttrsValid(Copied(row, names, NameList(fields)), fields) <==>
      forall i :: 0 <= i < |fields| && fields[i].required ==> ReadTruthy(row, names, fields[i].name)
  {
    var attrs := Copied(row, names, NameList(fields));
    forall n | n in attrs ensures HasField(fields, n) && attrs[n] != Null {
      var i :| 0 <= i < |fields| && NameList(fields)[i] == n;
    }
  }

  lemma StplAttributesOptional()
    ensures forall i :: 0 <= i < |StplFields| ==> !StplFields[i].required
  {
  }

  /** Column `n` was read and holds a truthy value, so `setattr` ran for it. */
  predicate ReadTruthy(row: Row, names: seq<string>, n: string) {
    n in names && n in row && Truthy(row[n])
  }

  /** Copying into a class with no required attribute always gives valid attributes. */
  lemma CopiedValidNoneRequired(row: Row, names: seq<string>, fields: seq<Field>)
    requires forall i :: 0 <= i < |fields| ==> !fields[i].required
    ensures AttrsValid(Copied(row, names, NameList(fields)), fields)
  {
    CopiedValid(row, names, fields);
  }

  /** Falsy values (NULL, 0, "", a zero Decimal) leave the attribute at its default. */
  lemma FalsyNotCopied(row: Row, names: seq<string>, attributes: seq<string>, n: string)
    requires !Truthy(Get(row, n))
    ensures n !in Copied(row, names, attributes)
  {
  }

  /**
   * The STPL column `skzkey` is never copied, since the attribute is named
   * `skzkey_attribute`; that attribute is set only from a column of that
   * very name.
   */
  lemma SkzkeyNeverCopied(db: Db, row: Row)
    ensures "skzkey" !in StplOf(db, row).attrs
    ensures "skzkey_attribute" in StplOf(db, row).attrs ==> "skzkey_attribute" in db.stpl.columns
  {
    var names := NameList(StplFields);
    forall i | 0 <= i < |names| ensures names[i] != "skzkey" {
      assert names[i] == StplFields[i].name;
    }
  }

  /** Every key name contains an upper-case letter. */
  lemma KeysAreUpperCase()
    ensures forall k :: k in GhkKeys ==> 'A' <= k[1] <= 'Z'
  {
  }

  /**
   * `set(columns) - keys` removes nothing: PostgreSQL reports lower-case
   * column names and the keys are upper-case, so every column is
   * considered for copying.
   */
  lemma KeySubtractionVacuous(t: Table)
    requires LowerCaseColumns(t)
    ensures Without(t.columns, FachKeys) == t.columns && Without(t.columns, GhkKeys) == t.columns
  {
    KeysAreUpperCase();
    forall c | c in t.columns ensures c !in GhkKeys {
      if |c| > 1 {
        assert !('A' <= c[1] <= 'Z');
      }
    }
    FilterAll(t.columns, (c: string) => c !in FachKeys);
    FilterAll(t.columns, (c: string) => c !in GhkKeys);
  }

  /**
   * The iteration order of the key set does not matter: any order of the
   * same keys selects the same rows in the same order.
   */
  lemma KeyOrderIrrelevant(t: Table, keys: seq<string>, keys': seq<string>, outer: Row)
    requires forall k :: k in keys <==> k in keys'
    ensures Select(t, keys, Params(outer, keys)) == Select(t, keys', Params(outer, keys'))
  {
    forall row | row in FetchDict(t)
      ensures WhereHolds(row, keys, Params(outer, keys)) == WhereHolds(row, keys', Params(outer, keys'))
    {
      WhereHoldsPairsKeys(row, outer, keys);
      WhereHoldsPairsKeys(row, outer, keys');
    }
    FilterCongruent(FetchDict(t), (row: Row) => WhereHolds(row, keys, Params(outer, keys)),
      (row: Row) => WhereHolds(row, keys', Params(outer, keys')));
  }

  /** `row` agrees with `outer` on every column of `cols`, with no NULL on either side. */
  predicate AgreesOn(row: Row, outer: Row, cols: seq<string>) {
    forall c :: c in cols ==> c in row && SqlEquals(row[c], Get(outer, c))
  }

  /** The FACH children of an STPL row are exactly the FACH rows equal to it on the five study-plan keys. */
  lemma FachChildren(db: Db, stpl: Row, fach: Row)
    ensures fach in FachRows(db, stpl) <==> fach in FetchDict(db.fach) && AgreesOn(fach, stpl, FachKeyColumns)
  {
    KeyColumns();
    WhereHoldsPairsKeys(fach, stpl, FachKeys);
    if AgreesOn(fach, stpl, FachKeyColumns) {
      forall k | k in FachKeys ensures Lower(k) in fach && SqlEquals(fach[Lower(k)], Get(stpl, Lower(k))) {
        var i :| 0 <= i < |FachKeys| && FachKeys[i] == k;
        assert Lower(k) == FachKeyColumns[i];
      }
    }
    if fach in FachRows(db, stpl) {
      forall c | c in FachKeyColumns ensures c in fach && SqlEquals(fach[c], Get(stpl, c)) {
        var i :| 0 <= i < |FachKeyColumns| && FachKeyColumns[i] == c;
        assert FachKeys[i] in FachKeys;
      }
    }
  }

  /** The GHK children of a FACH row are exactly the GHK rows equal to it on the study-plan keys and KENNUNG. */
  lemma GhkChildren(db: Db, fach: Row, ghk: Row)
    ensures ghk in GhkRows(db, fach) <==> ghk in FetchDict(db.ghk) && AgreesOn(ghk, fach, GhkKeyColumns)
  {
    KeyColumns();
    WhereHoldsPairsKeys(ghk, fach, GhkKeys);
    if AgreesOn(ghk, fach, GhkKeyColumns) {
      forall k | k in GhkKeys ensures Lower(k) in ghk && SqlEquals(ghk[Lower(k)], Get(fach, Lower(k))) {
        var i :| 0 <= i < |GhkKeys| && GhkKeys[i] == k;
        assert Lower(k) == GhkKeyColumns[i];
      }
    }
    if ghk in GhkRows(db, fach) {
      forall c | c in GhkKeyColumns ensures c in ghk && SqlEquals(ghk[c], Get(fach, c)) {
        var i :| 0 <= i < |GhkKeyColumns| && GhkKeyColumns[i] == c;
        assert GhkKeys[i] in GhkKeys;
      }
    }
  }

  /** A GHK row under a FACH row under an STPL row agrees with the STPL row on the study-plan keys. */
  lemma GhkBelongsToStpl(db: Db, stpl: Row, fach: Row, ghk: Row)
    requires fach in FachRows(db, stpl) && ghk in GhkRows(db, fach)
    ensures AgreesOn(ghk, stpl, FachKeyColumns)
  {
    FachChildren(db, stpl, fach);
    GhkChildren(db, fach, ghk);
    forall c | c in FachKeyColumns ensures c in ghk && SqlEquals(ghk[c], Get(stpl, c)) {
      assert c in GhkKeyColumns;
    }
  }

  /** A row whose key column is NULL finds no children, since NULL equals nothing. */
  lemma NullKeyNoChildren(db: Db, stpl: Row, c: string)
    requires c in FachKeyColumns && Get(stpl, c) == Null
    ensures forall fach :: fach !in FachRows(db, stpl)
  {
    forall fach ensures fach !in FachRows(db, stpl) {
      FachChildren(db, stpl, fach);
    }
  }

  /** STPL has no required attribute, so its copied attributes are always valid. */
  lemma StplAttrsValid(row: Row, cols: seq<string>)
    ensures AttrsValid(Copied(row, cols, NameList(StplFields)), StplFields)
  {
    StplAttributesOptional();
    CopiedValidNoneRequired(row, cols, StplFields);
  }

  /**
   * An STPL instance is valid exactly when its row found at least one FACH
   * row and every FACH instance is valid.
   */
  lemma StplOfValid(db: Db, row: Row)
    ensures StplValid(StplOf(db, row)) <==>
      |FachRows(db, row)| >= 1 && forall i :: 0 <= i < |FachRows(db, row)| ==> FachValid(FachOf(db, FachRows(db, row)[i]))
  {
    var rows := FachRows(db, row);
    var st := StplOf(db, row);
    StplAttrsValid(row, db.stpl.columns);
    assert st == Stpl(FachsOf(db, rows), Copied(row, db.stpl.columns, NameList(StplFields)));
    assert |st.fach| == |rows|;
    assert forall i :: 0 <= i < |rows| ==> st.fach[i] == FachOf(db, rows[i]);
  }

  /** A GHK instance is valid exactly when TITEL, KURZBEZEICHNUNG and STP_LV_NR were read with truthy values. */
  lemma GhkOfValid(db: Db, row: Row)
    ensures GhkValid(GhkOf(db, row)) <==>
      ReadTruthy(row, db.ghk.columns, "titel") && ReadTruthy(row, db.ghk.columns, "kurzbezeichnung") &&
      ReadTruthy(row, db.ghk.columns, "stp_lv_nr")
  {
    var names := Without(db.ghk.columns, GhkKeys);
    GhkAttrsValid(row, names);
    KeysAreUpperCase();
    assert "titel" !in GhkKeys by { assert !('A' <= "titel"[1] <= 'Z'); }
    assert "kurzbezeichnung" !in GhkKeys by { assert !('A' <= "kurzbezeichnung"[1] <= 'Z'); }
    assert "stp_lv_nr" !in GhkKeys by { assert !('A' <= "stp_lv_nr"[1] <= 'Z'); }
  }

  lemma GhkAttrsValid(row: Row, names: seq<string>)
    ensures AttrsValid(Copied(row, names, NameList(GhkFields)), GhkFields) <==>
      ReadTruthy(row, names, "titel") && ReadTruthy(row, names, "kurzbezeichnung") && ReadTruthy(row, names, "stp_lv_nr")
  {
    CopiedValid(row, names, GhkFields);
    GhkRequiredPositions();
  }

  /** An STP_LV_NR of 0 is dropped like NULL, and the document it lands in is invalid. */
  lemma ZeroStpLvNrInvalid(db: Db, row: Row)
    requires Get(row, "stp_lv_nr") == Int(0)
    ensures !GhkValid(GhkOf(db, row))
  {
    GhkOfValid(db, row);
  }

  /** An STPL row without a matching FACH row makes the whole document invalid. */
  lemma StplWithoutFachInvalid(db: Db, i: nat)
    requires i < |db.stpl.tuples| && FachRows(db, FetchDict(db.stpl)[i]) == []
    ensures !ExchangeValid(HydrateSpec(db))
  {
    StplOfValid(db, FetchDict(db.stpl)[i]);
    assert !StplValid(HydrateSpec(db).stpl[i]);
  }
}
