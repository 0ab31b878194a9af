/**
 * Migration 0066_country: the foreign table `laender_iso` and the
 * materialized view `campusonline_country`, which keeps only the rows whose
 * ISO 3166-1 alpha-2 and alpha-3 codes have the shape of such codes.
 */
module CountryMigration {
  import opened Wrappers
  import opened Sql
  import opened Query
  import opened Ddl

  /** A row of `laender_iso`. */
  datatype CountrySource = CountrySource(
    isoNummer: Option<string>, isoCode2: Option<string>, isoCode3: Option<string>,
    nameDe: Option<string>, nameEn: Option<string>)

  /** A row of `campusonline_country`; the filter guarantees both codes are present. */
  datatype Country = Country(alpha2: string, alpha3: string, name: Hstore)

  /** The regular expression `^[A-Z]{n}$`, matched one repetition at a time. */
  predicate MatchesLetters(s: string, n: nat)
    decreases n
  {
    if n == 0 then s == ""
    else |s| > 0 && 'A' <= s[0] <= 'Z' && MatchesLetters(s[1..], n - 1)
  }

  /** A string of exactly `n` characters, each an uppercase ASCII letter. */
  predicate UpperLetters(s: string, n: nat) {
    |s| == n && forall i :: 0 <= i < |s| ==> 'A' <= s[i] <= 'Z'
  }

  /** The anchored pattern accepts exactly the strings of `n` uppercase letters. */
  lemma {:induction false} MatchesLettersSpec(s: string, n: nat)
    ensures MatchesLetters(s, n) <==> UpperLetters(s, n)
    decreases n
  {
    if n > 0 && |s| > 0 {
      MatchesLettersSpec(s[1..], n - 1);
      if UpperLetters(s, n) {
        assert forall i :: 0 <= i < |s| - 1 ==> s[1..][i] == s[i + 1];
      }
    }
  }

  /** The WHERE clause: both codes non-NULL and of the right shape. */
  predicate Kept(row: CountrySource) {
    row.isoCode2.Some? && row.isoCode3.Some? &&
    MatchesLetters(row.isoCode2.value, 2) && MatchesLetters(row.isoCode3.value, 3)
  }

  function CountryOf(row: CountrySource): Country
    requires row.isoCode2.Some? && row.isoCode3.Some?
  {
    Country(row.isoCode2.value, row.isoCode3.value, Translations(row.nameDe, row.nameEn))
  }

  /** `campusonline_country`: the kept rows, in order, each as a country. */
  function CountryView(rows: seq<CountrySource>): (r: seq<Country>)
  {
    var kept := Filter(rows, Kept);
    seq(|kept|, i requires 0 <= i < |kept| => assert kept[i] in kept; CountryOf(kept[i]))
  }

  /**
   * A country is in the view exactly when some row with both codes of the
   * right shape yields it; its name has exactly the keys de and en.
   */
  lemma CountryViewSpec(rows: seq<CountrySource>, x: Country)
    ensures x in CountryView(rows) <==> exists row :: row in rows && Kept(row) && x == CountryOf(row)
    ensures x in CountryView(rows) ==> UpperLetters(x.alpha2, 2) && UpperLetters(x.alpha3, 3) && x.name.Keys == {"de", "en"}
  {
    var kept := Filter(rows, Kept);
    if x in CountryView(rows) {
      var i :| 0 <= i < |kept| && CountryView(rows)[i] == x;
      assert kept[i] in kept;
      MatchesLettersSpec(x.alpha2, 2);
      MatchesLettersSpec(x.alpha3, 3);
    }
    if exists row :: row in rows && Kept(row) && x == CountryOf(row) {
      var row :| row in rows && Kept(row) && x == CountryOf(row);
      assert row in kept;
      var i :| 0 <= i < |kept| && kept[i] == row;
      assert CountryView(rows)[i] == x;
    }
  }

  /** A row with a NULL or malformed code never reaches the view. */
  lemma Rejected(rows: seq<CountrySource>, row: CountrySource)
    requires row.isoCode2.None? || row.isoCode3.None? || !UpperLetters(row.isoCode2.value, 2) || !UpperLetters(row.isoCode3.value, 3)
    ensures !Kept(row)
    ensures |CountryView(rows + [row])| == |CountryView(rows)|
  {
    if row.isoCode2.Some? {
      MatchesLettersSpec(row.isoCode2.value, 2);
    }
    if row.isoCode3.Some? {
      MatchesLettersSpec(row.isoCode3.value, 3);
    }
    FilterAppendOne(rows, row);
  }

  lemma {:induction false} FilterAppendOne(rows: seq<CountrySource>, row: CountrySource)
    ensures Filter(rows + [row], Kept) == Filter(rows, Kept) + (if Kept(row) then [row] else [])
  {
    if rows == [] {
      assert rows + [row] == [row];
      assert [row][1..] == [];
    } else {
      assert (rows + [row])[1..] == rows[1..] + [row];
      FilterAppendOne(rows[1..], row);
    }
  }

  /**
   * Nothing deduplicates alpha2: a source row listed twice gives two
   * countries with the same alpha2, which the model declares its primary key.
   */
  lemma DuplicateAlpha2(row: CountrySource)
    requires Kept(row)
    ensures |CountryView([row, row])| == 2
    ensures CountryView([row, row])[0].alpha2 == CountryView([row, row])[1].alpha2
  {
    FilterAll([row, row], Kept);
  }

  const LaenderIso := "laender_iso"
  const LaenderIsoColumns: set<string> := {"iso_nummer", "iso_code_2", "iso_code_3", "name_de", "name_en"}
  const CountryViewName := "campusonline_country"
  const CountryViewDef := View(
    {(LaenderIso, "iso_code_2"), (LaenderIso, "iso_code_3"), (LaenderIso, "name_de"), (LaenderIso, "name_en")},
    {"alpha2", "alpha3", "name"})

  /** The migration's `ops`: the table, then the view over it. */
  const Ops: seq<(Op, Op)> := [
    (CreateTable(LaenderIso, LaenderIsoColumns), DropTable(LaenderIso)),
    (CreateView(CountryViewName, CountryViewDef), DropView(CountryViewName))]

  /** On a catalog without the table and the view, forward creates the table and then the view. */
  lemma ForwardSucceeds(c: Catalog)
    requires LaenderIso !in c.tables && CountryViewName !in c.views
    ensures Run(c, Forwards(Ops)) == Success(Catalog(c.tables[LaenderIso := LaenderIsoColumns], c.views[CountryViewName := CountryViewDef], c.indexes))
  {
    var c1 := c.(tables := c.tables[LaenderIso := LaenderIsoColumns]);
    var c2 := c1.(views := c1.views[CountryViewName := CountryViewDef]);
    assert Apply(c1, Forwards(Ops)[1]) == Success(c2);
    RunThrough([c, c1, c2], Forwards(Ops));
  }

  /** Reverse drops the view and then the table; after a successful forward run it restores the catalog. */
  lemma ReverseRestores(c: Catalog)
    requires Consistent(c) && Run(c, Forwards(Ops)).Success?
    ensures Reverses(Ops) == [DropView(CountryViewName), DropTable(LaenderIso)]
    ensures Run(Run(c, Forwards(Ops)).value, Reverses(Ops)) == Success(c)
  {
    CreationsUndone(c, Ops);
    RoundTrip(c, Ops);
  }

  /** Dropping the table while the view still reads it fails: the view must go first. */
  lemma TableFirstFails(c: Catalog)
    requires LaenderIso !in c.tables && CountryViewName !in c.views
    ensures Run(c, Forwards(Ops)).Success?
    ensures Apply(Run(c, Forwards(Ops)).value, DropTable(LaenderIso)) == Failure(DependentObjects(LaenderIso))
  {
    ForwardSucceeds(c);
    var d := Run(c, Forwards(Ops)).value;
    assert (LaenderIso, "iso_code_2") in d.views[CountryViewName].sources;
  }
}
