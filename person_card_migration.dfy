/**
 * Migration 0054_person_card: the person view `campusonline_person` is
 * rebuilt with one more column, `card`, read from the new column
 * VISITENKARTE of the foreign table `personen`. The view's six indexes are
 * dropped first and recreated afterwards, together with a new index on
 * `employed`.
 *
 * The view joins every person with its private avatar rows, derives the
 * avatar `hash` from the person's number, username and avatar bytes, and
 * the `employed` flag from the column DV.
 */
module PersonCardMigration {
  import opened Wrappers
  import opened Text
  import opened Sql
  import opened Query
  import opened Ddl

  type Bytes = seq<bv8>

  /** A row of `personen`; PERS_NR and RAUM_NR are `numeric`. */
  datatype PersonSource = PersonSource(
    persNr: Option<real>, persVorname: Option<string>, persFamnam: Option<string>, persTitel: Option<string>,
    persSex: Option<string>, persBenutzername: Option<string>, persSprechstunde: Option<string>,
    persZusatzInfo: Option<string>, persProfilbild: Option<string>, persEmail: Option<string>,
    raumNr: Option<real>, telNr: Option<string>, mobilTelNr: Option<string>, dv: Option<string>,
    visitenkarte: Option<string>)

  /** A row of `personen_profilbilder_daten`: a person's private avatar bytes. */
  datatype AvatarRow = AvatarRow(personNr: Option<real>, content: Option<Bytes>)

  /** A row of the rebuilt `campusonline_person`. */
  datatype PersonRow = PersonRow(
    id: Option<int>, firstName: Option<string>, lastName: Option<string>, title: Option<string>,
    sex: Option<string>, username: Option<string>, consultation: Option<string>, appendix: Option<string>,
    avatar: Option<string>, email: Option<string>, roomId: Option<int>, avatarPrivate: Option<Bytes>,
    hash: Option<string>, phone: Option<string>, mobile: Option<string>, employed: bool, card: Option<string>)

  /**
   * The database functions the hash is built from, which the model does not
   * compute: the text of a `numeric`, the `text::bytea` cast and SHA-1
   * (section 6.1 of FIPS 180-4).
   */
  datatype Digest = Digest(numericText: real -> string, textToBytea: string -> Bytes, sha1: Bytes -> Bytes)

  /** `x::text` of a `numeric`, NULL for NULL. */
  function NumericText(d: Digest, x: Option<real>): (r: Option<string>)
    ensures r.None? <==> x.None?
  {
    match x
    case None => None
    case Some(v) => Some(d.numericText(v))
  }

  /** `format('%s-%s-', p.pers_nr, p.pers_benutzername)`. */
  function Salt(d: Digest, p: PersonSource): string {
    FormatArg(NumericText(d, p.persNr)) + "-" + FormatArg(p.persBenutzername) + "-"
  }

  /** `a || b` on `bytea`: NULL when either side is NULL. */
  function ByteaConcat(a: Option<Bytes>, b: Option<Bytes>): (r: Option<Bytes>)
    ensures r.None? <==> a.None? || b.None?
  {
    if a.None? || b.None? then None else Some(a.value + b.value)
  }

  /** `encode(digest(x, 'sha1'), 'hex')`, NULL for NULL. */
  function HexSha1(d: Digest, x: Option<Bytes>): (r: Option<string>)
    ensures r.None? <==> x.None?
  {
    match x
    case None => None
    case Some(v) => Some(HexEncode(d.sha1(v)))
  }

  /**
   * The `hash` column as written: `CASE ppd.content WHEN NULL THEN NULL ELSE
   * encode(digest(format(…)::bytea || ppd.content, 'sha1'), 'hex') END`.
   */
  function HashAsWritten(d: Digest, p: PersonSource, content: Option<Bytes>): Option<string> {
    if CaseWhenTrue(SqlEquals(content, None)) then None
    else HexSha1(d, ByteaConcat(Some(d.textToBytea(Salt(d, p))), content))
  }

  /** The `hash` column as intended: `CASE WHEN ppd.content IS NULL THEN NULL ELSE … END`. */
  function Hash(d: Digest, p: PersonSource, content: Option<Bytes>): Option<string> {
    if content.None? then None
    else Some(HexEncode(d.sha1(d.textToBytea(Salt(d, p)) + content.value)))
  }

  /** `CASE LOWER(p.dv) WHEN 'j' THEN true ELSE false END`. */
  function Employed(dv: Option<string>): bool {
    CaseWhenTrue(LowerEquals(dv, "j"))
  }

  /** `p.pers_nr::integer = ppd.person_nr::integer`. */
  predicate SamePerson(p: PersonSource, a: AvatarRow) {
    EqualsTrue(CastInteger(p.persNr), CastInteger(a.personNr))
  }

  /** One person joined with an optional avatar row; a missing row reads as NULL content. */
  function PersonOf(d: Digest, p: PersonSource, a: Option<AvatarRow>): PersonRow {
    var content := if a.Some? then a.value.content else None;
    PersonRow(CastInteger(p.persNr), p.persVorname, p.persFamnam, p.persTitel, p.persSex, p.persBenutzername,
      p.persSprechstunde, p.persZusatzInfo, p.persProfilbild, p.persEmail, CastInteger(p.raumNr), content,
      Hash(d, p, content), p.telNr, p.mobilTelNr, Employed(p.dv), p.visitenkarte)
  }

  /** `campusonline_person`: persons LEFT JOIN their avatar rows. */
  function PersonView(d: Digest, persons: seq<PersonSource>, avatars: seq<AvatarRow>): seq<PersonRow> {
    LeftJoin(persons, avatars, SamePerson, (p, a) => PersonOf(d, p, a))
  }

  /**
   * The `WHEN NULL` arm is never taken: comparing anything with NULL gives
   * NULL, not true, so every row goes to the ELSE arm.
   */
  lemma WhenNullArmDead(d: Digest, p: PersonSource, content: Option<Bytes>)
    ensures !CaseWhenTrue(SqlEquals(content, None))
    ensures HashAsWritten(d, p, content) == HexSha1(d, ByteaConcat(Some(d.textToBytea(Salt(d, p))), content))
  {
  }

  /**
   * The hash as written is still NULL exactly when there is no avatar
   * content, because `||` with NULL is NULL; so it agrees with the intended
   * `IS NULL` test on every row.
   */
  lemma HashAsWrittenAgrees(d: Digest, p: PersonSource, content: Option<Bytes>)
    ensures HashAsWritten(d, p, content).None? <==> content.None?
    ensures HashAsWritten(d, p, content) == Hash(d, p, content)
  {
    WhenNullArmDead(d, p, content);
  }

  /**
   * The hash is NULL exactly without avatar content. Otherwise it is the
   * hex text of the SHA-1 of salt and content, so two hashes are equal
   * exactly when the two digests are.
   */
  lemma HashSpec(d: Digest, p: PersonSource, q: PersonSource, c1: Option<Bytes>, c2: Option<Bytes>)
    ensures Hash(d, p, c1).None? <==> c1.None?
    ensures c1.Some? && c2.Some? ==>
      (Hash(d, p, c1) == Hash(d, q, c2) <==>
       d.sha1(d.textToBytea(Salt(d, p)) + c1.value) == d.sha1(d.textToBytea(Salt(d, q)) + c2.value))
  {
    if c1.Some? && c2.Some? {
      HexInjective(d.sha1(d.textToBytea(Salt(d, p)) + c1.value), d.sha1(d.textToBytea(Salt(d, q)) + c2.value));
    }
  }

  /** With a 20-byte SHA-1, a present hash is 40 hexadecimal digits. */
  lemma HashLength(d: Digest, p: PersonSource, content: Option<Bytes>)
    requires forall x :: |d.sha1(x)| == 20
    ensures content.Some? ==> Hash(d, p, content).Some? && |Hash(d, p, content).value| == 40
  {
  }

  /** Employed exactly for DV 'j' or 'J'; a NULL DV falls to the ELSE arm and is not employed. */
  lemma EmployedSpec(dv: Option<string>)
    ensures Employed(dv) <==> dv == Some("j") || dv == Some("J")
    ensures dv.None? ==> !Employed(dv)
  {
    if dv.Some? {
      LowerIsLetter(dv.value, 'j');
    }
  }

  /**
   * A view row copies the person's columns, casts the numbers to integers,
   * takes the avatar bytes from the joined row, and has a hash exactly when
   * those bytes are present; `card` is the new VISITENKARTE column.
   */
  lemma PersonRowSpec(d: Digest, p: PersonSource, a: Option<AvatarRow>)
    ensures var r := PersonOf(d, p, a);
      r.id == CastInteger(p.persNr) && r.roomId == CastInteger(p.raumNr) &&
      r.username == p.persBenutzername && r.email == p.persEmail && r.card == p.visitenkarte &&
      (r.avatarPrivate.Some? <==> a.Some? && a.value.content.Some?) &&
      (r.hash.Some? <==> r.avatarPrivate.Some?) &&
      (r.employed <==> p.dv == Some("j") || p.dv == Some("J"))
  {
    var content := if a.Some? then a.value.content else None;
    HashSpec(d, p, p, content, content);
    EmployedSpec(p.dv);
  }

  /**
   * Every person is in the view: one without avatar rows once, with NULL
   * avatar bytes and NULL hash; one with avatar rows once per row.
   */
  lemma PersonsKept(d: Digest, persons: seq<PersonSource>, avatars: seq<AvatarRow>, p: PersonSource)
    requires p in persons
    ensures Matches(p, avatars, SamePerson) == [] ==>
      PersonOf(d, p, None) in PersonView(d, persons, avatars) &&
      PersonOf(d, p, None).avatarPrivate.None? && PersonOf(d, p, None).hash.None?
    ensures forall a :: a in avatars && SamePerson(p, a) ==>
      PersonOf(d, p, Some(a)) in PersonView(d, persons, avatars) && PersonOf(d, p, Some(a)).avatarPrivate == a.content
  {
    LeftJoinKeepsLeft(persons, avatars, SamePerson, (p, a) => PersonOf(d, p, a), p);
  }

  /**
   * A person with two avatar rows appears twice with the same id, so the
   * unique index on `id` cannot be built over such data.
   */
  lemma TwoAvatarsDuplicateId(d: Digest, p: PersonSource, a1: AvatarRow, a2: AvatarRow)
    requires p.persNr.Some? && SamePerson(p, a1) && SamePerson(p, a2)
    ensures var v := PersonView(d, [p], [a1, a2]);
      |v| == 2 && v[0].id.Some? && v[0].id == v[1].id && !UniqueNonNull([v[0].id, v[1].id])
  {
    var project := (p, a) => PersonOf(d, p, a);
    assert [a1, a2][1..] == [a2] && [a2][1..] == [];
    FilterAll([a1, a2], b => SamePerson(p, b));
    assert Matches(p, [a1, a2], SamePerson) == [a1, a2];
    assert [p][1..] == [];
    var v := PersonView(d, [p], [a1, a2]);
    assert v == JoinRow(p, [a1, a2], SamePerson, project) + LeftJoin([], [a1, a2], SamePerson, project);
    assert v == [PersonOf(d, p, Some(a1)), PersonOf(d, p, Some(a2))];
    var ids := [v[0].id, v[1].id];
    assert ids[0] == ids[1] && ids[0].Some?;
  }

  // The schema objects, by their lower-case names.

  const Personen := "personen"
  const Avatars := "personen_profilbilder_daten"
  const PersonViewName := "campusonline_person"
  const Visitenkarte := "visitenkarte"

  const PersonenColumns: set<string> := {
    "pers_nr", "pers_vorname", "pers_famnam", "pers_titel", "pers_sex", "pers_benutzername", "pers_sprechstunde",
    "pers_zusatz_info", "pers_profilbild", "pers_email", "raum_nr", "tel_nr", "mobil_tel_nr", "dv"}
  const AvatarColumns: set<string> := {"person_nr", "content"}
  const OldPersonColumns: set<string> := {
    "id", "first_name", "last_name", "title", "sex", "username", "consultation", "appendix", "avatar", "email",
    "room_id", "avatar_private", "hash", "phone", "mobile", "employed"}

  /** The view before: without `card`. */
  const OldPersonDef := View(Reads(Personen, PersonenColumns) + Reads(Avatars, AvatarColumns), OldPersonColumns)

  /** The view after: `card` read from VISITENKARTE. */
  const NewPersonDef := View(Reads(Personen, PersonenColumns + {Visitenkarte}) + Reads(Avatars, AvatarColumns), OldPersonColumns + {"card"})

  const LastNameIdx := "campusonline_person_last_name_idx"
  const FirstNameIdx := "campusonline_person_first_name_idx"
  const SexIdx := "campusonline_person_sex_idx"
  const HashIdx := "campusonline_person_hash_idx"
  const EmailIdx := "campusonline_person_email_idx"
  const IdIdx := "campusonline_person_id_idx"
  const EmployedIdx := "campusonline_person_employed_idx"

  /** The index names differ in length, hence from one another. */
  lemma IndexNameLengths()
    ensures |LastNameIdx| == 33 && |FirstNameIdx| == 34 && |SexIdx| == 27 && |HashIdx| == 28
    ensures |EmailIdx| == 29 && |IdIdx| == 26 && |EmployedIdx| == 32
  {
  }

  /** An index on one column of the person view. */
  function On(column: string, unique: bool): Index {
    Index(PersonViewName, [column], unique)
  }

  /** Dropping an index of the person view, undone by creating it again. */
  function DropIndexPair(name: string, column: string, unique: bool): (Op, Op) {
    (DropIndex(name), CreateIndex(name, On(column, unique)))
  }

  /** Creating an index on the person view, undone by dropping it. */
  function CreateIndexPair(name: string, column: string, unique: bool): (Op, Op) {
    (CreateIndex(name, On(column, unique)), DropIndex(name))
  }

  // The migration's `ops`: the same sixteen pairs in the same order, grouped
  // into the runs the proofs below step through.

  /** The name and sex indexes dropped. */
  const DropNamesRun: seq<(Op, Op)> := [
    DropIndexPair(LastNameIdx, "last_name", false),
    DropIndexPair(FirstNameIdx, "first_name", false),
    DropIndexPair(SexIdx, "sex", false)]

  /** The unique indexes dropped. */
  const DropUniquesRun: seq<(Op, Op)> := [
    DropIndexPair(HashIdx, "hash", true),
    DropIndexPair(EmailIdx, "email", true),
    DropIndexPair(IdIdx, "id", true)]

  /** The old view dropped and VISITENKARTE added. */
  const SwapRun: seq<(Op, Op)> := [
    (DropView(PersonViewName), CreateView(PersonViewName, OldPersonDef)),
    (AddColumn(Personen, Visitenkarte), DropColumn(Personen, Visitenkarte))]

  /** The new view and its hash and email indexes. */
  const RebuildRun: seq<(Op, Op)> := [
    (CreateView(PersonViewName, NewPersonDef), DropView(PersonViewName)),
    CreateIndexPair(HashIdx, "hash", true),
    CreateIndexPair(EmailIdx, "email", true)]

  /** The id, sex and first-name indexes. */
  const ReindexRun: seq<(Op, Op)> := [
    CreateIndexPair(IdIdx, "id", true),
    CreateIndexPair(SexIdx, "sex", false),
    CreateIndexPair(FirstNameIdx, "first_name", false)]

  /** The last-name index and the new employed index. */
  const FinishRun: seq<(Op, Op)> := [
    CreateIndexPair(LastNameIdx, "last_name", false),
    CreateIndexPair(EmployedIdx, "employed", false)]

  const Ops: seq<(Op, Op)> := DropNamesRun + DropUniquesRun + SwapRun + RebuildRun + ReindexRun + FinishRun

  /**
   * The reverse list: the employed index goes first, the new view is dropped
   * before VISITENKARTE, and the old view is rebuilt only after that
   * column is gone, then its six indexes.
   */
  lemma ReverseOrder()
    ensures |Reverses(Ops)| == 16
    ensures Reverses(Ops)[0] == DropIndex(EmployedIdx)
    ensures Reverses(Ops)[7] == DropView(PersonViewName)
    ensures Reverses(Ops)[8] == DropColumn(Personen, Visitenkarte)
    ensures Reverses(Ops)[9] == CreateView(PersonViewName, OldPersonDef)
  {
  }

  /** The named index exists as `ix`. */
  predicate HasIndex(c: Catalog, name: string, ix: Index) {
    name in c.indexes && c.indexes[name] == ix
  }

  /** The new view has every column the migration indexes. */
  lemma IndexedColumns()
    ensures "last_name" in NewPersonDef.columns && "first_name" in NewPersonDef.columns && "sex" in NewPersonDef.columns
    ensures "hash" in NewPersonDef.columns && "email" in NewPersonDef.columns && "id" in NewPersonDef.columns
    ensures "employed" in NewPersonDef.columns
  {
  }

  // Each segment of `Ops`, from whatever catalog it starts in.

  /** The name and sex indexes removed. */
  function DropNames(m: Catalog): Catalog {
    m.(indexes := m.indexes - {LastNameIdx} - {FirstNameIdx} - {SexIdx})
  }

  /** The unique indexes removed. */
  function DropUniques(m: Catalog): Catalog {
    m.(indexes := m.indexes - {HashIdx} - {EmailIdx} - {IdIdx})
  }

  /** The old view dropped and VISITENKARTE added. */
  function Swap(m: Catalog): Catalog
    requires Personen in m.tables
  {
    Catalog(m.tables[Personen := m.tables[Personen] + {Visitenkarte}], m.views - {PersonViewName}, m.indexes)
  }

  /** The new view created with its hash and email indexes. */
  function Rebuild(m: Catalog): Catalog {
    Catalog(m.tables, m.views[PersonViewName := NewPersonDef], m.indexes[HashIdx := On("hash", true)][EmailIdx := On("email", true)])
  }

  /** The id, sex and first-name indexes created. */
  function Reindex(m: Catalog): Catalog {
    m.(indexes := m.indexes[IdIdx := On("id", true)][SexIdx := On("sex", false)][FirstNameIdx := On("first_name", false)])
  }

  /** The last-name and employed indexes created. */
  function Finish(m: Catalog): Catalog {
    m.(indexes := m.indexes[LastNameIdx := On("last_name", false)][EmployedIdx := On("employed", false)])
  }

  /** Pairs 0 to 2 drop the name and sex indexes. */
  lemma DropNamesSegment(m: Catalog)
    requires Consistent(m)
    requires HasIndex(m, LastNameIdx, On("last_name", false)) && HasIndex(m, FirstNameIdx, On("first_name", false))
    requires HasIndex(m, SexIdx, On("sex", false))
    ensures UndoneSegment(m, DropNamesRun, DropNames(m)) && Consistent(DropNames(m))
  {
    IndexNameLengths();
    DropThreeIndexes(m, LastNameIdx, FirstNameIdx, SexIdx);
  }

  /** Pairs 3 to 5 drop the unique indexes. */
  lemma DropUniquesSegment(m: Catalog)
    requires Consistent(m)
    requires HasIndex(m, HashIdx, On("hash", true)) && HasIndex(m, EmailIdx, On("email", true)) && HasIndex(m, IdIdx, On("id", true))
    ensures UndoneSegment(m, DropUniquesRun, DropUniques(m)) && Consistent(DropUniques(m))
  {
    IndexNameLengths();
    DropThreeIndexes(m, HashIdx, EmailIdx, IdIdx);
  }

  /** Pairs 6 and 7: the old view dropped, then VISITENKARTE added. */
  lemma SwapSegment(m: Catalog)
    requires Consistent(m) && PersonViewName in m.views && m.views[PersonViewName] == OldPersonDef
    requires forall i :: i in m.indexes ==> m.indexes[i].view != PersonViewName
    requires Personen in m.tables && Visitenkarte !in m.tables[Personen]
    ensures UndoneSegment(m, SwapRun, Swap(m)) && Consistent(Swap(m))
  {
    DropViewStep(m, PersonViewName);
    var v := m.(views := m.views - {PersonViewName});
    AddColumnStep(v, Personen, Visitenkarte);
    TwoSteps(m, v, Swap(m), (DropView(PersonViewName), CreateView(PersonViewName, OldPersonDef)),
      (AddColumn(Personen, Visitenkarte), DropColumn(Personen, Visitenkarte)));
  }

  /** Pairs 8 to 10: the new view and its hash and email indexes. */
  lemma RebuildSegment(m: Catalog)
    requires Consistent(m) && PersonViewName !in m.views && HashIdx !in m.indexes && EmailIdx !in m.indexes
    requires Personen in m.tables && PersonenColumns + {Visitenkarte} <= m.tables[Personen]
    requires Avatars in m.tables && AvatarColumns <= m.tables[Avatars]
    ensures UndoneSegment(m, RebuildRun, Rebuild(m)) && Consistent(Rebuild(m))
  {
    IndexNameLengths();
    IndexedColumns();
    CreateViewStep(m, PersonViewName, NewPersonDef);
    var v := m.(views := m.views[PersonViewName := NewPersonDef]);
    CreateIndexStep(v, HashIdx, On("hash", true));
    var h := v.(indexes := v.indexes[HashIdx := On("hash", true)]);
    CreateIndexStep(h, EmailIdx, On("email", true));
    ThreeSteps(m, v, h, Rebuild(m), (CreateView(PersonViewName, NewPersonDef), DropView(PersonViewName)),
      CreateIndexPair(HashIdx, "hash", true), CreateIndexPair(EmailIdx, "email", true));
  }

  /** Pairs 11 to 13: the id, sex and first-name indexes. */
  lemma ReindexSegment(m: Catalog)
    requires Consistent(m) && PersonViewName in m.views && m.views[PersonViewName] == NewPersonDef
    requires IdIdx !in m.indexes && SexIdx !in m.indexes && FirstNameIdx !in m.indexes
    ensures UndoneSegment(m, ReindexRun, Reindex(m)) && Consistent(Reindex(m))
  {
    IndexNameLengths();
    IndexedColumns();
    CreateThreeIndexes(m, IdIdx, On("id", true), SexIdx, On("sex", false), FirstNameIdx, On("first_name", false));
  }

  /** Pairs 14 and 15: the last-name index and the new employed index. */
  lemma FinishSegment(m: Catalog)
    requires Consistent(m) && PersonViewName in m.views && m.views[PersonViewName] == NewPersonDef
    requires LastNameIdx !in m.indexes && EmployedIdx !in m.indexes
    ensures UndoneSegment(m, FinishRun, Finish(m))
  {
    IndexNameLengths();
    IndexedColumns();
    CreateIndexStep(m, LastNameIdx, On("last_name", false));
    var l := m.(indexes := m.indexes[LastNameIdx := On("last_name", false)]);
    CreateIndexStep(l, EmployedIdx, On("employed", false));
    TwoSteps(m, l, Finish(m), CreateIndexPair(LastNameIdx, "last_name", false), CreateIndexPair(EmployedIdx, "employed", false));
  }

  /**
   * The catalog this migration expects: `personen` without VISITENKARTE,
   * the avatar table, and the old view with exactly its six indexes; the
   * employed index is not there yet.
   */
  predicate Before(c: Catalog) {
    Consistent(c) &&
    Personen in c.tables && PersonenColumns <= c.tables[Personen] && Visitenkarte !in c.tables[Personen] &&
    Avatars in c.tables && AvatarColumns <= c.tables[Avatars] &&
    PersonViewName in c.views && c.views[PersonViewName] == OldPersonDef &&
    HasIndex(c, LastNameIdx, On("last_name", false)) && HasIndex(c, FirstNameIdx, On("first_name", false)) &&
    HasIndex(c, SexIdx, On("sex", false)) && HasIndex(c, HashIdx, On("hash", true)) &&
    HasIndex(c, EmailIdx, On("email", true)) && HasIndex(c, IdIdx, On("id", true)) &&
    EmployedIdx !in c.indexes &&
    forall i :: i in c.indexes && c.indexes[i].view == PersonViewName ==> i in {LastNameIdx, FirstNameIdx, SexIdx, HashIdx, EmailIdx, IdIdx}
  }

  /** The catalog after this migration. */
  function After(c: Catalog): Catalog
    requires Personen in c.tables
  {
    Catalog(c.tables[Personen := c.tables[Personen] + {Visitenkarte}], c.views[PersonViewName := NewPersonDef],
      c.indexes[HashIdx := On("hash", true)][EmailIdx := On("email", true)][IdIdx := On("id", true)]
        [SexIdx := On("sex", false)][FirstNameIdx := On("first_name", false)][LastNameIdx := On("last_name", false)]
        [EmployedIdx := On("employed", false)])
  }

  /** An index other than the name and sex indexes survives their drops. */
  lemma KeptIndex(m: Catalog, name: string, ix: Index)
    requires HasIndex(m, name, ix) && name != LastNameIdx && name != FirstNameIdx && name != SexIdx
    ensures HasIndex(DropNames(m), name, ix)
  {
  }

  /** After the first three drops, the unique indexes are still there. */
  lemma UniquesRemain(c: Catalog)
    requires Before(c)
    ensures HasIndex(DropNames(c), HashIdx, On("hash", true)) && HasIndex(DropNames(c), EmailIdx, On("email", true))
    ensures HasIndex(DropNames(c), IdIdx, On("id", true))
  {
    IndexNameLengths();
    KeptIndex(c, HashIdx, On("hash", true));
    KeptIndex(c, EmailIdx, On("email", true));
    KeptIndex(c, IdIdx, On("id", true));
  }

  /** Once all six indexes are dropped, none is left on the old view. */
  lemma NoIndexLeft(c: Catalog)
    requires Before(c)
    ensures forall i :: i in DropUniques(DropNames(c)).indexes ==> DropUniques(DropNames(c)).indexes[i].view != PersonViewName
  {
    var d := DropUniques(DropNames(c));
    forall i | i in d.indexes
      ensures d.indexes[i].view != PersonViewName
    {
      assert i in c.indexes && d.indexes[i] == c.indexes[i];
    }
  }

  /** The catalog reached once the old view and its indexes are gone and VISITENKARTE is added. */
  function TornDown(c: Catalog): Catalog
    requires Personen in c.tables
  {
    Swap(DropUniques(DropNames(c)))
  }

  /** The first eight pairs, from the expected catalog. */
  lemma Teardown(c: Catalog)
    requires Before(c)
    ensures UndoneSegment(c, DropNamesRun + DropUniquesRun + SwapRun, TornDown(c)) && Consistent(TornDown(c))
  {
    var d := DropUniques(DropNames(c));
    DropNamesSegment(c);
    UniquesRemain(c);
    DropUniquesSegment(DropNames(c));
    NoIndexLeft(c);
    SwapSegment(d);
    SegmentsAppend(c, DropNamesRun, DropUniquesRun, DropNames(c), d);
    SegmentsAppend(c, DropNamesRun + DropUniquesRun, SwapRun, d, Swap(d));
  }

  /** The torn-down catalog has what the rebuilding needs. */
  lemma ReadyToBuild(c: Catalog)
    requires Before(c)
    ensures var m := TornDown(c);
      PersonViewName !in m.views && HashIdx !in m.indexes && EmailIdx !in m.indexes &&
      Personen in m.tables && PersonenColumns + {Visitenkarte} <= m.tables[Personen] &&
      Avatars in m.tables && AvatarColumns <= m.tables[Avatars] &&
      IdIdx !in m.indexes && SexIdx !in m.indexes && FirstNameIdx !in m.indexes &&
      LastNameIdx !in m.indexes && EmployedIdx !in m.indexes
  {
    IndexNameLengths();
  }

  /** Creating the view and two indexes leaves the other five index names free. */
  lemma RebuildReady(m: Catalog)
    requires IdIdx !in m.indexes && SexIdx !in m.indexes && FirstNameIdx !in m.indexes
    requires LastNameIdx !in m.indexes && EmployedIdx !in m.indexes
    ensures PersonViewName in Rebuild(m).views && Rebuild(m).views[PersonViewName] == NewPersonDef
    ensures IdIdx !in Rebuild(m).indexes && SexIdx !in Rebuild(m).indexes && FirstNameIdx !in Rebuild(m).indexes
    ensures LastNameIdx !in Rebuild(m).indexes && EmployedIdx !in Rebuild(m).indexes
  {
    IndexNameLengths();
  }

  /** Creating three more indexes leaves the last two names free. */
  lemma ReindexReady(m: Catalog)
    requires PersonViewName in m.views && m.views[PersonViewName] == NewPersonDef
    requires LastNameIdx !in m.indexes && EmployedIdx !in m.indexes
    ensures PersonViewName in Reindex(m).views && Reindex(m).views[PersonViewName] == NewPersonDef
    ensures LastNameIdx !in Reindex(m).indexes && EmployedIdx !in Reindex(m).indexes
  {
    IndexNameLengths();
  }

  /** The first eleven pairs: the new view in place with its hash and email indexes. */
  lemma ViewRebuilt(c: Catalog)
    requires Before(c)
    ensures UndoneSegment(c, DropNamesRun + DropUniquesRun + SwapRun + RebuildRun, Rebuild(TornDown(c)))
    ensures Consistent(Rebuild(TornDown(c)))
    ensures PersonViewName in Rebuild(TornDown(c)).views && Rebuild(TornDown(c)).views[PersonViewName] == NewPersonDef
    ensures IdIdx !in Rebuild(TornDown(c)).indexes && SexIdx !in Rebuild(TornDown(c)).indexes
    ensures FirstNameIdx !in Rebuild(TornDown(c)).indexes
    ensures LastNameIdx !in Rebuild(TornDown(c)).indexes && EmployedIdx !in Rebuild(TornDown(c)).indexes
  {
    var m := TornDown(c);
    Teardown(c);
    ReadyToBuild(c);
    RebuildSegment(m);
    RebuildReady(m);
    SegmentsAppend(c, DropNamesRun + DropUniquesRun + SwapRun, RebuildRun, m, Rebuild(m));
  }

  /** The first fourteen pairs: five of the seven indexes in place. */
  lemma MostReindexed(c: Catalog)
    requires Before(c)
    ensures UndoneSegment(c, DropNamesRun + DropUniquesRun + SwapRun + RebuildRun + ReindexRun, Reindex(Rebuild(TornDown(c))))
    ensures Consistent(Reindex(Rebuild(TornDown(c))))
    ensures PersonViewName in Reindex(Rebuild(TornDown(c))).views
    ensures Reindex(Rebuild(TornDown(c))).views[PersonViewName] == NewPersonDef
    ensures LastNameIdx !in Reindex(Rebuild(TornDown(c))).indexes && EmployedIdx !in Reindex(Rebuild(TornDown(c))).indexes
  {
    var m := Rebuild(TornDown(c));
    ViewRebuilt(c);
    ReindexSegment(m);
    ReindexReady(m);
    SegmentsAppend(c, DropNamesRun + DropUniquesRun + SwapRun + RebuildRun, ReindexRun, m, Reindex(m));
  }

  /** Six keys removed and then set again, with a seventh set besides, end as if only set. */
  lemma ReaddedSix<K, V>(m: map<K, V>, a: K, b: K, c: K, d: K, e: K, f: K, g: K,
                         va: V, vb: V, vc: V, vd: V, ve: V, vf: V, vg: V)
    ensures (m - {a} - {b} - {c} - {d} - {e} - {f})[d := vd][e := ve][f := vf][c := vc][b := vb][a := va][g := vg]
         == m[d := vd][e := ve][f := vf][c := vc][b := vb][a := va][g := vg]
  {
    var x := (m - {a} - {b} - {c} - {d} - {e} - {f})[d := vd][e := ve][f := vf][c := vc][b := vb][a := va][g := vg];
    var y := m[d := vd][e := ve][f := vf][c := vc][b := vb][a := va][g := vg];
    assert x.Keys == y.Keys;
  }

  /** The catalog the forward run ends in is the one `After` states. */
  lemma FinalIsAfter(c: Catalog)
    requires Personen in c.tables
    ensures Finish(Reindex(Rebuild(Swap(DropUniques(DropNames(c)))))) == After(c)
  {
    RemoveThenSet(c.views, PersonViewName, NewPersonDef);
    ReaddedSix(c.indexes, LastNameIdx, FirstNameIdx, SexIdx, HashIdx, EmailIdx, IdIdx, EmployedIdx,
      On("last_name", false), On("first_name", false), On("sex", false), On("hash", true), On("email", true),
      On("id", true), On("employed", false));
  }

  /** All sixteen pairs, from the expected catalog to the one `After` states. */
  lemma WholeMigration(c: Catalog)
    requires Before(c)
    ensures UndoneSegment(c, Ops, After(c))
  {
    var m := Reindex(Rebuild(TornDown(c)));
    MostReindexed(c);
    FinishSegment(m);
    SegmentsAppend(c, DropNamesRun + DropUniquesRun + SwapRun + RebuildRun + ReindexRun, FinishRun, m, Finish(m));
    FinalIsAfter(c);
  }

  /**
   * From the catalog this migration expects, forward succeeds and reaches
   * the new state: VISITENKARTE added, the view rebuilt with `card`, its six
   * indexes recreated and the employed index added. Reverse then restores
   * the catalog exactly.
   */
  lemma MigrationRoundTrip(c: Catalog)
    requires Before(c)
    ensures Run(c, Forwards(Ops)) == Success(After(c))
    ensures Run(After(c), Reverses(Ops)) == Success(c)
  {
    WholeMigration(c);
    RoundTrip(c, Ops);
  }

  /**
   * VISITENKARTE cannot be dropped while the new view reads it: the reverse
   * has to drop the view first, as its order does.
   */
  lemma CardColumnInUse(c: Catalog)
    requires Personen in c.tables
    ensures Apply(After(c), DropColumn(Personen, Visitenkarte)) == Failure(DependentObjects(Visitenkarte))
  {
    assert (Personen, Visitenkarte) in After(c).views[PersonViewName].sources;
  }
}
