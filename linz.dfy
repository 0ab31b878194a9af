/**
 * The data classes of the Linz exchange schema (STPL study plans with
 * their FACH subjects and GHK course groups, LV courses and PV exams) as
 * values, the schema's `required` and `min_occurs` rules as a validity
 * predicate, and Python's truthiness of the column values they are filled
 * from.
 */
module Linz {
  import opened Wrappers

  /** The schema's target namespace. */
  const Namespace := "https://api.medunigraz.at/campusonline/linz/schema"

  /** A database value as the cursor returns it. */
  datatype Value = Null | Int(i: int) | Text(s: string) | Decimal(d: real) | Timestamp(seconds: int)

  /** Python truthiness: NULL, 0, "" and a zero Decimal are false; a timestamp is always true. */
  predicate Truthy(v: Value) {
    match v
    case Null => false
    case Int(i) => i != 0
    case Text(s) => s != ""
    case Decimal(d) => d != 0.0
    case Timestamp(_) => true
  }

  /** An XML attribute of a data class: its Python field name, its XML name, and whether the schema requires it. */
  datatype Field = Field(name: string, xmlName: string, required: bool)

  /** The attributes set on an instance, by Python field name; an absent name still holds its default `None`. */
  type Attrs = map<string, Value>

  /** `GhkType` (XML type GHKType). */
  const GhkFields: seq<Field> := [
    Field("titel", "TITEL", true),
    Field("kurzbezeichnung", "KURZBEZEICHNUNG", true),
    Field("credits", "CREDITS", false),
    Field("stp_lv_nr", "STP_LV_NR", true),
    Field("nr", "NR", false),
    Field("sws", "SWS", false)]

  /** `LvType` (XML type LVType). */
  const LvFields: seq<Field> := [
    Field("nr", "NR", true),
    Field("ghk", "GHK", true),
    Field("lvnr", "LVNR", false),
    Field("stoffsemester", "STOFFSEMESTER", false),
    Field("titel", "TITEL", false),
    Field("untertitel", "UNTERTITEL", false),
    Field("titel_engl", "TITEL_ENGL", false),
    Field("untertitel_eng", "UNTERTITEL_ENG", false),
    Field("lv_art", "LV_ART", false),
    Field("sws", "SWS", false),
    Field("credits", "CREDITS", false)]

  /** `PvType` (XML type PVType). */
  const PvFields: seq<Field> := [
    Field("nr", "NR", false),
    Field("lv_nr", "LV_NR", true),
    Field("datum_der_letztbeurteilung", "DATUM_DER_LETZTBEURTEILUNG", false),
    Field("note", "NOTE", false),
    Field("prf_versuch", "PRF_VERSUCH", false),
    Field("titel", "TITEL", false),
    Field("pruefer_vorname", "PRUEFER_VORNAME", false),
    Field("pruefer_nachname", "PRUEFER_NACHNAME", false),
    Field("geschlecht", "GESCHLECHT", false),
    Field("matrikelnummer", "MATRIKELNUMMER", false),
    Field("skz", "SKZ", false),
    Field("studienplanversion", "STUDIENPLANVERSION", false),
    Field("anerkennung_ja_nein", "ANERKENNUNG_JA_NEIN", false),
    Field("anerkennungstitel_dt", "ANERKENNUNGSTITEL_DT", false),
    Field("anerkennungstitel_engl", "ANERKENNUNGSTITEL_ENGL", false),
    Field("anerkennungs_ects", "ANERKENNUNGS_ECTS", false),
    Field("anerkennungs_ghk", "ANERKENNUNGS_GHK", false)]

  /** The attributes of `FachType` (XML type FACHType); its GHK elements are a separate list. */
  const FachFields: seq<Field> := [
    Field("credits", "CREDITS", false),
    Field("sws", "SWS", false),
    Field("kennung", "KENNUNG", false),
    Field("name", "NAME", false),
    Field("name_engl", "NAME_ENGL", false)]

  /** The attributes of `StplType` (XML type STPLType); the SKZKEY attribute's field is `skzkey_attribute`. */
  const StplFields: seq<Field> := [
    Field("skz_uni", "SKZ_UNI", false),
    Field("skz_key", "SKZ_KEY", false),
    Field("skzkey_attribute", "SKZKEY", false),
    Field("skzbez", "SKZBEZ", false),
    Field("version", "VERSION", false),
    Field("gueltig_ab", "GUELTIG_AB", false),
    Field("gueltig_bis", "GUELTIG_BIS", false),
    Field("studierbar_bis", "STUDIERBAR_BIS", false),
    Field("abschnitt", "ABSCHNITT", false),
    Field("semester", "SEMESTER", false),
    Field("sws", "SWS", false),
    Field("credits", "CREDITS", false)]

  function Names(fields: seq<Field>): set<string> {
    if fields == [] then {} else {fields[0].name} + Names(fields[1..])
  }

  function RequiredNames(fields: seq<Field>): set<string> {
    if fields == [] then {}
    else (if fields[0].required then {fields[0].name} else {}) + RequiredNames(fields[1..])
  }

  datatype Ghk = Ghk(attrs: Attrs)
  datatype Lv = Lv(attrs: Attrs)
  datatype Pv = Pv(attrs: Attrs)
  datatype Fach = Fach(ghk: seq<Ghk>, attrs: Attrs)
  datatype Stpl = Stpl(fach: seq<Fach>, attrs: Attrs)

  /** `Exchange`: an `ExchangeType` whose element is EXCHANGE in `Namespace`. */
  datatype Exchange = Exchange(stpl: seq<Stpl>, lv: seq<Lv>, pv: seq<Pv>)

  const ExchangeElement := "EXCHANGE"
  const ExchangeNamespace := Namespace

  /** A freshly constructed instance: every element list empty, every attribute `None`. */
  const EmptyExchange := Exchange([], [], [])
  const EmptyAttrs: Attrs := map[]

  /** The attributes set belong to the class, and every required one is set to a value. */
  predicate AttrsValid(attrs: Attrs, fields: seq<Field>) {
    (forall name :: name in attrs ==> HasField(fields, name)) &&
    (forall i :: 0 <= i < |fields| && fields[i].required ==> fields[i].name in attrs) &&
    forall name :: name in attrs ==> attrs[name] != Null
  }

  /** The class declares an attribute `name`. */
  predicate HasField(fields: seq<Field>, name: string) {
    exists i :: 0 <= i < |fields| && fields[i].name == name
  }

  lemma {:induction false} NamesSpec(fields: seq<Field>, name: string)
    ensures name in Names(fields) <==> HasField(fields, name)
    ensures name in RequiredNames(fields) <==> exists i :: 0 <= i < |fields| && fields[i].required && fields[i].name == name
  {
    if fields != [] {
      NamesSpec(fields[1..], name);
      if HasField(fields[1..], name) {
        var i :| 0 <= i < |fields| - 1 && fields[1..][i].name == name;
        assert fields[i + 1].name == name;
      }
      if exists i :: 0 <= i < |fields| - 1 && fields[1..][i].required && fields[1..][i].name == name {
        var i :| 0 <= i < |fields| - 1 && fields[1..][i].required && fields[1..][i].name == name;
        assert fields[i + 1].required && fields[i + 1].name == name;
      }
      if HasField(fields, name) {
        var i :| 0 <= i < |fields| && fields[i].name == name;
        if i > 0 { assert fields[1..][i - 1].name == name; }
      }
      if exists i :: 0 <= i < |fields| && fields[i].required && fields[i].name == name {
        var i :| 0 <= i < |fields| && fields[i].required && fields[i].name == name;
        if i > 0 { assert fields[1..][i - 1].required && fields[1..][i - 1].name == name; }
      }
    }
  }

  /** Validity in terms of name sets: only the class's names, every required name, and no NULL. */
  lemma AttrsValidNames(attrs: Attrs, fields: seq<Field>)
    ensures AttrsValid(attrs, fields) <==>
      attrs.Keys <= Names(fields) && RequiredNames(fields) <= attrs.Keys && forall name :: name in attrs ==> attrs[name] != Null
  {
    forall name ensures name in Names(fields) <==> HasField(fields, name) {
      NamesSpec(fields, name);
    }
    forall name ensures name in RequiredNames(fields) <==> exists i :: 0 <= i < |fields| && fields[i].required && fields[i].name == name {
      NamesSpec(fields, name);
    }
  }

  predicate GhkValid(g: Ghk) { AttrsValid(g.attrs, GhkFields) }
  predicate LvValid(l: Lv) { AttrsValid(l.attrs, LvFields) }
  predicate PvValid(p: Pv) { AttrsValid(p.attrs, PvFields) }

  predicate FachValid(f: Fach) {
    AttrsValid(f.attrs, FachFields) && forall i :: 0 <= i < |f.ghk| ==> GhkValid(f.ghk[i])
  }

  /** STPL's FACH element has `min_occurs: 1`. */
  predicate StplValid(s: Stpl) {
    |s.fach| >= 1 && AttrsValid(s.attrs, StplFields) && forall i :: 0 <= i < |s.fach| ==> FachValid(s.fach[i])
  }

  /** A document the schema accepts. */
  predicate ExchangeValid(x: Exchange) {
    (forall i :: 0 <= i < |x.stpl| ==> StplValid(x.stpl[i])) &&
    (forall i :: 0 <= i < |x.lv| ==> LvValid(x.lv[i])) &&
    (forall i :: 0 <= i < |x.pv| ==> PvValid(x.pv[i]))
  }

  /** GHK requires TITEL, KURZBEZEICHNUNG and STP_LV_NR; CREDITS, NR and SWS are optional. */
  lemma GhkRequired()
    ensures RequiredNames(GhkFields) == {"titel", "kurzbezeichnung", "stp_lv_nr"}
    ensures Names(GhkFields) - RequiredNames(GhkFields) == {"credits", "nr", "sws"}
  {
  }

  /** LV requires NR and GHK. */
  lemma LvRequired()
    ensures RequiredNames(LvFields) == {"nr", "ghk"}
  {
  }

  lemma {:induction false} NoneRequired(fields: seq<Field>)
    requires forall i :: 0 <= i < |fields| ==> !fields[i].required
    ensures RequiredNames(fields) == {}
  {
    if fields != [] {
      NoneRequired(fields[1..]);
    }
  }

  /** PV requires LV_NR and nothing else. */
  lemma PvRequired()
    ensures RequiredNames(PvFields) == {"lv_nr"}
  {
    NoneRequired(PvFields[2..]);
    assert PvFields == [PvFields[0], PvFields[1]] + PvFields[2..];
  }

  /** FACH and STPL have no required attribute; only STPL's `min_occurs` constrains them. */
  lemma FachStplNothingRequired()
    ensures RequiredNames(FachFields) == {} && RequiredNames(StplFields) == {}
  {
  }

  /** The empty document is valid; a default GHK, LV or PV, or an STPL without FACH, is not. */
  lemma Defaults()
    ensures ExchangeValid(EmptyExchange)
    ensures !GhkValid(Ghk(EmptyAttrs)) && !LvValid(Lv(EmptyAttrs)) && !PvValid(Pv(EmptyAttrs))
    ensures forall attrs :: !StplValid(Stpl([], attrs))
  {
    assert GhkFields[0].required && LvFields[0].required && PvFields[1].required;
  }

  /** Which GHK attributes are required: TITEL, KURZBEZEICHNUNG and STP_LV_NR, by position. */
  lemma GhkRequiredPositions()
    ensures forall i :: 0 <= i < |GhkFields| ==> (GhkFields[i].required <==> i == 0 || i == 1 || i == 3)
    ensures GhkFields[0].name == "titel" && GhkFields[1].name == "kurzbezeichnung" && GhkFields[3].name == "stp_lv_nr"
  {
  }
}
