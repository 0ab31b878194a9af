/**
 * What the API shows of a record: the field lists of the person,
 * organization and student serializers and their authenticated variants,
 * the relations each serializer can expand (and with which serializer),
 * and the two computed person fields `avatar` and `mobile`.
 */
module Serializers {
  import opened Wrappers
  import opened Text
  import opened Records

  /** The user behind a request; Django's anonymous user is a user that is not authenticated. */
  datatype User = User(authenticated: bool)

  /**
   * An HTTP request: its user, if any, and the scheme and host that
   * `build_absolute_uri` puts in front of a path.
   */
  datatype Request = Request(user: Option<User>, origin: string)

  /** `request.user and request.user.is_authenticated`. */
  predicate UserAuthenticated(user: Option<User>) {
    user.Some? && user.value.authenticated
  }

  /** The serializer context's request is present and its user is authenticated. */
  predicate Authenticated(request: Option<Request>) {
    request.Some? && UserAuthenticated(request.value.user)
  }

  /** The serializers that appear as expansion targets or are chosen by a view. */
  datatype Serializer =
    | PersonSerializer | AuthenticatedPersonSerializer
    | OrganizationSerializer | AuthenticatedOrganizationSerializer
    | StudentSerializer | AuthenticatedStudentSerializer
    | FunctionSerializer | OrganizationTypeSerializer | PublicationOrganizationSerializer
    | ClassificationSerializer | ExpertiseSerializer | KnowledgeSerializer | EducationSerializer
    | DistributionListSerializer | FinalThesisSerializer | CourseSerializer | EventSerializer
    | ExamSerializer | ExamModeSerializer | ExamTypeSerializer
    | ExamineeSerializer | ExamineeStatusSerializer

  function FieldSet(fields: seq<string>): set<string> {
    set f | f in fields
  }

  lemma FieldSetConcat(a: seq<string>, b: seq<string>)
    ensures FieldSet(a + b) == FieldSet(a) + FieldSet(b)
  {
  }

  /** `PersonSerializer.Meta.fields`; "card" is listed twice. */
  const PersonFields: seq<string> := [
    "id", "room", "avatar", "card", "first_name", "last_name", "title",
    "consultation", "appendix", "phone", "phone_external", "fax", "card",
    "classifications", "expertise", "knowledge", "education",
    "academic_title", "miscellaneous_title", "official_title"]

  /** `AuthenticatedPersonSerializer.Meta.fields`. */
  const AuthenticatedPersonFields: seq<string> := PersonFields + [
    "email", "sex", "mobile", "functions", "organizations", "organizations_leave", "employed"]

  /** `OrganizationSerializer.Meta.fields`. */
  const OrganizationFields: seq<string> := [
    "id", "name", "short", "sib_order", "category", "address", "email", "phone",
    "url", "parent", "fax", "office", "publication_authorship", "type", "university_law"]

  /** `AuthenticatedOrganizationSerializer.Meta.fields`. */
  const AuthenticatedOrganizationFields: seq<string> := OrganizationFields + ["persons", "persons_leave"]

  /** `StudentSerializer.Meta.fields`. */
  const StudentFields: seq<string> := ["id", "first_name", "last_name", "title", "avatar"]

  /** `AuthenticatedStudentSerializer.Meta.fields`. */
  const AuthenticatedStudentFields: seq<string> := StudentFields + ["email", "immunized"]

  /** The serializers whose field lists are modelled. */
  predicate HasFieldList(s: Serializer) {
    s in {PersonSerializer, AuthenticatedPersonSerializer, OrganizationSerializer,
          AuthenticatedOrganizationSerializer, StudentSerializer, AuthenticatedStudentSerializer}
  }

  /** The fields a serializer renders, for the six serializers with a modelled field list. */
  function Fields(s: Serializer): (r: set<string>)
    ensures !HasFieldList(s) ==> r == {}
    ensures HasFieldList(s) ==> "id" in r
  {
    match s
    case PersonSerializer => FieldSet(PersonFields)
    case AuthenticatedPersonSerializer => FieldSet(AuthenticatedPersonFields)
    case OrganizationSerializer => FieldSet(OrganizationFields)
    case AuthenticatedOrganizationSerializer => FieldSet(AuthenticatedOrganizationFields)
    case StudentSerializer => FieldSet(StudentFields)
    case AuthenticatedStudentSerializer => FieldSet(AuthenticatedStudentFields)
    case _ => {}
  }

  /** The person fields only an authenticated user sees. */
  const PersonPrivateFields: set<string> :=
    {"email", "sex", "mobile", "functions", "organizations", "organizations_leave", "employed"}

  lemma PersonPrivateFieldsAdded()
    ensures Fields(AuthenticatedPersonSerializer) == Fields(PersonSerializer) + PersonPrivateFields
  {
    var extra := AuthenticatedPersonFields[|PersonFields|..];
    assert AuthenticatedPersonFields == PersonFields + extra;
    FieldSetConcat(PersonFields, extra);
  }

  lemma PersonPrivateFieldsHidden()
    ensures Fields(PersonSerializer) !! PersonPrivateFields
  {
    forall i | 0 <= i < 7 ensures PersonFields[i] !in PersonPrivateFields { }
    forall i | 7 <= i < 14 ensures PersonFields[i] !in PersonPrivateFields { }
    forall i | 14 <= i < 20 ensures PersonFields[i] !in PersonPrivateFields { }
  }

  /**
   * Authenticated users see exactly the anonymous person fields plus
   * email, sex, mobile, functions, organizations, organizations_leave and
   * employed; anonymous users see none of those seven.
   */
  lemma PersonFieldsSplit()
    ensures Fields(AuthenticatedPersonSerializer) == Fields(PersonSerializer) + PersonPrivateFields
    ensures Fields(PersonSerializer) !! PersonPrivateFields
    ensures Fields(PersonSerializer) < Fields(AuthenticatedPersonSerializer)
  {
    PersonPrivateFieldsAdded();
    PersonPrivateFieldsHidden();
    assert "email" in PersonPrivateFields;
  }

  /** "card" is listed twice, so the field list has one entry more than the field set has members. */
  lemma PersonFieldsRepeatCard()
    ensures PersonFields[3] == PersonFields[12] == "card"
    ensures |PersonFields| == 20
  {
  }

  /** Authenticated organization fields add exactly persons and persons_leave. */
  lemma OrganizationFieldsSplit()
    ensures Fields(AuthenticatedOrganizationSerializer) == Fields(OrganizationSerializer) + {"persons", "persons_leave"}
    ensures Fields(OrganizationSerializer) !! {"persons", "persons_leave"}
  {
  }

  /** Authenticated student fields add exactly email and immunized. */
  lemma StudentFieldsSplit()
    ensures Fields(AuthenticatedStudentSerializer) == Fields(StudentSerializer) + {"email", "immunized"}
    ensures Fields(StudentSerializer) !! {"email", "immunized"}
  {
  }

  /**
   * The serializer an expanded person relation uses (function persons,
   * distribution list persons, thesis tutor, exam examiner): the
   * authenticated one exactly when the request's user is authenticated.
   */
  function ExpandedPersonSerializer(request: Option<Request>): (r: Serializer)
    ensures r == AuthenticatedPersonSerializer <==> Authenticated(request)
    ensures r == PersonSerializer <==> !Authenticated(request)
  {
    var serializer := PersonSerializer;
    if request.Some? && request.value.user.Some? && request.value.user.value.authenticated
    then AuthenticatedPersonSerializer
    else serializer
  }

  /** The expansion name `ExamSerializer.expandable_fields` uses for the exam mode, as written. */
  const ExamModeExpansionAsWritten := "modes"

  /** The expansion name the exam documentation and the list permissions use. */
  const ExamModeExpansion := "mode"

  /** `ExamSerializer.expandable_fields`, keyed by the given name for the mode relation. */
  function ExamExpandable(request: Option<Request>, modeName: string): map<string, Serializer> {
    map["organization" := OrganizationSerializer,
        modeName := ExamModeSerializer,
        "type" := ExamTypeSerializer,
        "examiner" := ExpandedPersonSerializer(request),
        "course" := CourseSerializer]
  }

  /**
   * `expandable_fields` of each flex-fields serializer: relation name to
   * the serializer that renders it when expanded. The exam mode uses the
   * name "mode"; `ExamExpandableAsWritten` keeps the written "modes".
   */
  function ExpandableFields(s: Serializer, request: Option<Request>): map<string, Serializer> {
    match s
    case FunctionSerializer => map["persons" := ExpandedPersonSerializer(request)]
    case OrganizationSerializer | AuthenticatedOrganizationSerializer =>
      var base := map["publication_authorship" := PublicationOrganizationSerializer,
                      "parent" := s,
                      "type" := OrganizationTypeSerializer];
      if s == OrganizationSerializer then base
      else base + map["parent" := s,
                      "persons" := AuthenticatedPersonSerializer,
                      "persons_leave" := AuthenticatedPersonSerializer]
    case PersonSerializer | AuthenticatedPersonSerializer =>
      var base := map["classifications" := ClassificationSerializer,
                      "expertise" := ExpertiseSerializer,
                      "knowledge" := KnowledgeSerializer,
                      "education" := EducationSerializer];
      if s == PersonSerializer then base
      else base + map["functions" := FunctionSerializer,
                      "organizations" := OrganizationSerializer,
                      "organizations_leave" := OrganizationSerializer]
    case DistributionListSerializer =>
      map["persons" := ExpandedPersonSerializer(request), "students" := StudentSerializer]
    case FinalThesisSerializer =>
      map["author" := StudentSerializer, "tutor" := ExpandedPersonSerializer(request),
          "organization" := OrganizationSerializer]
    case ExamSerializer => ExamExpandable(request, ExamModeExpansion)
    case ExamineeSerializer =>
      map["exam" := ExamSerializer, "student" := StudentSerializer, "status" := ExamineeStatusSerializer]
    case _ => map[]
  }

  /** `ExamSerializer.expandable_fields` as written: the mode relation is named "modes". */
  function ExamExpandableAsWritten(request: Option<Request>): map<string, Serializer> {
    ExamExpandable(request, ExamModeExpansionAsWritten)
  }

  /**
   * The authenticated person and organization serializers can expand
   * everything the anonymous ones can, plus the relations to
   * organizations (for persons) or to persons (for organizations), and
   * those always render persons with the authenticated serializer.
   */
  lemma AuthenticatedExpansionsExtend(request: Option<Request>)
    ensures ExpandableFields(AuthenticatedPersonSerializer, request).Keys ==
      ExpandableFields(PersonSerializer, request).Keys + {"functions", "organizations", "organizations_leave"}
    ensures ExpandableFields(AuthenticatedOrganizationSerializer, request).Keys ==
      ExpandableFields(OrganizationSerializer, request).Keys + {"persons", "persons_leave"}
    ensures "persons" !in ExpandableFields(OrganizationSerializer, request)
    ensures ExpandableFields(AuthenticatedOrganizationSerializer, request)["persons"] == AuthenticatedPersonSerializer
  {
  }

  /**
   * Every expanded person relation, whichever serializer holds it, renders
   * persons with the authenticated serializer exactly when the user is
   * authenticated.
   */
  lemma ExpandedPersonsFollowAuthentication(s: Serializer, name: string, request: Option<Request>)
    requires s in {FunctionSerializer, DistributionListSerializer, FinalThesisSerializer, ExamSerializer}
    requires name in ExpandableFields(s, request)
    requires ExpandableFields(s, request)[name] in {PersonSerializer, AuthenticatedPersonSerializer}
    ensures ExpandableFields(s, request)[name] == AuthenticatedPersonSerializer <==> Authenticated(request)
  {
  }

  /** `reverse("campusonline:avatar-private", hash=...)`, below the mount point `prefix` of the URL patterns. */
  function AvatarPath(prefix: string, hash: string): string {
    prefix + "avatar/" + hash
  }

  /**
   * `AuthenticatedPersonSerializer.get_avatar`: nothing without a private
   * avatar blob (NULL or empty); otherwise the avatar path of the person's
   * hash, made absolute with the request's origin when there is a request.
   */
  function GetAvatar(p: Person, request: Option<Request>, prefix: string): (r: Option<string>)
    ensures r.None? <==> (p.avatarPrivate.None? || p.avatarPrivate.value == [])
    ensures r.Some? && request.None? ==> r.value == AvatarPath(prefix, FormatOptional(p.hash))
    ensures r.Some? && request.Some? ==> r.value == request.value.origin + AvatarPath(prefix, FormatOptional(p.hash))
  {
    if p.avatarPrivate.None? || p.avatarPrivate.value == [] then None
    else
      var path := AvatarPath(prefix, FormatOptional(p.hash));
      if request.Some? then Some(request.value.origin + path) else Some(path)
  }

  /** Within one request, persons with avatars and different hashes get different avatar URLs. */
  lemma GetAvatarSeparatesHashes(p: Person, q: Person, request: Option<Request>, prefix: string)
    requires GetAvatar(p, request, prefix).Some? && GetAvatar(q, request, prefix).Some?
    requires p.hash.Some? && q.hash.Some?
    requires GetAvatar(p, request, prefix) == GetAvatar(q, request, prefix)
    ensures p.hash == q.hash
  {
    var o := if request.Some? then request.value.origin + prefix + "avatar/" else prefix + "avatar/";
    var a, b := p.hash.value, q.hash.value;
    assert GetAvatar(p, request, prefix).value == o + a;
    assert GetAvatar(q, request, prefix).value == o + b;
    assert a == (o + a)[|o|..];
    assert b == (o + b)[|o|..];
  }

  /** A parsed phone number: country calling code and national number. */
  datatype PhoneNumber = PhoneNumber(countryCode: int, nationalNumber: int)

  /** `CAMPUSONLINE_PHONE_NUMBER_REGION`'s default. */
  const DefaultPhoneRegion := "AT"

  /**
   * `AuthenticatedPersonSerializer.get_mobile`: the number in international
   * format, or nothing when there is no number or it does not parse.
   * `parse` and `formatInternational` stand for the phone-number library.
   */
  function GetMobile(p: Person, region: string, parse: (string, string) -> Option<PhoneNumber>,
                     formatInternational: PhoneNumber -> string): (r: Option<string>)
    ensures r.Some? <==> p.mobile.Some? && parse(p.mobile.value, region).Some?
    ensures r.Some? ==> r.value == formatInternational(parse(p.mobile.value, region).value)
  {
    match p.mobile
    case None => None
    case Some(m) =>
      match parse(m, region)
      case None => None
      case Some(n) => Some(formatInternational(n))
  }
}
