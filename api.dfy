/**
 * The API views' per-request choices: which persons and events a listing
 * contains, which serializer renders a response, and which relations a
 * list request may expand.
 */
module Api {
  import opened Wrappers
  import opened Query
  import opened Records
  import opened Serializers

  /** `PersonViewSet.get_queryset`: anonymous users see only employed persons. */
  function PersonQueryset(qs: seq<Person>, user: Option<User>): (r: seq<Person>)
    ensures UserAuthenticated(user) ==> r == qs
    ensures forall p :: p in r <==> p in qs && (UserAuthenticated(user) || p.employed)
    ensures IsSubsequence(r, qs)
  {
    if user.Some? && user.value.authenticated then
      IsSubsequenceReflexive(qs);
      qs
    else Filter(qs, (p: Person) => p.employed)
  }

  /** Nobody in an anonymous person listing is unemployed. */
  lemma AnonymousListingsOnlyEmployed(qs: seq<Person>, user: Option<User>)
    requires !UserAuthenticated(user)
    ensures forall i :: 0 <= i < |PersonQueryset(qs, user)| ==> PersonQueryset(qs, user)[i].employed
  {
    var r := PersonQueryset(qs, user);
    forall i | 0 <= i < |r| ensures r[i].employed {
      assert r[i] in r;
    }
  }

  /** The viewsets whose choices are modelled. */
  datatype ViewSet = PersonViewSet | OrganizationViewSet | StudentViewSet | EventViewSet | ExamViewSet

  /** `get_serializer_class` of the person, organization and student viewsets; the others use their fixed class. */
  function SerializerClass(v: ViewSet, user: Option<User>): (r: Serializer)
    ensures v == PersonViewSet ==> (r == AuthenticatedPersonSerializer <==> UserAuthenticated(user))
    ensures v == OrganizationViewSet ==> (r == AuthenticatedOrganizationSerializer <==> UserAuthenticated(user))
    ensures v == StudentViewSet ==> (r == AuthenticatedStudentSerializer <==> UserAuthenticated(user))
    ensures v in {PersonViewSet, OrganizationViewSet, StudentViewSet} && !UserAuthenticated(user) ==>
      r == DefaultSerializer(v)
  {
    var authenticated := user.Some? && user.value.authenticated;
    match v
    case PersonViewSet => if authenticated then AuthenticatedPersonSerializer else DefaultSerializer(v)
    case OrganizationViewSet => if authenticated then AuthenticatedOrganizationSerializer else DefaultSerializer(v)
    case StudentViewSet => if authenticated then AuthenticatedStudentSerializer else DefaultSerializer(v)
    case _ => DefaultSerializer(v)
  }

  /** The viewset's `serializer_class` attribute. */
  function DefaultSerializer(v: ViewSet): Serializer {
    match v
    case PersonViewSet => PersonSerializer
    case OrganizationViewSet => OrganizationSerializer
    case StudentViewSet => StudentSerializer
    case EventViewSet => EventSerializer
    case ExamViewSet => ExamSerializer
  }

  /** An authenticated user never sees fewer fields than an anonymous one, at the person, organization and student endpoints. */
  lemma AuthenticatedSeesMore(v: ViewSet, anonymous: Option<User>, user: Option<User>)
    requires v in {PersonViewSet, OrganizationViewSet, StudentViewSet}
    requires !UserAuthenticated(anonymous) && UserAuthenticated(user)
    ensures Fields(SerializerClass(v, anonymous)) < Fields(SerializerClass(v, user))
  {
    match v
    case PersonViewSet => PersonFieldsSplit();
    case OrganizationViewSet => OrganizationFieldsSplit();
    case StudentViewSet => StudentFieldsSplit();
  }

  /** Why a request is refused before the view runs. */
  datatype Refusal = NotAuthenticated

  /**
   * A request to the student endpoint: its `IsAuthenticated` permission
   * refuses anonymous users before `get_serializer_class` runs.
   */
  function StudentSerializerFor(user: Option<User>): (r: Result<Serializer, Refusal>)
    ensures r.Failure? <==> !UserAuthenticated(user)
  {
    if !UserAuthenticated(user) then Failure(NotAuthenticated)
    else Success(SerializerClass(StudentViewSet, user))
  }

  /** Every student response is rendered by the authenticated student serializer. */
  lemma StudentResponsesAreAuthenticated(user: Option<User>)
    requires StudentSerializerFor(user).Success?
    ensures StudentSerializerFor(user).value == AuthenticatedStudentSerializer
  {
  }

  /** `EventViewSet.get_queryset`: the events still shown at `now`. */
  function EventQueryset(events: seq<Event>, now: int): (r: seq<Event>)
    ensures forall e :: e in r <==> e in events && e.showEnd >= now
    ensures IsSubsequence(r, events)
  {
    Filter(events, (e: Event) => e.showEnd >= now)
  }

  /** As time passes the listing only loses events. */
  lemma EventQuerysetShrinks(events: seq<Event>, now: int, later: int)
    requires now <= later
    ensures forall e :: e in EventQueryset(events, later) ==> e in EventQueryset(events, now)
  {
  }

  /** `permit_list_expands` of each viewset; viewsets without one permit nothing. */
  function PermitListExpands(v: ViewSet): set<string> {
    match v
    case PersonViewSet =>
      {"functions", "organizations", "organizations_leave", "classifications", "expertise", "knowledge", "education"}
    case OrganizationViewSet => {"persons", "persons_leave", "publication_authorship", "type", "parent"}
    case ExamViewSet => {"organization", "mode", "type", "course", "examiner"}
    case _ => {}
  }

  /**
   * The relations a list request actually expands: those requested, that
   * the viewset permits in lists, and that the serializer can expand.
   */
  function ListExpansions(requested: set<string>, permitted: set<string>, expandable: map<string, Serializer>): (r: set<string>)
    ensures r <= requested * permitted
    ensures forall e :: e in requested && e in permitted ==> (e in r <==> e in expandable)
  {
    set e | e in requested && e in permitted && e in expandable
  }

  /**
   * As written, an exam listing can never expand the exam mode: "mode"
   * is permitted but the serializer calls the relation "modes", which is
   * not permitted.
   */
  lemma ExamModeNotListExpandableAsWritten(requested: set<string>, request: Option<Request>)
    ensures ExamModeExpansion !in ListExpansions(requested, PermitListExpands(ExamViewSet), ExamExpandableAsWritten(request))
    ensures ExamModeExpansionAsWritten !in ListExpansions(requested, PermitListExpands(ExamViewSet), ExamExpandableAsWritten(request))
  {
  }

  /** With the relation named "mode", asking for it in an exam listing expands it with the exam mode serializer. */
  lemma ExamModeListExpandable(requested: set<string>, request: Option<Request>)
    requires ExamModeExpansion in requested
    ensures var expandable := ExpandableFields(ExamSerializer, request);
      ExamModeExpansion in ListExpansions(requested, PermitListExpands(ExamViewSet), expandable) &&
      expandable[ExamModeExpansion] == ExamModeSerializer
  {
  }

  /** Every relation a person or organization viewset permits in lists is expandable by its authenticated serializer. */
  lemma PermittedListExpansionsExist(v: ViewSet, user: Option<User>, request: Option<Request>)
    requires v in {PersonViewSet, OrganizationViewSet} && UserAuthenticated(user)
    ensures PermitListExpands(v) <= ExpandableFields(SerializerClass(v, user), request).Keys
  {
  }

  /**
   * For an anonymous user the person and organization listings silently
   * drop the permitted relations the anonymous serializer does not offer:
   * a person listing expands only classifications, expertise, knowledge
   * and education, an organization listing only publication authorship,
   * type and parent, whatever else is requested.
   */
  lemma AnonymousListDropsRelations(requested: set<string>, user: Option<User>, request: Option<Request>)
    requires !UserAuthenticated(user)
    ensures ListExpansions(requested, PermitListExpands(PersonViewSet), ExpandableFields(SerializerClass(PersonViewSet, user), request)) ==
      requested * {"classifications", "expertise", "knowledge", "education"}
    ensures ListExpansions(requested, PermitListExpands(OrganizationViewSet), ExpandableFields(SerializerClass(OrganizationViewSet, user), request)) ==
      requested * {"publication_authorship", "type", "parent"}
  {
  }
}
