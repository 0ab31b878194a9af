/**
 * The two hand-written query filters: `PersonFilter.filter_name` (search
 * by first or last name) and `CourseGroupTermFilter.filter_virtual`
 * (terms in virtual rooms, or the others).
 */
module Filters {
  import opened Wrappers
  import opened Text
  import opened Query
  import opened Records

  /** The shortest name search `filter_name` answers. */
  const MinNameLength := 4

  /** `CAMPUSONLINE_VIRTUAL_ROOMS`' default: no virtual rooms. */
  const DefaultVirtualRooms: seq<int> := []

  /** `Q(first_name__icontains=value) | Q(last_name__icontains=value)`; a NULL name matches nothing. */
  function NameMatch(value: string): Person -> bool {
    (p: Person) => (p.firstName.Some? && ContainsIgnoringCase(p.firstName.value, value))
      || (p.lastName.Some? && ContainsIgnoringCase(p.lastName.value, value))
  }

  /**
   * `filter_name` as evidently intended: a search shorter than four
   * characters yields no persons; a longer one keeps exactly the persons
   * whose first or last name contains it, ignoring case, in queryset order.
   */
  function FilterName(qs: seq<Person>, value: string): (r: seq<Person>)
    ensures |value| < MinNameLength ==> r == []
    ensures forall p :: p in r <==> p in qs && |value| >= MinNameLength && NameMatch(value)(p)
    ensures IsSubsequence(r, qs)
  {
    if |value| < MinNameLength then [] else Filter(qs, NameMatch(value))
  }

  /** Errors a filter method can raise. */
  datatype Error = AttributeError(attribute: string)

  /**
   * `filter_name` as written: a short search calls `queryset.empty()`,
   * which a Django queryset does not have, so the request fails instead
   * of returning no persons.
   */
  function FilterNameAsWritten(qs: seq<Person>, value: string): Result<seq<Person>, Error> {
    if |value| < MinNameLength then Failure(AttributeError("empty")) else Success(FilterName(qs, value))
  }

  /** The written code and the intended one agree exactly on searches of at least four characters. */
  lemma FilterNameAsWrittenFailsShortSearches(qs: seq<Person>, value: string)
    ensures FilterNameAsWritten(qs, value).Success? <==> |value| >= MinNameLength
    ensures FilterNameAsWritten(qs, value).Success? ==> FilterNameAsWritten(qs, value).value == FilterName(qs, value)
  {
  }

  /** A three-letter search such as "mai" makes the written filter fail where none should be found. */
  lemma FilterNameShortSearchCounterexample(qs: seq<Person>)
    ensures FilterNameAsWritten(qs, "mai") == Failure(AttributeError("empty"))
    ensures FilterName(qs, "mai") == []
  {
  }

  /**
   * Refining a search never finds more: every person found by `value`
   * is also found by any search of at least four characters that `value`
   * contains, ignoring case.
   */
  lemma FilterNameNarrows(qs: seq<Person>, value: string, part: string)
    requires |part| >= MinNameLength && ContainsIgnoringCase(value, part)
    ensures forall p :: p in FilterName(qs, value) ==> p in FilterName(qs, part)
  {
    ContainsAt(Upper(value), Upper(part));
    forall p | p in FilterName(qs, value) ensures p in FilterName(qs, part) {
      if p.firstName.Some? && ContainsIgnoringCase(p.firstName.value, value) {
        ContainsTransitive(Upper(p.firstName.value), Upper(value), Upper(part));
      } else {
        ContainsTransitive(Upper(p.lastName.value), Upper(value), Upper(part));
      }
    }
  }

  /**
   * `room_id__in=CAMPUSONLINE_VIRTUAL_ROOMS`. A term without a room is
   * never in the list, so `exclude` keeps it.
   */
  function InVirtualRoom(rooms: seq<int>): CourseGroupTerm -> bool {
    (t: CourseGroupTerm) => t.room.Some? && t.room.value in rooms
  }

  /** `filter_virtual`: `true` keeps the terms in virtual rooms, `false` the others. */
  function FilterVirtual(qs: seq<CourseGroupTerm>, value: bool, rooms: seq<int>): (r: seq<CourseGroupTerm>)
    ensures forall t :: t in r <==> t in qs && (InVirtualRoom(rooms)(t) <==> value)
    ensures IsSubsequence(r, qs)
  {
    if value then Filter(qs, InVirtualRoom(rooms)) else Exclude(qs, InVirtualRoom(rooms))
  }

  /** The `true` and `false` answers split the queryset: every term is in exactly one, as often as in the input. */
  lemma FilterVirtualPartition(qs: seq<CourseGroupTerm>, rooms: seq<int>)
    ensures multiset(FilterVirtual(qs, true, rooms)) + multiset(FilterVirtual(qs, false, rooms)) == multiset(qs)
  {
    FilterExcludePartition(qs, InVirtualRoom(rooms));
  }

  /** With no virtual rooms configured, `virtual=true` finds nothing and `virtual=false` everything. */
  lemma FilterVirtualDefault(qs: seq<CourseGroupTerm>)
    ensures FilterVirtual(qs, true, DefaultVirtualRooms) == []
    ensures FilterVirtual(qs, false, DefaultVirtualRooms) == qs
  {
    FilterNothing(qs, InVirtualRoom(DefaultVirtualRooms));
  }
}
