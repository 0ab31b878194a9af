/**
 * The records the read side serves: rows of the `campusonline_person`,
 * `campusonline_student`, `campusonline_coursegroupterm` and
 * `campusonline_event` views, reduced to the columns the modelled rules
 * look at. A nullable column is an `Option`.
 */
module Records {
  import opened Wrappers
  import opened Text

  type Bytes = seq<bv8>

  /** A row of `campusonline_person`. */
  datatype Person = Person(
    id: int,
    firstName: Option<string>,
    lastName: Option<string>,
    title: Option<string>,
    username: Option<string>,
    email: Option<string>,
    sex: Option<string>,
    mobile: Option<string>,
    room: Option<int>,
    avatarPrivate: Option<Bytes>,
    hash: Option<string>,
    employed: bool)

  /** A row of `campusonline_student`. */
  datatype Student = Student(
    id: int,
    firstName: string,
    lastName: string,
    title: Option<string>,
    username: Option<string>,
    email: string,
    immunized: bool)

  /** A row of `campusonline_coursegroupterm`; the room is optional. */
  datatype CourseGroupTerm = CourseGroupTerm(id: string, term: int, room: Option<int>)

  /** A row of `campusonline_event`; instants are seconds since the epoch. */
  datatype Event = Event(id: int, start: int, end: int, showEnd: int)

  /** Python truthiness of an optional string: neither None nor "". */
  predicate Truthy(s: Option<string>) {
    s.Some? && s.value != ""
  }

  /**
   * `Student.display`: the title, when there is a non-empty one, then the
   * first and the last name, separated by single spaces.
   */
  function Display(s: Student): (r: string)
    ensures |s.firstName| + 1 + |s.lastName| <= |r|
    ensures Truthy(s.title) <==> |r| > |s.firstName| + 1 + |s.lastName|
    ensures Truthy(s.title) ==> |s.title.value| < |r| && r[..|s.title.value|] == s.title.value
  {
    if Truthy(s.title) then s.title.value + " " + s.firstName + " " + s.lastName
    else s.firstName + " " + s.lastName
  }

  /**
   * Reading `display` back: it always ends in "first last", and the part
   * in front of that is either nothing (no title) or the title and a space.
   */
  lemma DisplayParts(s: Student)
    ensures var name := s.firstName + " " + s.lastName;
      var d := Display(s);
      |name| <= |d| && d[|d| - |name|..] == name &&
      (Truthy(s.title) <==> |d| > |name|) &&
      (Truthy(s.title) ==> d[..|d| - |name|] == s.title.value + " ")
  {
    var name := s.firstName + " " + s.lastName;
    if Truthy(s.title) {
      var d := Display(s);
      assert d == (s.title.value + " ") + name;
    }
  }

  /** Students with the same names and equal `display` carry the same title, or none: the title is recoverable. */
  lemma DisplayDeterminesTitle(s: Student, t: Student)
    requires s.firstName == t.firstName && s.lastName == t.lastName
    requires Display(s) == Display(t)
    ensures Truthy(s.title) <==> Truthy(t.title)
    ensures Truthy(s.title) ==> s.title == t.title
  {
    DisplayParts(s);
    DisplayParts(t);
    if Truthy(s.title) {
      var a, b := s.title.value, t.title.value;
      assert a + " " == b + " ";
      assert a == (a + " ")[..|a|];
      assert b == (b + " ")[..|b|];
    }
  }
}
