/**
 * Querysets and result sets as sequences of records: `filter`/`exclude`
 * (a WHERE clause) and a LEFT JOIN, with what they keep and drop.
 */
module Query {
  import opened Wrappers

  /** `a` can be obtained from `b` by deleting elements, keeping the order. */
  predicate IsSubsequence<T(==)>(a: seq<T>, b: seq<T>)
    decreases |b|
  {
    a == [] || (b != [] && ((a[0] == b[0] && IsSubsequence(a[1..], b[1..])) || IsSubsequence(a, b[1..])))
  }

  lemma {:induction false} IsSubsequenceReflexive<T>(s: seq<T>)
    ensures IsSubsequence(s, s)
  {
    if s != [] {
      IsSubsequenceReflexive(s[1..]);
    }
  }

  /** `queryset.filter(p)`: the records satisfying `p`, in queryset order. */
  function Filter<T(!new)>(s: seq<T>, p: T -> bool): (r: seq<T>)
    ensures forall x :: x in r <==> x in s && p(x)
    ensures IsSubsequence(r, s)
    ensures |r| <= |s|
  {
    if s == [] then []
    else if p(s[0]) then [s[0]] + Filter(s[1..], p)
    else Filter(s[1..], p)
  }

  function Not<T>(p: T -> bool): T -> bool {
    x => !p(x)
  }

  /** `queryset.exclude(p)`: the records not satisfying `p`, in queryset order. */
  function Exclude<T(!new)>(s: seq<T>, p: T -> bool): (r: seq<T>)
    ensures forall x :: x in r <==> x in s && !p(x)
    ensures IsSubsequence(r, s)
  {
    Filter(s, Not(p))
  }

  /** Every record lands in exactly one of `filter(p)` and `exclude(p)`, with its multiplicity. */
  lemma {:induction false} FilterExcludePartition<T(!new)>(s: seq<T>, p: T -> bool)
    ensures multiset(Filter(s, p)) + multiset(Exclude(s, p)) == multiset(s)
  {
    if s != [] {
      FilterExcludePartition(s[1..], p);
      assert s == [s[0]] + s[1..];
      assert multiset(s) == multiset{s[0]} + multiset(s[1..]);
    }
  }

  /** A predicate that never holds filters everything away. */
  lemma {:induction false} FilterNothing<T(!new)>(s: seq<T>, p: T -> bool)
    requires forall x :: x in s ==> !p(x)
    ensures Filter(s, p) == [] && Exclude(s, p) == s
  {
    if s != [] {
      FilterNothing(s[1..], p);
      assert s == [s[0]] + s[1..];
    }
  }

  /** A predicate that holds everywhere keeps everything. */
  lemma {:induction false} FilterAll<T(!new)>(s: seq<T>, p: T -> bool)
    requires forall x :: x in s ==> p(x)
    ensures Filter(s, p) == s
  {
    if s != [] {
      FilterAll(s[1..], p);
      assert s == [s[0]] + s[1..];
    }
  }

  /** Predicates that agree on the records give the same result. */
  lemma {:induction false} FilterCongruent<T(!new)>(s: seq<T>, p: T -> bool, q: T -> bool)
    requires forall x :: x in s ==> p(x) == q(x)
    ensures Filter(s, p) == Filter(s, q)
  {
    if s != [] {
      assert forall x :: x in s[1..] ==> x in s;
      FilterCongruent(s[1..], p, q);
    }
  }

  /** The rows of the right-hand side that `a` joins with, in their order. */
  function Matches<A, B(!new)>(a: A, right: seq<B>, on: (A, B) -> bool): seq<B> {
    Filter(right, b => on(a, b))
  }

  /** The rows one left-hand row contributes to a LEFT JOIN: one per match, or one NULL-extended row. */
  function JoinRow<A, B(!new), R>(a: A, right: seq<B>, on: (A, B) -> bool, project: (A, Option<B>) -> R): (r: seq<R>)
    ensures |r| == if Matches(a, right, on) == [] then 1 else |Matches(a, right, on)|
  {
    var ms := Matches(a, right, on);
    if ms == [] then [project(a, None)]
    else seq(|ms|, i requires 0 <= i < |ms| => project(a, Some(ms[i])))
  }

  /** `left LEFT JOIN right ON on`, each result row built by `project`. */
  function LeftJoin<A, B(!new), R>(left: seq<A>, right: seq<B>, on: (A, B) -> bool, project: (A, Option<B>) -> R): seq<R>
  {
    if left == [] then [] else JoinRow(left[0], right, on, project) + LeftJoin(left[1..], right, on, project)
  }

  /**
   * What a LEFT JOIN yields: a left row with no partner appears once,
   * extended with NULL; a left row with partners appears once with each of
   * them; nothing else appears.
   */
  lemma {:induction false} LeftJoinMembership<A, B(!new), R>(left: seq<A>, right: seq<B>, on: (A, B) -> bool, project: (A, Option<B>) -> R, x: R)
    ensures x in LeftJoin(left, right, on, project) <==>
      exists a :: a in left &&
        ((Matches(a, right, on) == [] && x == project(a, None)) ||
         (exists b :: b in right && on(a, b) && x == project(a, Some(b))))
  {
    if left != [] {
      LeftJoinMembership(left[1..], right, on, project, x);
      var a := left[0];
      var ms := Matches(a, right, on);
      var head := JoinRow(a, right, on, project);
      if ms != [] {
        if x in head {
          var i :| 0 <= i < |head| && head[i] == x;
          assert ms[i] in ms;
        }
        if exists b :: b in right && on(a, b) && x == project(a, Some(b)) {
          var b :| b in right && on(a, b) && x == project(a, Some(b));
          assert b in ms;
          var i :| 0 <= i < |ms| && ms[i] == b;
          assert head[i] == x;
        }
      } else {
        assert forall b :: b in right && on(a, b) ==> b in ms;
      }
      assert forall a' :: a' in left <==> a' == a || a' in left[1..];
    }
  }

  /** Every left-hand row survives a LEFT JOIN. */
  lemma LeftJoinKeepsLeft<A, B(!new), R>(left: seq<A>, right: seq<B>, on: (A, B) -> bool, project: (A, Option<B>) -> R, a: A)
    requires a in left
    ensures Matches(a, right, on) == [] ==> project(a, None) in LeftJoin(left, right, on, project)
    ensures forall b :: b in right && on(a, b) ==> project(a, Some(b)) in LeftJoin(left, right, on, project)
  {
    LeftJoinMembership(left, right, on, project, project(a, None));
    forall b | b in right && on(a, b) ensures project(a, Some(b)) in LeftJoin(left, right, on, project) {
      LeftJoinMembership(left, right, on, project, project(a, Some(b)));
    }
  }
}
