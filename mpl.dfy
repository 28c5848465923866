/** The value-level content of the metaprogramming library: the search and count
    helpers over a list of booleans, and the metafunctions that evaluate a quoted
    predicate on every element of a type list and hand the results to them.
    A type list is a sequence, a quoted predicate a total function to `bool`,
    and a projection a function applied to each element before the predicate. */
module Mpl {

  // ---------------------------------------------------------------------------
  // Helpers over a list of booleans
  // ---------------------------------------------------------------------------

  /** Recursive form of find_first_true_helper: 0 at the end or on a `true`,
      otherwise one more than the result for the rest. */
  function FindFirstTrue(values: seq<bool>): (r: nat)
    ensures r <= |values|
    ensures forall j :: 0 <= j < r ==> !values[j]
    ensures r < |values| ==> values[r]
  {
    if |values| == 0 || values[0] then 0 else 1 + FindFirstTrue(values[1..])
  }

  /** Recursive form of count_true_helper: each element adds 1 if it is `true`. */
  function CountTrue(values: seq<bool>): (r: nat)
    ensures r <= |values|
    ensures r == multiset(values)[true]
  {
    if |values| == 0 then 0
    else
      assert values == [values[0]] + values[1..];
      (if values[0] then 1 else 0) + CountTrue(values[1..])
  }

  /** Loop form of find_first_true_helper: step over the leading `false`s. */
  method FindFirstTrueIterative(values: seq<bool>) returns (i: nat)
    ensures i == FindFirstTrue(values)
  {
    i := 0;
    while i < |values| && !values[i]
      invariant i <= |values|
      invariant forall j :: 0 <= j < i ==> !values[j]
    {
      i := i + 1;
    }
  }

  /** Loop form of count_true_helper: add every element, as 0 or 1, to `n`. */
  method CountTrueIterative(values: seq<bool>) returns (n: nat)
    ensures n == CountTrue(values)
  {
    n := 0;
    var k := 0;
    while k < |values|
      invariant k <= |values|
      invariant n == multiset(values[..k])[true]
    {
      assert values[..k + 1] == values[..k] + [values[k]];
      n := n + if values[k] then 1 else 0;
      k := k + 1;
    }
    assert values[..k] == values;
  }

  /** No `true` in the list exactly when the search runs to the end. */
  lemma FindFirstTrueAtEnd(values: seq<bool>)
    ensures FindFirstTrue(values) == |values| <==> true !in values
  {
  }

  /** The count is zero exactly when there is no `true`, and it is the length
      exactly when every element is `true`. */
  lemma {:induction false} CountTrueExtremes(values: seq<bool>)
    ensures CountTrue(values) == 0 <==> true !in values
    ensures CountTrue(values) == |values| <==> false !in values
  {
    if |values| > 0 {
      CountTrueExtremes(values[1..]);
      assert values == [values[0]] + values[1..];
    }
  }

  /** The count is the number of positions holding `true`. */
  lemma {:induction false} CountTrueCardinality(values: seq<bool>)
    ensures CountTrue(values) == |set i | 0 <= i < |values| && values[i]|
  {
    if |values| > 0 {
      var n := |values| - 1;
      var init := values[..n];
      CountTrueCardinality(init);
      assert values == init + [values[n]];
      assert multiset(values) == multiset(init) + multiset([values[n]]);
      var s := set i | 0 <= i < |init| && init[i];
      assert (set i | 0 <= i < |values| && values[i]) == if values[n] then s + {n} else s;
    }
  }

  // ---------------------------------------------------------------------------
  // Metafunctions over a type list
  // ---------------------------------------------------------------------------

  /** The identity projection, the default `ProjectQ` of finds, counts and contains. */
  function Identity<T>(x: T): T { x }

  /** bind_front<is_same, Type>: the predicate "is the same type as `t`". */
  function IsType<T(==,!new)>(t: T): (p: T -> bool)
    ensures forall x :: p(x) <==> x == t
  {
    x => x == t
  }

  /** The pack expansion `{PredicateQ::fn<ProjectQ::fn<T>>::value...}`. */
  function Evaluate<T, U>(pack: seq<T>, pred: U -> bool, project: T -> U): (values: seq<bool>)
    ensures |values| == |pack|
    ensures forall i :: 0 <= i < |pack| ==> values[i] == pred(project(pack[i]))
  {
    seq(|pack|, i requires 0 <= i < |pack| => pred(project(pack[i])))
  }

  /** finds: index of the first element whose projection satisfies the predicate,
      or the length of the list when none does. */
  function Finds<T, U>(pack: seq<T>, pred: U -> bool, project: T -> U): (r: nat)
    ensures r <= |pack|
    ensures forall j :: 0 <= j < r ==> !pred(project(pack[j]))
    ensures r < |pack| ==> pred(project(pack[r]))
  {
    FindFirstTrue(Evaluate(pack, pred, project))
  }

  /** counts: the number of elements whose projection satisfies the predicate. */
  function Counts<T, U>(pack: seq<T>, pred: U -> bool, project: T -> U): (r: nat)
    ensures r == |set i | 0 <= i < |pack| && pred(project(pack[i]))|
    ensures r <= |pack|
    ensures r == 0 <==> forall i :: 0 <= i < |pack| ==> !pred(project(pack[i]))
    ensures r == |pack| <==> forall i :: 0 <= i < |pack| ==> pred(project(pack[i]))
  {
    var values := Evaluate(pack, pred, project);
    CountTrueExtremes(values);
    CountTrueCardinality(values);
    assert (set i | 0 <= i < |values| && values[i]) == (set i | 0 <= i < |pack| && pred(project(pack[i])));
    CountTrue(values)
  }

  /** contains: the count, converted to bool. */
  function Contains<T, U>(pack: seq<T>, has: U -> bool, project: T -> U): (r: bool)
    ensures r <==> exists i :: 0 <= i < |pack| && has(project(pack[i]))
  {
    Counts(pack, has, project) != 0
  }

  /** check_if_has: contains over a trait; the projection defaults to `Identity`. */
  function CheckIfHas<T, U>(pack: seq<T>, has: U -> bool, project: T -> U): (r: bool)
    ensures r <==> exists i :: 0 <= i < |pack| && has(project(pack[i]))
  {
    Contains(pack, has, project)
  }

  /** check_if_has_not: the negation of check_if_has, with the same projection. */
  function CheckIfHasNot<T, U>(pack: seq<T>, has: U -> bool, project: T -> U): (r: bool)
    ensures r <==> forall i :: 0 <= i < |pack| ==> !has(project(pack[i]))
  {
    !CheckIfHas(pack, has, project)
  }

  /** finds_if_has_type: position of the first element whose projection is `t`,
      or the length; the projection defaults to `Identity`. */
  function FindsIfHasType<T, U(==,!new)>(pack: seq<T>, t: U, project: T -> U): (r: nat)
    ensures r <= |pack|
    ensures r < |pack| <==> exists i :: 0 <= i < |pack| && project(pack[i]) == t
    ensures r < |pack| ==> project(pack[r]) == t
    ensures forall j :: 0 <= j < r ==> project(pack[j]) != t
  {
    Finds(pack, IsType(t), project)
  }

  /** check_if_has_type: whether some element's projection is `t`; the projection
      defaults to `Identity`. */
  function CheckIfHasType<T, U(==,!new)>(pack: seq<T>, t: U, project: T -> U): (r: bool)
    ensures r <==> exists i :: 0 <= i < |pack| && project(pack[i]) == t
  {
    Contains(pack, IsType(t), project)
  }

  /** A search succeeds exactly when the count is positive. */
  lemma FindsIffContains<T, U>(pack: seq<T>, pred: U -> bool, project: T -> U)
    ensures Finds(pack, pred, project) < |pack| <==> Contains(pack, pred, project)
  {
  }

  /** Unfolding finds at the head of a list: 0 when the head matches,
      otherwise one more than the position found in the tail. */
  lemma FindsCons<T, U>(x: T, rest: seq<T>, pred: U -> bool, project: T -> U)
    ensures Finds([x] + rest, pred, project)
            == if pred(project(x)) then 0 else 1 + Finds(rest, pred, project)
  {
    var values := Evaluate([x] + rest, pred, project);
    assert values[1..] == Evaluate(rest, pred, project);
  }

  /** counts is additive over concatenation of type lists. */
  lemma CountsAppend<T, U>(a: seq<T>, b: seq<T>, pred: U -> bool, project: T -> U)
    ensures Counts(a + b, pred, project) == Counts(a, pred, project) + Counts(b, pred, project)
  {
    assert Evaluate(a + b, pred, project) == Evaluate(a, pred, project) + Evaluate(b, pred, project);
  }

  /** A projection can be applied to the list first and the identity used after it. */
  lemma ProjectionFirst<T, U>(pack: seq<T>, pred: U -> bool, project: T -> U)
    ensures Finds(pack, pred, project) == Finds(Projected(pack, project), pred, Identity)
    ensures Counts(pack, pred, project) == Counts(Projected(pack, project), pred, Identity)
  {
    assert Evaluate(pack, pred, project) == Evaluate(Projected(pack, project), pred, Identity);
  }

  /** The list of projected elements `ProjectQ::fn<T>...`. */
  function Projected<T, U>(pack: seq<T>, project: T -> U): (r: seq<U>)
    ensures |r| == |pack|
    ensures forall i :: 0 <= i < |pack| ==> r[i] == project(pack[i])
  {
    seq(|pack|, i requires 0 <= i < |pack| => project(pack[i]))
  }
}
