/** Sequence helpers shared by the routes and the pages:
    `Array.prototype.findIndex` with a predicate, and removing duplicates. */
module Lists {
  import opened Wrappers

  /** The position of the first element satisfying `p`, or None (`-1`). */
  function FirstWhere<T>(xs: seq<T>, p: T -> bool): (r: Option<nat>)
    ensures r.Some? ==> r.value < |xs| && p(xs[r.value])
    ensures r.Some? ==> forall j :: 0 <= j < r.value ==> !p(xs[j])
    ensures r.None? <==> forall j :: 0 <= j < |xs| ==> !p(xs[j])
  {
    if xs == [] then None
    else if p(xs[0]) then Some(0)
    else
      var rest := FirstWhere(xs[1..], p);
      assert forall j :: 1 <= j < |xs| ==> xs[1..][j - 1] == xs[j];
      if rest.Some? then Some(rest.value + 1) else None
  }

  /** The first element satisfying `p` is the one `FirstWhere` finds. */
  lemma FirstWhereIs<T>(xs: seq<T>, p: T -> bool, i: nat)
    requires i < |xs| && p(xs[i])
    requires forall j :: 0 <= j < i ==> !p(xs[j])
    ensures FirstWhere(xs, p) == Some(i)
  {
  }

  /** The distinct values of `xs`: the values of `Array.from(new Set(xs))`,
      and of a database `distinct`. */
  function Distinct<T(==, !new)>(xs: seq<T>): (r: seq<T>)
    ensures forall x :: x in r <==> x in xs
    ensures forall i, j :: 0 <= i < j < |r| ==> r[i] != r[j]
  {
    if xs == [] then []
    else
      var rest := Distinct(xs[..|xs| - 1]);
      var last := xs[|xs| - 1];
      assert forall x :: x in xs <==> x in xs[..|xs| - 1] || x == last;
      if last in rest then rest else rest + [last]
  }
}
