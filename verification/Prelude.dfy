/** Small shared vocabulary: optional values and the few sequence facts several modules need. */
module Prelude {

  datatype Option<+T> = None | Some(value: T)

  datatype Result<+T> = Ok(value: T) | Err(reason: string)

  /** Elements of `xs` that are not in `seen`, each kept at its first occurrence only. */
  function FirstOccurrences<T(==)>(xs: seq<T>, seen: set<T>): (r: seq<T>)
  {
    if xs == [] then []
    else if xs[0] in seen then FirstOccurrences(xs[1..], seen)
    else [xs[0]] + FirstOccurrences(xs[1..], seen + {xs[0]})
  }

  ghost predicate Distinct<T>(xs: seq<T>) {
    forall i, j :: 0 <= i < j < |xs| ==> xs[i] != xs[j]
  }

  function Concat<T>(xss: seq<seq<T>>): seq<T> {
    if xss == [] then [] else xss[0] + Concat(xss[1..])
  }

  lemma {:induction false} ConcatSnoc<T>(xss: seq<seq<T>>, xs: seq<T>)
    ensures Concat(xss + [xs]) == Concat(xss) + xs
  {
    if xss == [] {
      assert xss + [xs] == [xs] && [xs][1..] == [];
    } else {
      assert (xss + [xs])[1..] == xss[1..] + [xs];
      ConcatSnoc(xss[1..], xs);
    }
  }

  function Sum(xs: seq<nat>): nat {
    if xs == [] then 0 else xs[0] + Sum(xs[1..])
  }

  lemma {:induction false} SumBound(xs: seq<nat>, most: nat)
    requires forall i :: 0 <= i < |xs| ==> xs[i] <= most
    ensures Sum(xs) <= |xs| * most
  {
    if xs == [] {
    } else {
      forall i | 0 <= i < |xs[1..]| ensures xs[1..][i] <= most { assert xs[1..][i] == xs[i + 1]; }
      SumBound(xs[1..], most);
    }
  }

  lemma Pick<T>(s: set<T>) returns (x: T)
    requires s != {}
    ensures x in s
  {
    x :| x in s;
  }

  lemma {:induction false} FreshInt(used: set<int>) returns (unused: int)
    ensures unused !in used
    ensures forall x :: x in used ==> x < unused
  {
    if used == {} {
      unused := 0;
    } else {
      var x := Pick(used);
      var below := FreshInt(used - {x});
      unused := if x < below then below else x + 1;
      forall y | y in used ensures y < unused { if y != x { assert y in used - {x}; } }
    }
  }
}
