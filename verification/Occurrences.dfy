/** The order in which strings first appear in a list. */
module Occurrences {

  /** The position at which `x` first appears, or the length. */
  function First(values: seq<string>, x: string): (k: nat)
    ensures k <= |values| && x !in values[..k] && (k < |values| ==> values[k] == x)
  {
    if values == [] || values[0] == x then 0
    else
      var k := First(values[1..], x);
      assert values[..1 + k] == [values[0]] + values[1..][..k];
      1 + k
  }

  /** In the order of first appearance, without repetition. */
  ghost predicate Ordered(values: seq<string>, r: seq<string>) {
    forall i, j | 0 <= i < j < |r| :: First(values, r[i]) < First(values, r[j])
  }

  lemma {:induction false} FirstExtends(values: seq<string>, v: string, x: string)
    ensures First(values + [v], x) ==
              if x in values then First(values, x) else if x == v then |values| else |values| + 1
  {
    if values == [] {
      assert values + [v] == [v];
    } else {
      assert (values + [v])[1..] == values[1..] + [v];
      FirstExtends(values[1..], v, x);
    }
  }

  lemma OrderedExtends(values: seq<string>, v: string, r: seq<string>)
    requires Ordered(values, r) && forall x | x in r :: x in values
    ensures Ordered(values + [v], r)
    ensures v !in values ==> Ordered(values + [v], r + [v])
  {
    forall x ensures x in values ==> First(values + [v], x) == First(values, x) < |values| {
      FirstExtends(values, v, x);
    }
    FirstExtends(values, v, v);
    forall i, j | 0 <= i < j < |r| ensures First(values + [v], r[i]) < First(values + [v], r[j]) {
      assert r[i] in values && r[j] in values;
    }
  }
}
