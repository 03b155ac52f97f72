/** Removal from a list, as the generated lists of the source do it. */
module Lists {

  /** The elements without the first `x`; the others keep their order. */
  function Without<T(==)>(r: seq<T>, x: T): seq<T> {
    if r == [] then [] else if r[0] == x then r[1..] else [r[0]] + Without(r[1..], x)
  }

  ghost predicate Distinct<T>(r: seq<T>) {
    forall i, j :: 0 <= i < j < |r| ==> r[i] != r[j]
  }

  lemma {:induction false} WithoutIs<T>(r: seq<T>, x: T)
    requires Distinct(r)
    ensures Distinct(Without(r, x))
    ensures forall y :: y in Without(r, x) <==> y in r && y != x
  {
    if r != [] {
      var rest := r[1..];
      assert forall i :: 0 <= i < |rest| ==> rest[i] == r[i + 1];
      assert r == [r[0]] + rest;
      if r[0] == x {
        assert forall y :: y in rest <==> y in r && y != x;
      } else {
        WithoutIs(rest, x);
        assert r[0] !in rest;
        assert forall y :: y in Without(r, x) <==> y == r[0] || y in Without(rest, x);
        var w := Without(r, x);
        forall i, j | 0 <= i < j < |w| ensures w[i] != w[j] {
          if i == 0 {
            assert w[j] in Without(rest, x);
          }
        }
      }
    }
  }

  /** Where `x` stands first. */
  ghost function Place<T>(r: seq<T>, x: T): (k: nat)
    requires x in r
    ensures k < |r| && r[k] == x && forall j :: 0 <= j < k ==> r[j] != x
  {
    if r[0] == x then 0 else Place(r[1..], x) + 1
  }

  lemma {:induction false} WithoutAt<T>(r: seq<T>, x: T)
    requires x in r
    ensures Without(r, x) == r[..Place(r, x)] + r[Place(r, x) + 1..]
  {
    if r[0] != x {
      WithoutAt(r[1..], x);
      assert x in r[1..];
    }
  }
}
