/** Facts about sequences of ids that the request checks rely on: a list
    of ids fetched with `IN (...)` comes back once per distinct id, so its
    length equals the request's only when the request has no repeats. */
module SeqFacts {

  /** No id occurs twice. */
  predicate Distinct<T(==)>(xs: seq<T>) {
    forall i, j :: 0 <= i < j < |xs| ==> xs[i] != xs[j]
  }

  /** The ids of a sequence, each once. */
  function Elems<T>(xs: seq<T>): set<T> {
    set x | x in xs
  }

  /** A sequence has at least as many positions as distinct elements, and
      exactly as many when it has no repeats. */
  lemma {:induction false} ElemsCard<T>(xs: seq<T>)
    ensures |Elems(xs)| <= |xs|
    ensures |Elems(xs)| == |xs| <==> Distinct(xs)
    decreases |xs|
  {
    if |xs| > 0 {
      var t := xs[1..];
      ElemsCard(t);
      assert Elems(xs) == {xs[0]} + Elems(t);
      if xs[0] in t {
        assert Elems(xs) == Elems(t);
        assert !Distinct(xs) by {
          var j :| 0 <= j < |t| && t[j] == xs[0];
          assert xs[0] == xs[j + 1];
        }
      } else {
        assert |Elems(xs)| == 1 + |Elems(t)|;
        if Distinct(t) {
          forall i, j | 0 <= i < j < |xs|
            ensures xs[i] != xs[j]
          {
            if i == 0 {
              assert xs[j] == t[j - 1];
            } else {
              assert xs[i] == t[i - 1] && xs[j] == t[j - 1];
            }
          }
        } else {
          var i, j :| 0 <= i < j < |t| && t[i] == t[j];
          assert xs[i + 1] == xs[j + 1];
        }
      }
    }
  }

  /** A subset is no larger than its superset. */
  lemma SubsetCard<T>(a: set<T>, b: set<T>)
    requires a <= b
    ensures |a| <= |b|
  {
    assert b == a + (b - a);
  }

  /** The ids of `xs` accepted by `keep` number `|xs|` exactly when `xs`
      has no repeats and every id is accepted. */
  lemma FilteredCard<T>(xs: seq<T>, found: set<T>, keep: T -> bool)
    requires found == set x | x in xs && keep(x)
    ensures |found| == |xs| <==> Distinct(xs) && forall k :: 0 <= k < |xs| ==> keep(xs[k])
  {
    ElemsCard(xs);
    assert found <= Elems(xs);
    SubsetCard(found, Elems(xs));
    if |found| == |xs| {
      forall k | 0 <= k < |xs|
        ensures keep(xs[k])
      {
        if !keep(xs[k]) {
          SubsetCard(found, Elems(xs) - {xs[k]});
        }
      }
    }
    if Distinct(xs) && forall k :: 0 <= k < |xs| ==> keep(xs[k]) {
      assert found == Elems(xs);
    }
  }
}
