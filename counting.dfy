/** Cardinality facts used by the rejection-sampling loops (fruit spawner, digit draw). */
module Counting {

  /** The elements of a sequence, as a set. */
  function Elements<T>(s: seq<T>): (r: set<T>)
    ensures forall i :: 0 <= i < |s| ==> s[i] in r
    ensures forall x :: x in r ==> x in s
  {
    set i | 0 <= i < |s| :: s[i]
  }

  /** A sequence has at least as many positions as distinct elements. */
  lemma {:induction false} ElementsBound<T>(s: seq<T>)
    ensures |Elements(s)| <= |s|
  {
    if s != [] {
      var t := s[..|s| - 1];
      ElementsBound(t);
      assert Elements(s) == Elements(t) + {s[|s| - 1]} by {
        forall x | x in Elements(s) ensures x in Elements(t) + {s[|s| - 1]} {
          var i :| 0 <= i < |s| && s[i] == x;
          if i < |s| - 1 {
            assert t[i] == x;
          }
        }
        forall x | x in Elements(t) + {s[|s| - 1]} ensures x in Elements(s) {
          if x in Elements(t) {
            var i :| 0 <= i < |t| && t[i] == x;
            assert s[i] == x;
          }
        }
      }
    }
  }

  /** A subset is no larger than its superset. */
  lemma SubsetBound<T>(a: set<T>, b: set<T>)
    requires a <= b
    ensures |a| <= |b|
  {
    assert b == a + (b - a);
  }

  /** If a set has more elements than a sequence has positions, some element
      of the set is missing from the sequence. */
  lemma Pigeonhole<T>(a: set<T>, s: seq<T>)
    requires |a| > |s|
    ensures exists x :: x in a && x !in s
  {
    ElementsBound(s);
    if forall x :: x in a ==> x in s {
      assert a <= Elements(s);
      SubsetBound(a, Elements(s));
      assert false;
    }
  }
}
