/** MiscExtenders: distinctness of a sequence, checked with a hash set. */
module MiscExtenders {

  /** No value occurs twice. */
  ghost predicate Distinct<T>(s: seq<T>)
  {
    forall i, j :: 0 <= i < j < |s| ==> s[i] != s[j]
  }

  /**
   * `IsDistinct`: adds every element to a set and stops at the first one
   * already present. (The `IEnumerable` and `List` overloads only differ in
   * the initial set capacity.)
   */
  method IsDistinct<T(==)>(that: seq<T>) returns (r: bool)
    ensures r <==> Distinct(that)
  {
    var hashSet: set<T> := {};
    var i := 0;
    while i < |that|
      invariant 0 <= i <= |that|
      invariant hashSet == set j | 0 <= j < i :: that[j]
      invariant Distinct(that[..i])
    {
      if that[i] in hashSet {
        var j :| 0 <= j < i && that[j] == that[i];
        return false;
      }
      hashSet := hashSet + {that[i]};
      i := i + 1;
    }
    assert that[..i] == that;
    return true;
  }

  /** The set of elements of `s`. */
  ghost function Elements<T>(s: seq<T>): set<T>
  {
    set x | x in s
  }

  /** Reference reading: a sequence is distinct iff its set of elements is as large as it is. */
  lemma {:induction false} DistinctIffNoCollapse<T>(s: seq<T>)
    ensures |Elements(s)| <= |s|
    ensures Distinct(s) <==> |Elements(s)| == |s|
    decreases |s|
  {
    if s != [] {
      var t := s[1..];
      DistinctIffNoCollapse(t);
      assert Elements(s) == Elements(t) + {s[0]} by {
        forall x | x in Elements(s) ensures x in Elements(t) + {s[0]} {
          var k :| 0 <= k < |s| && s[k] == x;
          if k > 0 {
            assert t[k - 1] == x;
          }
        }
      }
      if s[0] in t {
        var k :| 0 <= k < |t| && t[k] == s[0];
        assert s[k + 1] == s[0];
        assert !Distinct(s);
        assert Elements(s) == Elements(t);
      } else {
        assert |Elements(s)| == |Elements(t)| + 1;
        assert Distinct(s) <==> Distinct(t) by {
          if Distinct(t) {
            forall i, j | 0 <= i < j < |s| ensures s[i] != s[j] {
              if i > 0 {
                assert s[i] == t[i - 1] && s[j] == t[j - 1];
              } else {
                assert s[j] == t[j - 1];
              }
            }
          }
          if Distinct(s) {
            forall i, j | 0 <= i < j < |t| ensures t[i] != t[j] {
              assert t[i] == s[i + 1] && t[j] == s[j + 1];
            }
          }
        }
      }
    }
  }
}
