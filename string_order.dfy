/** The order in which a sorted string set (a skip-list set of URLs) hands out its
    elements: String.compareTo, i.e. lexicographic order on characters, with a
    proper prefix before any of its extensions. */
module StringOrder {

  /** a.compareTo(b) < 0 */
  predicate Less(a: string, b: string)
    ensures |a| < |b| && a == b[..|a|] ==> Less(a, b)
    ensures Less(a, b) && a != [] && b != [] && a[0] != b[0] ==> a[0] < b[0]
    ensures b == [] ==> !Less(a, b)
    decreases |a|
  {
    if |a| == 0 then |b| > 0
    else if |b| == 0 then false
    else if a[0] != b[0] then a[0] < b[0]
    else Less(a[1..], b[1..])
  }

  /** compareTo's two cases in full: when one string is a prefix of the other the shorter
      comes first, and otherwise the characters at the first position where they differ
      decide. */
  lemma {:induction false} LessCases(a: string, b: string)
    ensures |a| <= |b| && a == b[..|a|] ==> (Less(a, b) <==> |a| < |b|)
    ensures forall k :: 0 <= k < |a| && k < |b| && a[..k] == b[..k] && a[k] != b[k] ==>
              (Less(a, b) <==> a[k] < b[k])
    decreases |a|
  {
    if |a| > 0 && |b| > 0 {
      if a[0] == b[0] {
        LessCases(a[1..], b[1..]);
        if |a| <= |b| && a == b[..|a|] {
          assert a[1..] == b[1..][..|a| - 1];
        }
        forall k | 0 < k < |a| && k < |b| && a[..k] == b[..k] && a[k] != b[k]
          ensures Less(a, b) <==> a[k] < b[k]
        {
          assert a[1..][..k - 1] == a[..k][1..] && b[1..][..k - 1] == b[..k][1..];
          assert a[1..][k - 1] == a[k] && b[1..][k - 1] == b[k];
        }
      }
    }
  }

  lemma {:induction false} LessIrreflexive(a: string)
    ensures !Less(a, a)
    decreases |a|
  {
    if |a| > 0 {
      LessIrreflexive(a[1..]);
    }
  }

  lemma {:induction false} LessTransitive(a: string, b: string, c: string)
    requires Less(a, b) && Less(b, c)
    ensures Less(a, c)
    decreases |a|
  {
    if |a| > 0 && a[0] == b[0] && b[0] == c[0] {
      LessTransitive(a[1..], b[1..], c[1..]);
    }
  }

  lemma {:induction false} LessTotal(a: string, b: string)
    requires a != b
    ensures Less(a, b) || Less(b, a)
    decreases |a|
  {
    if |a| > 0 && |b| > 0 && a[0] == b[0] {
      assert a == [a[0]] + a[1..] && b == [b[0]] + b[1..];
      LessTotal(a[1..], b[1..]);
    }
  }

  lemma LessAsymmetric(a: string, b: string)
    requires Less(a, b)
    ensures !Less(b, a)
  {
    if Less(b, a) {
      LessTransitive(a, b, a);
      LessIrreflexive(a);
    }
  }

  function Elements(s: seq<string>): set<string>
  {
    set x | x in s
  }

  /** Every earlier element is strictly below every later one: sorted and duplicate-free. */
  predicate StrictlyAscending(s: seq<string>)
  {
    forall i, j :: 0 <= i < j < |s| ==> Less(s[i], s[j])
  }

  lemma AscendingIsDistinct(s: seq<string>, i: nat, j: nat)
    requires StrictlyAscending(s) && i < j < |s|
    ensures s[i] != s[j]
  {
    LessIrreflexive(s[i]);
  }

  predicate IsLeast(m: string, xs: set<string>)
  {
    m in xs && forall y :: y in xs && y != m ==> Less(m, y)
  }

  lemma {:induction false} LeastExists(xs: set<string>)
    requires xs != {}
    ensures exists m :: IsLeast(m, xs)
    decreases |xs|
  {
    var x :| x in xs;
    if xs == {x} {
      assert IsLeast(x, xs);
    } else {
      assert exists y :: y in xs && y != x;
      var z :| z in xs && z != x;
      assert z in xs - {x};
      LeastExists(xs - {x});
      var m :| IsLeast(m, xs - {x});
      if Less(m, x) {
        assert IsLeast(m, xs);
      } else {
        assert m != x;
        LessTotal(m, x);
        forall y | y in xs && y != x
          ensures Less(x, y)
        {
          if y != m {
            assert y in xs - {x};
            LessTransitive(x, m, y);
          }
        }
        assert IsLeast(x, xs);
      }
    }
  }

  lemma LeastUnique(xs: set<string>)
    ensures forall a, b :: IsLeast(a, xs) && IsLeast(b, xs) ==> a == b
  {
    forall a, b | IsLeast(a, xs) && IsLeast(b, xs)
      ensures a == b
    {
      if a != b {
        LessAsymmetric(a, b);
      }
    }
  }

  /** The elements of a finite string set in ascending order: the copy a sorted set
      makes of itself. */
  function SortedElements(xs: set<string>): (r: seq<string>)
    ensures StrictlyAscending(r)
    ensures Elements(r) == xs
    ensures |r| == |xs|
    decreases |xs|
  {
    if xs == {} then []
    else
      LeastExists(xs);
      LeastUnique(xs);
      var m :| IsLeast(m, xs);
      var rest := SortedElements(xs - {m});
      LeastThenAscending(m, rest, xs);
      [m] + rest
  }

  lemma LeastThenAscending(m: string, rest: seq<string>, xs: set<string>)
    requires IsLeast(m, xs) && StrictlyAscending(rest) && Elements(rest) == xs - {m}
    ensures StrictlyAscending([m] + rest) && Elements([m] + rest) == xs
  {
    var r := [m] + rest;
    forall i, j | 0 <= i < j < |r| ensures Less(r[i], r[j]) {
      if i == 0 {
        assert r[j] == rest[j - 1] && r[j] in Elements(rest);
      } else {
        assert r[i] == rest[i - 1] && r[j] == rest[j - 1];
      }
    }
    assert r[0] == m;
    forall y ensures y in Elements(r) <==> y in xs {
      if y in xs && y != m {
        assert y in Elements(rest);
        var k :| 0 <= k < |rest| && rest[k] == y;
        assert r[k + 1] == y;
        assert y in r;
      }
      if y in Elements(r) && y != m {
        assert y in r;
        var k :| 0 <= k < |r| && r[k] == y;
        assert k > 0 && rest[k - 1] == y;
        assert y in Elements(rest);
      }
      if y == m {
        assert y in r;
      }
    }
  }

  /** A strictly ascending sequence is determined by its elements, so the sorted copy is
      the only sorted, duplicate-free listing of the set. */
  lemma {:induction false} AscendingUnique(a: seq<string>, b: seq<string>)
    requires StrictlyAscending(a) && StrictlyAscending(b)
    requires Elements(a) == Elements(b)
    ensures a == b
    decreases |a|
  {
    AscendingCount(a);
    AscendingCount(b);
    if |a| > 0 {
      var xs := Elements(a);
      assert IsLeast(a[0], xs) by {
        forall y | y in xs && y != a[0] ensures Less(a[0], y) {
          var k :| 0 <= k < |a| && a[k] == y;
        }
      }
      assert IsLeast(b[0], xs) by {
        forall y | y in xs && y != b[0] ensures Less(b[0], y) {
          var k :| 0 <= k < |b| && b[k] == y;
        }
      }
      LeastUnique(xs);
      assert Elements(a[1..]) == xs - {a[0]} by {
        forall y ensures y in Elements(a[1..]) <==> y in xs - {a[0]} {
          if y in Elements(a[1..]) {
            var k :| 1 <= k < |a| && a[k] == y;
            AscendingIsDistinct(a, 0, k);
          }
          if y in xs - {a[0]} {
            var k :| 0 <= k < |a| && a[k] == y;
            assert k != 0;
            assert a[1..][k - 1] == y;
          }
        }
      }
      assert Elements(b[1..]) == xs - {b[0]} by {
        forall y ensures y in Elements(b[1..]) <==> y in xs - {b[0]} {
          if y in Elements(b[1..]) {
            var k :| 1 <= k < |b| && b[k] == y;
            AscendingIsDistinct(b, 0, k);
          }
          if y in xs - {b[0]} {
            var k :| 0 <= k < |b| && b[k] == y;
            assert k != 0;
            assert b[1..][k - 1] == y;
          }
        }
      }
      AscendingUnique(a[1..], b[1..]);
      assert a == [a[0]] + a[1..] && b == [b[0]] + b[1..];
    }
  }

  lemma {:induction false} AscendingCount(s: seq<string>)
    requires StrictlyAscending(s)
    ensures |Elements(s)| == |s|
    decreases |s|
  {
    if |s| > 0 {
      AscendingCount(s[1..]);
      assert Elements(s) == Elements(s[1..]) + {s[0]};
      if s[0] in Elements(s[1..]) {
        var k :| 0 <= k < |s[1..]| && s[1..][k] == s[0];
        AscendingIsDistinct(s, 0, k + 1);
      }
    }
  }

  /** A sequence has at least as many positions as distinct elements. */
  lemma {:induction false} ElementsBound(s: seq<string>)
    ensures |Elements(s)| <= |s|
    decreases |s|
  {
    if |s| > 0 {
      ElementsBound(s[1..]);
      assert Elements(s) == Elements(s[1..]) + {s[0]};
    }
  }

  lemma {:induction false} SubsetBound(a: set<string>, b: set<string>)
    requires a <= b
    ensures |a| <= |b|
    decreases |a|
  {
    if a != {} {
      var x :| x in a;
      SubsetBound(a - {x}, b - {x});
    }
  }
}
