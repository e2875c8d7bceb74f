/**
 * The ordering of Rust's `String` (byte-wise lexicographic on UTF-8, which is
 * lexicographic on code points), and the ascending enumeration of a finite set
 * of strings: the order in which a `BTreeMap<String, _>` or `BTreeSet<String>`
 * yields its keys.
 */
module StringOrder {

  /** `a < b` in Rust's `Ord for String`. */
  predicate Less(a: string, b: string)
    decreases |a|
  {
    if |a| == 0 then |b| > 0
    else if |b| == 0 then false
    else a[0] < b[0] || (a[0] == b[0] && Less(a[1..], b[1..]))
  }

  lemma {:induction false} LessIrreflexive(a: string)
    ensures !Less(a, a)
    decreases |a|
  {
    if |a| > 0 {
      LessIrreflexive(a[1..]);
    }
  }

  lemma {:induction false} LessTransitive(a: string, b: string, c: string)
    requires Less(a, b) && Less(b, c)
    ensures Less(a, c)
    decreases |a|
  {
    if |a| > 0 && a[0] == b[0] && b[0] == c[0] {
      LessTransitive(a[1..], b[1..], c[1..]);
    }
  }

  lemma {:induction false} LessTotal(a: string, b: string)
    requires a != b
    ensures Less(a, b) || Less(b, a)
    decreases |a|
  {
    if |a| > 0 && |b| > 0 && a[0] == b[0] {
      assert a == [a[0]] + a[1..] && b == [b[0]] + b[1..];
      LessTotal(a[1..], b[1..]);
    }
  }

  lemma LessAsymmetric(a: string, b: string)
    requires Less(a, b)
    ensures !Less(b, a)
  {
    if Less(b, a) {
      LessTransitive(a, b, a);
      LessIrreflexive(a);
    }
  }

  /** `m` is the least element of `s`. */
  predicate IsLeast(m: string, s: set<string>) {
    m in s && forall x | x in s && x != m :: Less(m, x)
  }

  lemma {:induction false} LeastExists(s: set<string>)
    requires s != {}
    ensures exists m :: IsLeast(m, s)
    decreases |s|
  {
    var x :| x in s;
    if s == {x} {
      assert IsLeast(x, s);
    } else {
      LeastExists(s - {x});
      var m :| IsLeast(m, s - {x});
      if Less(x, m) {
        forall y | y in s && y != x
          ensures Less(x, y)
        {
          if y != m {
            LessTransitive(x, m, y);
          }
        }
        assert IsLeast(x, s);
      } else {
        LessTotal(x, m);
        assert IsLeast(m, s);
      }
    }
  }

  lemma LeastUnique(s: set<string>)
    ensures forall m1, m2 :: IsLeast(m1, s) && IsLeast(m2, s) ==> m1 == m2
  {
    forall m1, m2 | IsLeast(m1, s) && IsLeast(m2, s)
      ensures m1 == m2
    {
      if m1 != m2 {
        LessAsymmetric(m1, m2);
      }
    }
  }

  /** The least element of a non-empty set of strings. */
  function Least(s: set<string>): (m: string)
    requires s != {}
    ensures IsLeast(m, s)
  {
    LeastExists(s);
    LeastUnique(s);
    var m :| m in s && IsLeast(m, s);
    m
  }

  /** Every element strictly below every later one: ascending, with no repeats. */
  predicate StrictlyIncreasing(r: seq<string>) {
    forall i, j | 0 <= i < j < |r| :: Less(r[i], r[j])
  }

  /** The elements of `s` in the order a B-tree yields them. */
  function SortedElements(s: set<string>): (r: seq<string>)
    ensures StrictlyIncreasing(r)
    ensures forall x :: x in r <==> x in s
    ensures |r| == |s|
    decreases |s|
  {
    if s == {} then []
    else
      var m := Least(s);
      var rest := SortedElements(s - {m});
      assert forall k | 0 <= k < |rest| :: Less(m, rest[k]) by {
        forall k | 0 <= k < |rest|
          ensures Less(m, rest[k])
        {
          assert rest[k] in rest;
        }
      }
      [m] + rest
  }

  /** A non-empty set enumerates as its least element followed by the rest. */
  lemma SortedElementsStep(s: set<string>)
    requires s != {}
    ensures SortedElements(s) == [Least(s)] + SortedElements(s - {Least(s)})
  {
  }

  /**
   * The ascending enumeration is unique: any strictly increasing sequence
   * holding exactly the elements of `s` is `SortedElements(s)`.
   */
  lemma {:induction false} SortedElementsUnique(s: set<string>, q: seq<string>)
    requires StrictlyIncreasing(q)
    requires forall x :: x in q <==> x in s
    ensures q == SortedElements(s)
    decreases |q|
  {
    if q == [] {
      assert s == {};
    } else {
      assert q[0] in s;
      var m := Least(s);
      assert q[0] == m by {
        assert q[0] in s;
        if q[0] != m {
          var k :| 0 <= k < |q| && q[k] == m;
          assert k > 0;
          assert Less(q[0], m);
          LessAsymmetric(q[0], m);
        }
      }
      forall x
        ensures x in q[1..] <==> x in s - {m}
      {
        if x in q[1..] {
          var k :| 1 <= k < |q| && q[k] == x;
          if x == m {
            assert Less(q[0], q[k]);
            LessIrreflexive(m);
          }
        }
        if x in s - {m} {
          var k :| 0 <= k < |q| && q[k] == x;
          assert k != 0;
          assert q[1..][k - 1] == x;
        }
      }
      SortedElementsUnique(s - {m}, q[1..]);
      assert q == [m] + q[1..];
    }
  }
}
