/**
  The order in which `std::set<std::string>` iterates: lexicographic on
  characters, a proper prefix coming first. The kernel depends on it when a
  removed current world is replaced by the first remaining one and when group
  operators render their members.
*/
module LexOrder {

  /** `a` sorts at or before `b`. */
  predicate Le(a: string, b: string)
  {
    |a| == 0 || (|b| > 0 && (a[0] < b[0] || (a[0] == b[0] && Le(a[1..], b[1..]))))
  }

  /** `a` sorts strictly before `b`. */
  predicate Lt(a: string, b: string)
  {
    Le(a, b) && a != b
  }

  lemma {:induction false} LeReflexive(a: string)
    ensures Le(a, a)
  {
    if |a| > 0 {
      LeReflexive(a[1..]);
    }
  }

  lemma {:induction false} LeAntisymmetric(a: string, b: string)
    requires Le(a, b) && Le(b, a)
    ensures a == b
  {
    if |a| > 0 && |b| > 0 {
      LeAntisymmetric(a[1..], b[1..]);
      assert a == [a[0]] + a[1..] && b == [b[0]] + b[1..];
    }
  }

  lemma {:induction false} LeTransitive(a: string, b: string, c: string)
    requires Le(a, b) && Le(b, c)
    ensures Le(a, c)
  {
    if |a| > 0 && |b| > 0 && |c| > 0 && a[0] == b[0] && b[0] == c[0] {
      LeTransitive(a[1..], b[1..], c[1..]);
    }
  }

  lemma {:induction false} LeTotal(a: string, b: string)
    ensures Le(a, b) || Le(b, a)
  {
    if |a| > 0 && |b| > 0 && a[0] == b[0] {
      LeTotal(a[1..], b[1..]);
    }
  }

  /** `m` is the first element of `s` in iteration order. */
  predicate IsLeast(m: string, s: set<string>)
  {
    m in s && forall y | y in s :: Le(m, y)
  }

  lemma {:induction false} LeastExists(s: set<string>)
    requires s != {}
    ensures exists m :: IsLeast(m, s)
    decreases |s|
  {
    var x :| x in s;
    if s == {x} {
      LeReflexive(x);
      assert IsLeast(x, s);
    } else {
      LeastExists(s - {x});
      var m :| IsLeast(m, s - {x});
      LeTotal(x, m);
      if Le(m, x) {
        assert IsLeast(m, s);
      } else {
        forall y | y in s ensures Le(x, y) {
          if y == x {
            LeReflexive(x);
          } else {
            LeTransitive(x, m, y);
          }
        }
        assert IsLeast(x, s);
      }
    }
  }

  lemma LeastUnique(s: set<string>)
    ensures forall m1, m2 :: IsLeast(m1, s) && IsLeast(m2, s) ==> m1 == m2
  {
    forall m1, m2 | IsLeast(m1, s) && IsLeast(m2, s) ensures m1 == m2 {
      LeAntisymmetric(m1, m2);
    }
  }

  /** `*s.begin()`: the first element of a non-empty set. */
  function Least(s: set<string>): (m: string)
    requires s != {}
    ensures IsLeast(m, s)
  {
    LeastExists(s);
    LeastUnique(s);
    var m :| IsLeast(m, s); m
  }

  /** The least element of `s` stays least once other elements are removed. */
  lemma LeastOfSubset(m: string, s: set<string>, t: set<string>)
    requires IsLeast(m, s) && t <= s && m in t
    ensures Least(t) == m
  {
    forall y | y in t ensures Le(m, y) {
      assert y in s;
    }
    assert IsLeast(m, t);
    LeastUnique(t);
  }

  /** The elements of `s` in iteration order, as a range-for visits them. */
  function Sorted(s: set<string>): (r: seq<string>)
    ensures |r| == |s|
    ensures forall x :: x in r <==> x in s
    ensures forall i, j | 0 <= i < j < |r| :: Lt(r[i], r[j])
    decreases |s|
  {
    if s == {} then []
    else
      var m := Least(s);
      var rest := Sorted(s - {m});
      var r := [m] + rest;
      assert forall i, j | 0 <= i < j < |r| :: Lt(r[i], r[j]) by {
        forall i, j | 0 <= i < j < |r| ensures Lt(r[i], r[j]) {
          assert r[j] == rest[j - 1];
          if i == 0 {
            assert rest[j - 1] in s - {m};
          } else {
            assert r[i] == rest[i - 1];
          }
        }
      }
      r
  }
}
