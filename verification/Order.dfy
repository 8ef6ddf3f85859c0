/** Python orders strings by code point; `sorted(...)` over a set of names is the
    list this module calls `Sorted`.  It depends on the set alone. */
module Order {

  /** Strict lexicographic order on code points. */
  predicate Less(a: string, b: string) {
    b != [] && (a == [] || a[0] < b[0] || (a[0] == b[0] && Less(a[1..], b[1..])))
  }

  /** The texts agree before position k, and there the first one ends or has the smaller code point. */
  predicate DiffersAt(a: string, b: string, k: nat) {
    k <= |a| && k < |b| && a[..k] == b[..k] && (k == |a| || a[k] < b[k])
  }

  lemma {:induction false} LessExactly(a: string, b: string)
    ensures Less(a, b) <==> exists k: nat :: DiffersAt(a, b, k)
  {
    if a == [] {
      if b != [] { assert DiffersAt(a, b, 0); }
    } else if b != [] && a[0] == b[0] {
      LessExactly(a[1..], b[1..]);
      if k: nat :| DiffersAt(a[1..], b[1..], k) {
        assert a[..k + 1] == [a[0]] + a[1..][..k] && b[..k + 1] == [b[0]] + b[1..][..k];
        assert DiffersAt(a, b, k + 1);
      }
      if k: nat :| DiffersAt(a, b, k) {
        assert k > 0 && a[1..][..k - 1] == a[..k][1..] && b[1..][..k - 1] == b[..k][1..];
        assert DiffersAt(a[1..], b[1..], k - 1);
      }
    } else if b != [] {
      if a[0] < b[0] { assert DiffersAt(a, b, 0); }
      if k: nat :| DiffersAt(a, b, k) { assert a[..k] == b[..k]; }
    }
  }

  predicate AtMost(a: string, b: string) {
    a == b || Less(a, b)
  }

  lemma {:induction false} LessTransitive(a: string, b: string, c: string)
    requires Less(a, b) && Less(b, c)
    ensures Less(a, c)
  {
    if a != [] && a[0] == b[0] && b[0] == c[0] {
      LessTransitive(a[1..], b[1..], c[1..]);
    }
  }

  lemma {:induction false} LessTotal(a: string, b: string)
    ensures a == b || Less(a, b) || Less(b, a)
  {
    if a != [] && b != [] && a[0] == b[0] {
      LessTotal(a[1..], b[1..]);
      assert a == [a[0]] + a[1..] && b == [b[0]] + b[1..];
    }
  }

  lemma {:induction false} LessAsymmetric(a: string, b: string)
    requires Less(a, b)
    ensures !Less(b, a) && a != b
  {
    if a != [] && a[0] == b[0] {
      LessAsymmetric(a[1..], b[1..]);
    }
  }

  predicate IsLeast(m: string, names: set<string>) {
    m in names && forall n :: n in names ==> AtMost(m, n)
  }

  lemma {:induction false} LeastExists(names: set<string>)
    requires names != {}
    ensures exists m :: IsLeast(m, names)
    decreases names
  {
    var x :| x in names;
    var rest := names - {x};
    if rest == {} {
      assert names == {x};
      assert IsLeast(x, names);
    } else {
      LeastExists(rest);
      var m :| IsLeast(m, rest);
      LessTotal(x, m);
      if Less(x, m) {
        forall n | n in names ensures AtMost(x, n) {
          if n in rest && n != m { LessTransitive(x, m, n); }
        }
        assert IsLeast(x, names);
      } else {
        assert IsLeast(m, names);
      }
    }
  }

  /** The least name; unique, because the order is asymmetric. */
  function Least(names: set<string>): (m: string)
    requires names != {}
    ensures IsLeast(m, names)
  {
    LeastExists(names);
    LeastUnique(names);
    var m :| IsLeast(m, names);
    m
  }

  lemma LeastUnique(names: set<string>)
    ensures forall a, b :: IsLeast(a, names) && IsLeast(b, names) ==> a == b
  {
    forall a, b | IsLeast(a, names) && IsLeast(b, names) ensures a == b {
      if a != b { LessAsymmetric(a, b); }
    }
  }

  /** `sorted(names)`. */
  function Sorted(names: set<string>): (q: seq<string>)
    ensures |q| == |names|
    ensures forall n :: n in q <==> n in names
    decreases |names|
  {
    if names == {} then []
    else
      var m := Least(names);
      [m] + Sorted(names - {m})
  }

  predicate Ascending(q: seq<string>) {
    forall i, j :: 0 <= i < j < |q| ==> Less(q[i], q[j])
  }

  predicate Distinct<T(==)>(q: seq<T>) {
    forall i, j :: 0 <= i < j < |q| ==> q[i] != q[j]
  }

  function Elements<T>(q: seq<T>): set<T> {
    set x | x in q
  }

  lemma {:induction false} SortedAscending(names: set<string>)
    ensures Ascending(Sorted(names))
    decreases |names|
  {
    if names != {} {
      var m := Least(names);
      var rest := Sorted(names - {m});
      SortedAscending(names - {m});
      assert forall j :: 0 <= j < |rest| ==> rest[j] in names - {m} && AtMost(m, rest[j]);
    }
  }

  lemma SortedDistinct(names: set<string>)
    ensures Distinct(Sorted(names))
  {
    var q := Sorted(names);
    SortedAscending(names);
    forall i, j | 0 <= i < j < |q| ensures q[i] != q[j] { LessAsymmetric(q[i], q[j]); }
  }

  /** An ascending list is determined by its elements: any ascending list is `Sorted` of its own set. */
  lemma {:induction false} AscendingUnique(q: seq<string>)
    requires Ascending(q)
    ensures q == Sorted(Elements(q))
    decreases |q|
  {
    var names := Elements(q);
    if q == [] {
      assert names == {};
    } else {
      assert q[0] in names;
      var m := Least(names);
      if m != q[0] {
        var i :| 0 <= i < |q| && q[i] == m;
        LessAsymmetric(q[0], q[i]);
        assert false;
      }
      forall i | 0 < i < |q| ensures q[i] != q[0] { LessAsymmetric(q[0], q[i]); }
      assert names - {m} == Elements(q[1..]) by {
        forall x | x in q[1..] ensures x in names && x != m {}
        forall x | x in names && x != m ensures x in q[1..] {
          var i :| 0 <= i < |q| && q[i] == x;
          assert q[1..][i - 1] == x;
        }
      }
      AscendingUnique(q[1..]);
      assert q == [m] + q[1..];
    }
  }

  // ---------------------------------------------------------------- sizes of subsets

  lemma {:induction false} SubsetSmaller<T>(a: set<T>, b: set<T>)
    requires a < b
    ensures |a| < |b|
    decreases b
  {
    var x :| x in b && x !in a;
    if a != {} {
      SubsetAtMost(a, b - {x});
    }
  }

  lemma {:induction false} SubsetAtMost<T>(a: set<T>, b: set<T>)
    requires a <= b
    ensures |a| <= |b|
    decreases a
  {
    if a != {} {
      var x :| x in a;
      SubsetAtMost(a - {x}, b - {x});
    }
  }
}
