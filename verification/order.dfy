/** Filename order. os.ReadDir returns directory entries sorted by filename,
    that is by byte-wise comparison of the names; on UTF-8 text this agrees
    with comparing code points, which is the order defined here. */
module Order {

  /** Lexicographic `a <= b`. */
  predicate LessEq(a: string, b: string)
    decreases |a|
  {
    |a| == 0 || (|b| > 0 && (a[0] < b[0] || (a[0] == b[0] && LessEq(a[1..], b[1..]))))
  }

  predicate Less(a: string, b: string) {
    LessEq(a, b) && a != b
  }

  lemma {:induction false} LessEqTotal(a: string, b: string)
    ensures LessEq(a, b) || LessEq(b, a)
    decreases |a|
  {
    if |a| > 0 && |b| > 0 && a[0] == b[0] {
      LessEqTotal(a[1..], b[1..]);
    }
  }

  lemma {:induction false} LessEqAntisymmetric(a: string, b: string)
    requires LessEq(a, b) && LessEq(b, a)
    ensures a == b
    decreases |a|
  {
    if |a| > 0 {
      LessEqAntisymmetric(a[1..], b[1..]);
      assert a == [a[0]] + a[1..] && b == [b[0]] + b[1..];
    }
  }

  lemma {:induction false} LessEqTransitive(a: string, b: string, c: string)
    requires LessEq(a, b) && LessEq(b, c)
    ensures LessEq(a, c)
    decreases |a|
  {
    if |a| > 0 && a[0] == b[0] && b[0] == c[0] {
      LessEqTransitive(a[1..], b[1..], c[1..]);
    }
  }

  lemma LessTransitive(a: string, b: string, c: string)
    requires Less(a, b) && Less(b, c)
    ensures Less(a, c)
  {
    LessEqTransitive(a, b, c);
    if a == c {
      LessEqAntisymmetric(a, b);
    }
  }

  /** Strictly increasing, hence also free of duplicates. */
  predicate Sorted(xs: seq<string>) {
    forall i, j :: 0 <= i < j < |xs| ==> Less(xs[i], xs[j])
  }

  /** Insert a new name into a sorted listing. */
  function Insert(xs: seq<string>, x: string): (r: seq<string>)
    requires Sorted(xs) && x !in xs
    ensures Sorted(r)
    ensures |r| == |xs| + 1
    ensures forall y :: y in r <==> y in xs || y == x
  {
    if xs == [] then [x]
    else if LessEq(x, xs[0]) then
      assert forall j :: 0 <= j < |xs| ==> Less(x, xs[j]) by {
        forall j | 0 <= j < |xs| ensures Less(x, xs[j]) {
          if j > 0 { LessTransitive(x, xs[0], xs[j]); }
        }
      }
      [x] + xs
    else
      LessEqTotal(x, xs[0]);
      var rest := Insert(xs[1..], x);
      assert forall y :: y in rest ==> Less(xs[0], y) by {
        forall y | y in rest ensures Less(xs[0], y) {
          if y != x {
            var j :| 0 <= j < |xs[1..]| && xs[1..][j] == y;
            assert xs[j + 1] == y;
          }
        }
      }
      [xs[0]] + rest
  }

  /** The first element of a non-empty sequence is one of its members. Stated
      apart so that the impossible case of SortedUnique checks nothing inline. */
  lemma HeadIsMember(ys: seq<string>)
    requires ys != []
    ensures ys[0] in ys
  {
  }

  /** A sorted listing of a given set of names is unique. */
  lemma {:induction false} SortedUnique(xs: seq<string>, ys: seq<string>)
    requires Sorted(xs) && Sorted(ys)
    requires forall n :: n in xs <==> n in ys
    ensures xs == ys
    decreases |xs|
  {
    if xs == [] {
      if ys != [] {
        HeadIsMember(ys);
        assert false;
      }
    } else {
      assert xs[0] in ys;
      assert ys != [];
      if xs[0] != ys[0] {
        assert ys[0] in ys;
        var k :| 0 <= k < |xs| && xs[k] == ys[0];
        var m :| 0 <= m < |ys| && ys[m] == xs[0];
        assert Less(xs[0], ys[0]) && Less(ys[0], xs[0]);
        LessEqAntisymmetric(xs[0], ys[0]);
        assert false;
      }
      forall n ensures n in xs[1..] <==> n in ys[1..] {
        if n in xs[1..] {
          var i :| 0 <= i < |xs[1..]| && xs[1..][i] == n;
          assert Less(xs[0], xs[i + 1]);
          assert n in ys && n != ys[0];
        }
        if n in ys[1..] {
          var i :| 0 <= i < |ys[1..]| && ys[1..][i] == n;
          assert Less(ys[0], ys[i + 1]);
          assert n in xs && n != xs[0];
        }
      }
      SortedUnique(xs[1..], ys[1..]);
      assert xs == [xs[0]] + xs[1..] && ys == [ys[0]] + ys[1..];
    }
  }
}
