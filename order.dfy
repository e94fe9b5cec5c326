/** The order `sorted()` puts names in: Python compares strings code point by code point, and a
    proper prefix comes first. */
module Order {

  /** `a < b` on `str`. */
  predicate Below(a: string, b: string)
    decreases |a|
  {
    b != [] && (a == [] || a[0] < b[0] || (a[0] == b[0] && Below(a[1..], b[1..])))
  }

  lemma {:induction false} BelowIrreflexive(a: string)
    ensures !Below(a, a)
    decreases |a|
  {
    if a != [] {
      BelowIrreflexive(a[1..]);
    }
  }

  lemma {:induction false} BelowTransitive(a: string, b: string, c: string)
    requires Below(a, b) && Below(b, c)
    ensures Below(a, c)
    decreases |a|
  {
    if a != [] && a[0] == b[0] && b[0] == c[0] {
      BelowTransitive(a[1..], b[1..], c[1..]);
    }
  }

  /** Two different names are always ordered one way or the other. */
  lemma {:induction false} BelowTotal(a: string, b: string)
    requires a != b
    ensures Below(a, b) || Below(b, a)
    decreases |a|
  {
    if a != [] && b != [] && a[0] == b[0] {
      assert a == [a[0]] + a[1..] && b == [b[0]] + b[1..];
      BelowTotal(a[1..], b[1..]);
    }
  }

  lemma BelowAsymmetric(a: string, b: string)
    requires Below(a, b)
    ensures !Below(b, a)
  {
    if Below(b, a) {
      BelowTransitive(a, b, a);
      BelowIrreflexive(a);
    }
  }

  /** The name below every other name of `names`. */
  predicate IsLeast(m: string, names: set<string>) {
    m in names && forall k :: k in names && k != m ==> Below(m, k)
  }

  lemma {:induction false} LeastExists(names: set<string>)
    requires names != {}
    ensures exists m :: IsLeast(m, names)
    decreases |names|
  {
    var x :| x in names;
    var rest := names - {x};
    if rest == {} {
      assert names == {x};
      assert IsLeast(x, names);
    } else {
      LeastExists(rest);
      var m :| IsLeast(m, rest);
      if Below(m, x) {
        assert IsLeast(m, names);
      } else {
        BelowTotal(m, x);
        forall k | k in names && k != x ensures Below(x, k) {
          if k != m {
            BelowTransitive(x, m, k);
          }
        }
        assert IsLeast(x, names);
      }
    }
  }

  lemma LeastUnique(names: set<string>, m: string, m': string)
    requires IsLeast(m, names) && IsLeast(m', names)
    ensures m == m'
  {
    if m != m' {
      BelowAsymmetric(m, m');
    }
  }

  function Least(names: set<string>): (m: string)
    requires names != {}
    ensures IsLeast(m, names)
  {
    LeastExists(names);
    forall m, m' | IsLeast(m, names) && IsLeast(m', names) ensures m == m' {
      LeastUnique(names, m, m');
    }
    var m :| IsLeast(m, names);
    m
  }

  predicate Ascending(r: seq<string>) {
    forall i, j :: 0 <= i < j < |r| ==> Below(r[i], r[j])
  }

  /** `sorted(names)`: every name once, in ascending order. */
  function SortedKeys(names: set<string>): (r: seq<string>)
    ensures |r| == |names| && (forall k :: k in r <==> k in names) && Ascending(r)
    decreases |names|
  {
    if names == {} then []
    else
      var m := Least(names);
      var rest := SortedKeys(names - {m});
      assert forall j :: 0 <= j < |rest| ==> rest[j] in names - {m};
      [m] + rest
  }

  /** Ascending order is determined by the names alone: any ascending sequence of exactly these
      names is the sorted one. */
  lemma {:induction false} SortedUnique(r: seq<string>, names: set<string>)
    requires Ascending(r) && (forall k :: k in r <==> k in names)
    ensures r == SortedKeys(names)
    decreases |names|
  {
    if r == [] {
      assert names == {};
    } else {
      assert IsLeast(r[0], names) by {
        forall k | k in names && k != r[0] ensures Below(r[0], k) {
          var j :| 0 <= j < |r| && r[j] == k;
        }
      }
      LeastUnique(names, r[0], Least(names));
      forall k ensures k in r[1..] <==> k in names - {r[0]} {
        if k in r[1..] {
          var j :| 1 <= j < |r| && r[j] == k;
          assert Below(r[0], r[j]);
          BelowIrreflexive(k);
        }
        if k in names - {r[0]} {
          var j :| 0 <= j < |r| && r[j] == k;
          assert j != 0;
          assert r[1..][j - 1] == k;
        }
      }
      SortedUnique(r[1..], names - {r[0]});
      assert r == [r[0]] + r[1..];
    }
  }
}
