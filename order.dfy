/** Python's ordering of `str` values, and `sorted()` applied to a directory
    listing or to a dictionary's keys. Session ids are compared with it, so the
    "oldest" session is the least name under this order. */
module Order {

  /** `a < b` on Python strings: code point by code point, a proper prefix first. */
  predicate Below(a: string, b: string)
    decreases |a|
  {
    if |a| == 0 then |b| > 0
    else |b| > 0 && (a[0] < b[0] || (a[0] == b[0] && Below(a[1..], b[1..])))
  }

  lemma {:induction false} BelowIrreflexive(a: string)
    ensures !Below(a, a)
    decreases |a|
  {
    if |a| > 0 {
      BelowIrreflexive(a[1..]);
    }
  }

  lemma {:induction false} BelowTransitive(a: string, b: string, c: string)
    requires Below(a, b) && Below(b, c)
    ensures Below(a, c)
    decreases |a|
  {
    if |a| > 0 && a[0] == b[0] && b[0] == c[0] {
      BelowTransitive(a[1..], b[1..], c[1..]);
    }
  }

  lemma {:induction false} BelowTotal(a: string, b: string)
    requires a != b
    ensures Below(a, b) || Below(b, a)
    decreases |a|
  {
    if |a| > 0 && |b| > 0 && a[0] == b[0] {
      assert a == [a[0]] + a[1..] && b == [b[0]] + b[1..];
      BelowTotal(a[1..], b[1..]);
    }
  }

  lemma BelowAsymmetric(a: string, b: string)
    requires Below(a, b)
    ensures !Below(b, a)
  {
    if Below(b, a) {
      BelowTransitive(a, b, a);
      BelowIrreflexive(a);
    }
  }

  /** Strictly ascending, hence without duplicates. */
  ghost predicate Ascending(s: seq<string>)
  {
    forall i, j :: 0 <= i < j < |s| ==> Below(s[i], s[j])
  }

  ghost predicate IsLeast(m: string, s: set<string>)
  {
    m in s && forall y :: y in s && y != m ==> Below(m, y)
  }

  lemma {:induction false} LeastExists(s: set<string>)
    requires s != {}
    ensures exists m :: IsLeast(m, s)
    decreases |s|
  {
    var x :| x in s;
    var rest := s - {x};
    if rest == {} {
      assert s == {x};
      assert IsLeast(x, s);
    } else {
      LeastExists(rest);
      var m :| IsLeast(m, rest);
      if Below(x, m) {
        forall y | y in s && y != x
          ensures Below(x, y)
        {
          if y != m {
            BelowTransitive(x, m, y);
          }
        }
        assert IsLeast(x, s);
      } else {
        BelowTotal(x, m);
        assert IsLeast(m, s);
      }
    }
  }

  lemma LeastUnique(a: string, b: string, s: set<string>)
    requires IsLeast(a, s) && IsLeast(b, s)
    ensures a == b
  {
    if a != b {
      BelowAsymmetric(a, b);
    }
  }

  ghost function Least(s: set<string>): (m: string)
    requires s != {}
    ensures IsLeast(m, s)
  {
    LeastExists(s);
    var m :| IsLeast(m, s); m
  }

  /** `sorted(s)`: the elements of `s`, each once, in ascending order. */
  ghost function Sorted(s: set<string>): (r: seq<string>)
    ensures |r| == |s|
    ensures forall x :: x in r <==> x in s
    decreases |s|
  {
    if s == {} then []
    else
      var m := Least(s);
      [m] + Sorted(s - {m})
  }

  /** `sorted(s)` is strictly ascending. */
  lemma {:induction false} SortedAscending(s: set<string>)
    ensures Ascending(Sorted(s))
    decreases |s|
  {
    if s != {} {
      var m := Least(s);
      var rest := Sorted(s - {m});
      SortedAscending(s - {m});
      var r := Sorted(s);
      assert r == [m] + rest;
      forall i, j | 0 <= i < j < |r|
        ensures Below(r[i], r[j])
      {
        assert r[j] == rest[j - 1];
        if i == 0 {
          assert rest[j - 1] in s - {m};
        } else {
          assert r[i] == rest[i - 1];
        }
      }
    }
  }

  lemma AscendingDistinct(s: seq<string>, i: int, j: int)
    requires Ascending(s) && 0 <= i < |s| && 0 <= j < |s| && i != j
    ensures s[i] != s[j]
  {
    if i < j {
      if s[i] == s[j] { BelowIrreflexive(s[i]); }
    } else {
      if s[i] == s[j] { BelowIrreflexive(s[j]); }
    }
  }

  /** The head of an ascending sequence of exactly the set's elements is its least element. */
  lemma HeadIsLeast(r: seq<string>, s: set<string>)
    requires r != [] && Ascending(r)
    requires forall x :: x in r <==> x in s
    ensures IsLeast(r[0], s)
  {
    forall y | y in s && y != r[0]
      ensures Below(r[0], y)
    {
      var j :| 0 <= j < |r| && r[j] == y;
    }
  }

  /** Its tail holds exactly the other elements. */
  lemma TailMembers(r: seq<string>, s: set<string>)
    requires r != [] && Ascending(r)
    requires forall x :: x in r <==> x in s
    ensures forall x :: x in r[1..] <==> x in s - {r[0]}
  {
    var tail := r[1..];
    forall x
      ensures x in tail <==> x in s - {r[0]}
    {
      if x in tail {
        var j :| 0 <= j < |tail| && tail[j] == x;
        AscendingDistinct(r, 0, j + 1);
      }
      if x in s - {r[0]} {
        var j :| 0 <= j < |r| && r[j] == x;
        assert tail[j - 1] == x;
      }
    }
  }

  /** An ascending sequence is determined by its elements. */
  lemma {:induction false} SortedUnique(r: seq<string>, s: set<string>)
    requires Ascending(r)
    requires forall x :: x in r <==> x in s
    ensures r == Sorted(s)
    decreases |r|
  {
    if r == [] {
      assert s == {};
    } else {
      HeadIsLeast(r, s);
      TailMembers(r, s);
      SortedUnique(r[1..], s - {r[0]});
      SortedUnfold(s, r[0]);
    }
  }

  lemma SortedUnfold(s: set<string>, m: string)
    requires IsLeast(m, s)
    ensures Sorted(s) == [m] + Sorted(s - {m})
  {
    LeastUnique(m, Least(s), s);
  }

  lemma SortStep(r: seq<string>, rest: set<string>, s: set<string>, m: string)
    requires r + Sorted(rest) == Sorted(s)
    requires IsLeast(m, rest)
    ensures (r + [m]) + Sorted(rest - {m}) == Sorted(s)
  {
    SortedUnfold(rest, m);
    assert (r + [m]) + Sorted(rest - {m}) == r + ([m] + Sorted(rest - {m}));
  }

  /** Finds the least element of a non-empty set by scanning it once. */
  method LeastOf(s: set<string>) returns (m: string)
    requires s != {}
    ensures IsLeast(m, s)
  {
    m :| m in s;
    var todo := s - {m};
    while todo != {}
      invariant todo <= s && m in s && m !in todo
      invariant forall y :: y in s && y !in todo && y != m ==> Below(m, y)
      decreases |todo|
    {
      var y :| y in todo;
      if Below(y, m) {
        forall z | z in s && z !in todo - {y} && z != y
          ensures Below(y, z)
        {
          if z != m {
            BelowTransitive(y, m, z);
          }
        }
        m := y;
      } else {
        BelowTotal(y, m);
      }
      todo := todo - {y};
    }
  }

  /** `sorted(s)` computed by repeatedly taking the least remaining name. */
  method SortNames(s: set<string>) returns (r: seq<string>)
    ensures r == Sorted(s)
  {
    r := [];
    var rest := s;
    while rest != {}
      invariant rest <= s
      invariant r + Sorted(rest) == Sorted(s)
      decreases |rest|
    {
      var m := LeastOf(rest);
      SortStep(r, rest, s, m);
      r := r + [m];
      rest := rest - {m};
    }
    assert Sorted(rest) == [];
    assert r + [] == r;
  }

  /** In a sorted listing every name before position `k` is below every name from `k` on. */
  lemma SortedPrefixIsOldest(s: set<string>, k: nat, a: string, b: string)
    requires k <= |s|
    requires a in Sorted(s)[..k] && b in Sorted(s)[k..]
    ensures Below(a, b)
  {
    var r := Sorted(s);
    SortedAscending(s);
    var i :| 0 <= i < k && r[..k][i] == a;
    var j :| 0 <= j < |r| - k && r[k..][j] == b;
    assert r[i] == a && r[k + j] == b;
  }
}
