/** The order Python's `sorted` uses on the names and keys the automaton
    file lists: strings compare code point by code point, a proper prefix
    first; `(origin, symbol)` pairs compare by origin, then by symbol. A set
    sorted under a strict total order has exactly one sorted listing, which
    `SortedList` names and `SortSet` computes. */
module Ordering {

  /** Python's `a < b` on `str`. */
  predicate StrLess(a: string, b: string)
    decreases |a|
  {
    if a == [] then b != []
    else b != [] && (a[0] < b[0] || (a[0] == b[0] && StrLess(a[1..], b[1..])))
  }

  /** Python's `<` on a pair of strings. */
  predicate KeyLess(a: (string, string), b: (string, string))
  {
    StrLess(a.0, b.0) || (a.0 == b.0 && StrLess(a.1, b.1))
  }

  ghost predicate StrictTotalOrder<T(!new)>(less: (T, T) -> bool)
  {
    && (forall a :: !less(a, a))
    && (forall a, b :: a != b ==> less(a, b) || less(b, a))
    && (forall a, b, c :: less(a, b) && less(b, c) ==> less(a, c))
  }

  lemma {:induction false} StrLessIrreflexive(a: string)
    ensures !StrLess(a, a)
    decreases |a|
  {
    if a != [] {
      StrLessIrreflexive(a[1..]);
    }
  }

  lemma {:induction false} StrLessTotal(a: string, b: string)
    requires a != b
    ensures StrLess(a, b) || StrLess(b, a)
    decreases |a|
  {
    if a != [] && b != [] && a[0] == b[0] {
      assert a == [a[0]] + a[1..] && b == [b[0]] + b[1..];
      StrLessTotal(a[1..], b[1..]);
    }
  }

  lemma {:induction false} StrLessTransitive(a: string, b: string, c: string)
    requires StrLess(a, b) && StrLess(b, c)
    ensures StrLess(a, c)
    decreases |a|
  {
    if a != [] && a[0] == b[0] && b[0] == c[0] {
      StrLessTransitive(a[1..], b[1..], c[1..]);
    }
  }

  lemma StrLessIsStrictTotal()
    ensures StrictTotalOrder(StrLess)
  {
    forall a: string ensures !StrLess(a, a) {
      StrLessIrreflexive(a);
    }
    forall a: string, b: string | a != b ensures StrLess(a, b) || StrLess(b, a) {
      StrLessTotal(a, b);
    }
    forall a: string, b: string, c: string | StrLess(a, b) && StrLess(b, c)
      ensures StrLess(a, c)
    {
      StrLessTransitive(a, b, c);
    }
  }

  lemma KeyLessIsStrictTotal()
    ensures StrictTotalOrder(KeyLess)
  {
    StrLessIsStrictTotal();
  }

  predicate SortedBy<T>(s: seq<T>, less: (T, T) -> bool)
  {
    forall i, j :: 0 <= i < j < |s| ==> less(s[i], s[j])
  }

  function Elements<T>(s: seq<T>): set<T>
  {
    set x | x in s
  }

  /** Inserting into a sorted list, as one step of an insertion sort. */
  function Insert<T>(s: seq<T>, x: T, less: (T, T) -> bool): (r: seq<T>)
    ensures |r| == |s| + 1 && Elements(r) == Elements(s) + {x}
    decreases |s|
  {
    if s == [] then [x]
    else if less(x, s[0]) then [x] + s
    else
      var t := Insert(s[1..], x, less);
      var r := [s[0]] + t;
      assert Elements(r) == {s[0]} + Elements(t);
      assert Elements(s) == {s[0]} + Elements(s[1..]) by {
        assert s == [s[0]] + s[1..];
      }
      r
  }

  lemma {:induction false} InsertSorted<T(!new)>(s: seq<T>, x: T, less: (T, T) -> bool)
    requires StrictTotalOrder(less) && SortedBy(s, less) && x !in s
    ensures SortedBy(Insert(s, x, less), less)
    decreases |s|
  {
    if s != [] && !less(x, s[0]) {
      assert less(s[0], x);
      InsertSorted(s[1..], x, less);
      var r := Insert(s[1..], x, less);
      forall j | 0 <= j < |r| ensures less(s[0], r[j]) {
        assert r[j] in Elements(r);
      }
    }
  }

  lemma ElementsEmpty<T>(s: seq<T>)
    ensures Elements(s) == {} <==> s == []
  {
    if s != [] {
      assert s[0] in Elements(s);
    }
  }

  lemma SortedHeadLeast<T>(s: seq<T>, x: T, less: (T, T) -> bool)
    requires |s| > 0 && SortedBy(s, less) && x in Elements(s)
    ensures x == s[0] || less(s[0], x)
  {
  }

  lemma {:induction false} SortedUnique<T(!new)>(a: seq<T>, b: seq<T>, less: (T, T) -> bool)
    requires StrictTotalOrder(less)
    requires SortedBy(a, less) && SortedBy(b, less) && Elements(a) == Elements(b)
    ensures a == b
    decreases |a|
  {
    ElementsEmpty(a);
    ElementsEmpty(b);
    if a != [] {
      SortedHeadLeast(a, b[0], less);
      SortedHeadLeast(b, a[0], less);
      assert Elements(a[1..]) == Elements(a) - {a[0]} by {
        assert a == [a[0]] + a[1..];
        assert forall k :: 0 < k < |a| ==> a[k] != a[0];
      }
      assert Elements(b[1..]) == Elements(b) - {b[0]} by {
        assert b == [b[0]] + b[1..];
        assert forall k :: 0 < k < |b| ==> b[k] != b[0];
      }
      assert SortedBy(a[1..], less) && SortedBy(b[1..], less) by {
        forall i, j | 0 <= i < j < |a[1..]| ensures less(a[1..][i], a[1..][j]) {
          assert a[1..][i] == a[i + 1] && a[1..][j] == a[j + 1];
        }
        forall i, j | 0 <= i < j < |b[1..]| ensures less(b[1..][i], b[1..][j]) {
          assert b[1..][i] == b[i + 1] && b[1..][j] == b[j + 1];
        }
      }
      SortedUnique(a[1..], b[1..], less);
      assert a == [a[0]] + a[1..] && b == [b[0]] + b[1..];
    }
  }

  lemma {:induction false} SortedListExists<T(!new)>(s: set<T>, less: (T, T) -> bool)
    requires StrictTotalOrder(less)
    ensures exists r :: SortedBy(r, less) && Elements(r) == s
    decreases s
  {
    if s == {} {
      var e: seq<T> := [];
      assert SortedBy(e, less) && Elements(e) == s;
    } else {
      var x :| x in s;
      SortedListExists(s - {x}, less);
      var r :| SortedBy(r, less) && Elements(r) == s - {x};
      assert x !in Elements(r);
      InsertSorted(r, x, less);
      assert SortedBy(Insert(r, x, less), less) && Elements(Insert(r, x, less)) == s;
    }
  }

  /** The list `sorted(s)` returns: the unique sorted listing of `s`. */
  ghost function SortedList<T(!new)>(s: set<T>, less: (T, T) -> bool): (r: seq<T>)
    requires StrictTotalOrder(less)
    ensures SortedBy(r, less) && Elements(r) == s
  {
    SortedListExists(s, less);
    var r :| SortedBy(r, less) && Elements(r) == s;
    r
  }

  /** `sorted(s)` for a set, by insertion. */
  method SortSet<T(!new)>(s: set<T>, less: (T, T) -> bool) returns (r: seq<T>)
    requires StrictTotalOrder(less)
    ensures r == SortedList(s, less)
  {
    r := [];
    var rest := s;
    while rest != {}
      invariant SortedBy(r, less)
      invariant Elements(r) + rest == s && Elements(r) !! rest
      decreases rest
    {
      var x :| x in rest;
      InsertSorted(r, x, less);
      r := Insert(r, x, less);
      rest := rest - {x};
    }
    SortedUnique(r, SortedList(s, less), less);
  }
}
