/** The handful of Python `str` operations the modelled programs rely on:
    `strip`, `split` with an explicit separator, `splitlines`, `join`, the
    `in` test for a substring, `lower`, `replace(c, "")` and `rstrip(c)`.
    Each is written out so that the edge cases the programs hit (empty
    pieces, `"\r\n"` line ends, separators at either end) behave as in
    Python. */
module Text {

  /** The characters for which Python's `str.isspace` holds. */
  predicate IsSpace(c: char)
  {
    || c == ' ' || c == '\t' || c == '\n' || c == '\r'
    || c == '\U{B}' || c == '\U{C}'
    || ('\U{1C}' <= c <= '\U{1F}')
    || c == '\U{85}' || c == '\U{A0}' || c == '\U{1680}'
    || ('\U{2000}' <= c <= '\U{200A}')
    || c == '\U{2028}' || c == '\U{2029}' || c == '\U{202F}' || c == '\U{205F}' || c == '\U{3000}'
  }

  /** The characters at which Python's `str.splitlines` breaks a line
      (`"\r\n"` is handled as one break in `SplitLines`). */
  predicate IsLineBreak(c: char)
  {
    || c == '\n' || c == '\r' || c == '\U{B}' || c == '\U{C}'
    || ('\U{1C}' <= c <= '\U{1E}')
    || c == '\U{85}' || c == '\U{2028}' || c == '\U{2029}'
  }

  predicate AllSpace(s: string)
  {
    forall i :: 0 <= i < |s| ==> IsSpace(s[i])
  }

  /** A string `strip` leaves as it is: empty, or with no whitespace at
      either end. */
  predicate Trimmed(s: string)
  {
    s == [] || (!IsSpace(s[0]) && !IsSpace(s[|s| - 1]))
  }

  function TrimStart(s: string): (r: string)
    ensures r == [] || !IsSpace(r[0])
    ensures |r| <= |s| && r == s[|s| - |r|..]
  {
    if |s| > 0 && IsSpace(s[0]) then TrimStart(s[1..]) else s
  }

  function TrimEnd(s: string): (r: string)
    ensures r == [] || !IsSpace(r[|r| - 1])
    ensures |r| <= |s| && r == s[..|r|]
  {
    if |s| > 0 && IsSpace(s[|s| - 1]) then TrimEnd(s[..|s| - 1]) else s
  }

  /** Python's `s.strip()`. */
  function Strip(s: string): (r: string)
    ensures Trimmed(r)
    ensures |r| <= |s|
  {
    var t := TrimStart(s);
    var r := TrimEnd(t);
    assert r == [] || r[0] == t[0];
    r
  }

  lemma {:induction false} TrimStartSpaces(w: string, t: string)
    requires AllSpace(w)
    ensures TrimStart(w + t) == TrimStart(t)
  {
    if w != [] {
      assert (w + t)[0] == w[0] && IsSpace(w[0]);
      assert (w + t)[1..] == w[1..] + t;
      TrimStartSpaces(w[1..], t);
    } else {
      assert w + t == t;
    }
  }

  lemma {:induction false} TrimEndSpaces(t: string, w: string)
    requires AllSpace(w)
    ensures TrimEnd(t + w) == TrimEnd(t)
  {
    if w != [] {
      assert (t + w)[|t + w| - 1] == w[|w| - 1] && IsSpace(w[|w| - 1]);
      assert (t + w)[..|t + w| - 1] == t + w[..|w| - 1];
      TrimEndSpaces(t, w[..|w| - 1]);
    } else {
      assert t + w == t;
    }
  }

  /** `strip` removes exactly the whitespace padding around a trimmed
      string. */
  lemma StripPadded(w1: string, s: string, w2: string)
    requires AllSpace(w1) && AllSpace(w2) && Trimmed(s)
    ensures Strip(w1 + s + w2) == s
  {
    assert w1 + s + w2 == w1 + (s + w2);
    TrimStartSpaces(w1, s + w2);
    if s == [] {
      assert s + w2 == w2 + [];
      TrimStartSpaces(w2, []);
    } else {
      assert TrimStart(s + w2) == s + w2;
      TrimEndSpaces(s, w2);
    }
  }

  lemma StripTrimmed(s: string)
    requires Trimmed(s)
    ensures Strip(s) == s
  {
    StripPadded([], s, []);
    assert [] + s + [] == s;
  }

  predicate StartsWith(s: string, prefix: string)
  {
    |prefix| <= |s| && s[..|prefix|] == prefix
  }

  /** Python's `sep in s`. */
  predicate Contains(s: string, sep: string)
    decreases |s|
  {
    StartsWith(s, sep) || (|s| > 0 && Contains(s[1..], sep))
  }

  lemma {:induction false} ContainsAt(s: string, sep: string, i: nat)
    requires i <= |s| && StartsWith(s[i..], sep)
    ensures Contains(s, sep)
  {
    if i > 0 {
      assert s[1..][i - 1..] == s[i..];
      ContainsAt(s[1..], sep, i - 1);
    }
  }

  /** An occurrence of a two-character separator in `a + b` lies in `a`, in
      `b`, or straddles the junction. */
  lemma {:induction false} ContainsConcat2(a: string, b: string, sep: string)
    requires |sep| == 2 && Contains(a + b, sep)
    ensures || Contains(a, sep) || Contains(b, sep)
            || (|a| > 0 && |b| > 0 && a[|a| - 1] == sep[0] && b[0] == sep[1])
  {
    if a != [] {
      if StartsWith(a + b, sep) {
        if |a| >= 2 {
          assert a[..2] == (a + b)[..2];
          assert StartsWith(a, sep);
        }
      } else {
        assert (a + b)[1..] == a[1..] + b;
        ContainsConcat2(a[1..], b, sep);
        if |a| == 1 {
          assert a[1..] == [];
          assert !Contains([], sep);
        } else {
          assert a[1..][|a[1..]| - 1] == a[|a| - 1];
        }
      }
    } else {
      assert a + b == b;
    }
  }

  lemma NoSeparatorIn(s: string, sep: string)
    requires |sep| == 2 && forall i :: 0 <= i < |s| ==> s[i] != sep[0]
    ensures !Contains(s, sep)
    decreases |s|
  {
    if s != [] {
      assert !StartsWith(s, sep) by {
        if |sep| <= |s| { assert s[..|sep|][0] == s[0]; }
      }
      NoSeparatorIn(s[1..], sep);
    }
  }

  /** Python's `s.split(sep)` for a non-empty separator: the pieces between
      the non-overlapping occurrences of `sep`, scanned from the left. */
  function SplitOn(s: string, sep: string): (r: seq<string>)
    requires |sep| > 0
    ensures |r| >= 1
    decreases |s|
  {
    if StartsWith(s, sep) then [""] + SplitOn(s[|sep|..], sep)
    else if s == [] then [""]
    else
      var rest := SplitOn(s[1..], sep);
      [[s[0]] + rest[0]] + rest[1..]
  }

  /** One step of the scan: an occurrence of `sep` at the front ends an
      empty piece. */
  lemma SplitOnAtSep(s: string, sep: string)
    requires |sep| > 0 && StartsWith(s, sep)
    ensures SplitOn(s, sep) == [""] + SplitOn(s[|sep|..], sep)
  {
  }

  /** One step of the scan: any other first character joins the first piece. */
  lemma SplitOnAtChar(s: string, sep: string)
    requires |sep| > 0 && !StartsWith(s, sep) && s != []
    ensures SplitOn(s, sep) == [[s[0]] + SplitOn(s[1..], sep)[0]] + SplitOn(s[1..], sep)[1..]
  {
  }

  lemma {:induction false} SplitOnFree(s: string, sep: string)
    requires |sep| > 0 && !Contains(s, sep)
    ensures SplitOn(s, sep) == [s]
    decreases |s|
  {
    if s != [] {
      SplitOnFree(s[1..], sep);
      assert [s[0]] + s[1..] == s;
    }
  }

  /** Splitting at the first occurrence: when no occurrence of `sep` starts
      inside `a`, the first piece of `a + sep + b` is `a`. */
  lemma {:induction false} SplitOnFirst(a: string, sep: string, b: string)
    requires |sep| > 0
    requires forall i :: 0 <= i < |a| ==> !StartsWith((a + sep + b)[i..], sep)
    ensures SplitOn(a + sep + b, sep) == [a] + SplitOn(b, sep)
    decreases |a|
  {
    var s := a + sep + b;
    if a == [] {
      assert s == sep + b;
      assert s[..|sep|] == sep;
      assert s[|sep|..] == b;
    } else {
      assert s[0..] == s;
      assert !StartsWith(s, sep);
      assert s[1..] == a[1..] + sep + b;
      forall i | 0 <= i < |a[1..]|
        ensures !StartsWith((a[1..] + sep + b)[i..], sep)
      {
        assert (a[1..] + sep + b)[i..] == s[i + 1..];
      }
      SplitOnFirst(a[1..], sep, b);
      assert [a[0]] + a[1..] == a;
    }
  }

  /** Splitting at a one-character separator that does not occur in `a`. */
  lemma SplitOnChar(a: string, c: char, b: string)
    requires c !in a
    ensures SplitOn(a + [c] + b, [c]) == [a] + SplitOn(b, [c])
  {
    forall i | 0 <= i < |a|
      ensures !StartsWith((a + [c] + b)[i..], [c])
    {
      assert (a + [c] + b)[i..][..1] == [a[i]];
    }
    SplitOnFirst(a, [c], b);
  }

  lemma SplitOnCharFree(a: string, c: char)
    requires c !in a
    ensures SplitOn(a, [c]) == [a]
  {
    NoSeparatorInChar(a, c);
    SplitOnFree(a, [c]);
  }

  lemma {:induction false} NoSeparatorInChar(a: string, c: char)
    requires c !in a
    ensures !Contains(a, [c])
    decreases |a|
  {
    if a != [] {
      assert !StartsWith(a, [c]) by {
        assert a[..1] == [a[0]];
      }
      NoSeparatorInChar(a[1..], c);
    }
  }

  /** Python's `sep.join(xs)`. */
  function Join(xs: seq<string>, sep: string): string
    decreases |xs|
  {
    if |xs| == 0 then ""
    else if |xs| == 1 then xs[0]
    else xs[0] + sep + Join(xs[1..], sep)
  }

  /** Python's `s.splitlines()`: the text cut at every line break, a
      `"\r\n"` pair counting as one, with no empty piece for a final
      break. */
  function SplitLines(s: string): seq<string>
  {
    SplitLinesFrom(s, [])
  }

  function SplitLinesFrom(s: string, current: string): seq<string>
    decreases |s|
  {
    if s == [] then (if current == [] then [] else [current])
    else if s[0] == '\r' && |s| > 1 && s[1] == '\n' then [current] + SplitLinesFrom(s[2..], [])
    else if IsLineBreak(s[0]) then [current] + SplitLinesFrom(s[1..], [])
    else SplitLinesFrom(s[1..], current + [s[0]])
  }

  predicate NoLineBreak(s: string)
  {
    forall i :: 0 <= i < |s| ==> !IsLineBreak(s[i])
  }

  lemma {:induction false} SplitLinesAcross(line: string, rest: string, current: string)
    requires NoLineBreak(line)
    ensures SplitLinesFrom(line + rest, current) == SplitLinesFrom(rest, current + line)
    decreases |line|
  {
    if line != [] {
      assert (line + rest)[1..] == line[1..] + rest;
      assert current + line == (current + [line[0]]) + line[1..];
      SplitLinesAcross(line[1..], rest, current + [line[0]]);
    } else {
      assert line + rest == rest;
      assert current + line == current;
    }
  }

  /** `splitlines` undoes `"\n".join` on lines without breaks whose last
      line is not empty; an empty last line would leave no piece behind the
      final break. */
  lemma {:induction false} SplitLinesJoin(lines: seq<string>)
    requires forall i :: 0 <= i < |lines| ==> NoLineBreak(lines[i])
    requires lines != [] ==> lines[|lines| - 1] != []
    ensures SplitLines(Join(lines, "\n")) == lines
    decreases |lines|
  {
    if |lines| == 1 {
      SplitLinesAcross(lines[0], [], []);
      assert lines[0] + [] == lines[0];
      assert [] + lines[0] == lines[0];
    } else if |lines| > 1 {
      var rest := Join(lines[1..], "\n");
      assert Join(lines, "\n") == lines[0] + ("\n" + rest);
      SplitLinesAcross(lines[0], "\n" + rest, []);
      assert [] + lines[0] == lines[0];
      assert ("\n" + rest)[1..] == rest;
      SplitLinesJoin(lines[1..]);
      assert [lines[0]] + lines[1..] == lines;
    }
  }

  /** `splitlines` also undoes `"\n".join` followed by a final newline. */
  lemma {:induction false} SplitLinesTerminated(lines: seq<string>)
    requires |lines| >= 1 && forall i :: 0 <= i < |lines| ==> NoLineBreak(lines[i])
    ensures SplitLines(Join(lines, "\n") + "\n") == lines
    decreases |lines|
  {
    if |lines| == 1 {
      SplitLinesAcross(lines[0], "\n", []);
      assert [] + lines[0] == lines[0];
      assert "\n"[1..] == [];
    } else {
      var rest := Join(lines[1..], "\n") + "\n";
      assert Join(lines, "\n") + "\n" == lines[0] + ("\n" + rest);
      SplitLinesAcross(lines[0], "\n" + rest, []);
      assert [] + lines[0] == lines[0];
      assert ("\n" + rest)[1..] == rest;
      SplitLinesTerminated(lines[1..]);
      assert [lines[0]] + lines[1..] == lines;
    }
  }

  lemma {:induction false} JoinSnoc(xs: seq<string>, x: string, sep: string)
    ensures Join(xs + [x], sep) == if xs == [] then x else Join(xs, sep) + sep + x
    decreases |xs|
  {
    if |xs| == 1 {
      assert (xs + [x])[1..] == [x];
    } else if |xs| > 1 {
      assert (xs + [x])[1..] == xs[1..] + [x];
      JoinSnoc(xs[1..], x, sep);
    } else {
      assert xs + [x] == [x];
    }
  }

  /** Python's `lower()` on the ASCII letters. */
  function LowerChar(c: char): char
  {
    if 'A' <= c <= 'Z' then (c as int + 32) as char else c
  }

  function Lower(s: string): (r: string)
    ensures |r| == |s|
    ensures forall i :: 0 <= i < |s| ==> r[i] == LowerChar(s[i])
  {
    seq(|s|, i requires 0 <= i < |s| => LowerChar(s[i]))
  }

  /** Python's `s.replace(c, "")`: every occurrence of `c` removed. */
  function RemoveAll(s: string, c: char): (r: string)
    ensures c !in r
    ensures forall x :: x in r <==> x in s && x != c
  {
    if s == [] then []
    else (if s[0] == c then [] else [s[0]]) + RemoveAll(s[1..], c)
  }

  /** `replace` works piece by piece: the kept characters of `a + b` are
      those of `a` followed by those of `b`, in order. */
  lemma {:induction false} RemoveAllConcat(a: string, b: string, c: char)
    ensures RemoveAll(a + b, c) == RemoveAll(a, c) + RemoveAll(b, c)
    decreases |a|
  {
    if a != [] {
      assert (a + b)[1..] == a[1..] + b;
      RemoveAllConcat(a[1..], b, c);
    } else {
      assert a + b == b;
    }
  }

  /** On one character `replace` drops `c` and keeps anything else. */
  lemma RemoveAllChar(x: char, c: char)
    ensures RemoveAll([x], c) == if x == c then [] else [x]
  {
  }

  /** `replace` keeps a final character other than `c`. */
  lemma RemoveAllKeep(a: string, x: char, c: char)
    requires x != c
    ensures RemoveAll(a + [x], c) == RemoveAll(a, c) + [x]
  {
    RemoveAllConcat(a, [x], c);
    RemoveAllChar(x, c);
  }

  /** `replace` drops a `c` wherever it stands. */
  lemma RemoveAllDrop(a: string, b: string, c: char)
    ensures RemoveAll(a + [c] + b, c) == RemoveAll(a + b, c)
  {
    RemoveAllConcat(a + [c], b, c);
    RemoveAllConcat(a, [c], c);
    RemoveAllChar(c, c);
    RemoveAllConcat(a, b, c);
  }

  /** `lower` works piece by piece. */
  lemma LowerConcat(a: string, b: string)
    ensures Lower(a + b) == Lower(a) + Lower(b)
  {
  }

  /** Python's `s.rstrip(c)`: every trailing `c` removed. */
  function RStripChar(s: string, c: char): (r: string)
    ensures r == [] || r[|r| - 1] != c
    ensures |r| <= |s| && r == s[..|r|]
    ensures forall i :: |r| <= i < |s| ==> s[i] == c
  {
    if |s| > 0 && s[|s| - 1] == c then RStripChar(s[..|s| - 1], c) else s
  }

  /** `sep.join(s.split(sep)) == s`. */
  lemma SplitJoin(s: string, sep: string)
    requires |sep| > 0
    ensures |SplitOn(s, sep)| == 2 ==> SplitOn(s, sep)[0] + sep + SplitOn(s, sep)[1] == s
  {
    SplitJoinAll(s, sep);
  }

  lemma {:induction false} SplitJoinAll(s: string, sep: string)
    requires |sep| > 0
    ensures Join(SplitOn(s, sep), sep) == s
    decreases |s|
  {
    if StartsWith(s, sep) {
      SplitJoinAll(s[|sep|..], sep);
      SplitJoinAtSep(s, sep);
    } else if s != [] {
      SplitJoinAll(s[1..], sep);
      SplitJoinAtChar(s, sep);
    }
  }

  lemma SplitJoinAtSep(s: string, sep: string)
    requires |sep| > 0 && StartsWith(s, sep)
    requires Join(SplitOn(s[|sep|..], sep), sep) == s[|sep|..]
    ensures Join(SplitOn(s, sep), sep) == s
  {
    SplitOnAtSep(s, sep);
    JoinAfterEmpty(SplitOn(s[|sep|..], sep), sep);
    StartsWithRest(s, sep);
  }

  lemma StartsWithRest(s: string, prefix: string)
    requires StartsWith(s, prefix)
    ensures s == prefix + s[|prefix|..]
  {
    assert s == s[..|prefix|] + s[|prefix|..];
  }

  /** An empty first piece puts a separator in front of the join. */
  lemma JoinAfterEmpty(xs: seq<string>, sep: string)
    requires |xs| >= 1
    ensures Join([""] + xs, sep) == sep + Join(xs, sep)
  {
    JoinCons("", xs, sep);
    assert "" + sep == sep;
  }

  lemma SplitJoinAtChar(s: string, sep: string)
    requires |sep| > 0 && !StartsWith(s, sep) && s != []
    requires Join(SplitOn(s[1..], sep), sep) == s[1..]
    ensures Join(SplitOn(s, sep), sep) == s
  {
    var xs := SplitOn(s[1..], sep);
    SplitOnAtChar(s, sep);
    JoinPrepend(s[0], xs, sep);
    assert s == [s[0]] + s[1..];
  }

  /** Prepending a character to the first piece prepends it to the join. */
  lemma JoinPrepend(c: char, xs: seq<string>, sep: string)
    requires |xs| >= 1
    ensures Join([[c] + xs[0]] + xs[1..], sep) == [c] + Join(xs, sep)
  {
    var x, ys := xs[0], xs[1..];
    assert [x] + ys == xs;
    JoinCons([c] + x, ys, sep);
    JoinCons(x, ys, sep);
    if ys != [] {
      assert [c] + x + sep + Join(ys, sep) == [c] + (x + sep + Join(ys, sep));
    }
  }

  lemma JoinCons(x: string, xs: seq<string>, sep: string)
    ensures Join([x] + xs, sep) == if xs == [] then x else x + sep + Join(xs, sep)
  {
    assert ([x] + xs)[0] == x && ([x] + xs)[1..] == xs;
  }
}
