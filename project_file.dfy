/** The five-section project file of the automaton simulator
    (LFA/SimuladorAutomatos/main.py, `salvar_projeto` and
    `carregar_projeto`), as lines. Saving writes `#states`, `#initial`,
    `#accepting`, `#alphabet` and `#transitions`, each followed by its
    entries; a transition is written `origin:symbol>destination`. Loading
    strips the lines, drops blank ones, and reads them section by section
    into staging sets and a staging map that keeps one destination per
    `(origin, symbol)`. */
module ProjectFile {
  import opened Wrappers
  import opened Text
  import opened Ordering
  import opened Automaton

  /** The line written for one transition. */
  function Line(k: Key, d: State): string
  {
    k.0 + ":" + k.1 + ">" + d
  }

  /** The symbols occurring in the transition keys. */
  function Alphabet(t: Transitions): set<Symbol>
  {
    set k | k in t :: k.1
  }

  predicate Distinct<T(==)>(s: seq<T>)
  {
    forall i, j :: 0 <= i < j < |s| ==> s[i] != s[j]
  }

  /** `dests[k]` lists the set `t[k]` once each, in the order the save loop
      happens to visit it (Python leaves the order of a set unspecified). */
  ghost predicate IsListing(dests: map<Key, seq<State>>, t: Transitions)
  {
    dests.Keys == t.Keys && forall k :: k in t ==> Elements(dests[k]) == t[k] && Distinct(dests[k])
  }

  /** The lines for the destinations `ds` of key `k`. */
  function KeyLines(k: Key, ds: seq<State>): (r: seq<string>)
    ensures |r| == |ds| && forall i :: 0 <= i < |ds| ==> r[i] == Line(k, ds[i])
  {
    seq(|ds|, i requires 0 <= i < |ds| => Line(k, ds[i]))
  }

  function TransitionLines(keys: seq<Key>, dests: map<Key, seq<State>>): seq<string>
    requires forall i :: 0 <= i < |keys| ==> keys[i] in dests
  {
    if keys == [] then []
    else KeyLines(keys[0], dests[keys[0]]) + TransitionLines(keys[1..], dests)
  }

  /** `sorted` on a set of names. */
  ghost function SortedNames(s: set<string>): (r: seq<string>)
    ensures SortedBy(r, StrLess) && Elements(r) == s
  {
    StrLessIsStrictTotal();
    SortedList(s, StrLess)
  }

  ghost function SortedKeys(t: Transitions): (r: seq<Key>)
    ensures SortedBy(r, KeyLess) && Elements(r) == t.Keys
  {
    KeyLessIsStrictTotal();
    SortedList(t.Keys, KeyLess)
  }

  /** Everything `salvar_projeto` writes once the initial state is known, one
      entry per line. */
  ghost function SavedLines(e: set<State>, init: State, f: set<State>, t: Transitions,
                            dests: map<Key, seq<State>>): seq<string>
    requires IsListing(dests, t)
  {
    var keys := SortedKeys(t);
    assert forall i :: 0 <= i < |keys| ==> keys[i] in dests by {
      forall i | 0 <= i < |keys| ensures keys[i] in dests {
        assert keys[i] in Elements(keys);
      }
    }
    ["#states"] + SortedNames(e)
    + ["#initial", init]
    + ["#accepting"] + SortedNames(f)
    + ["#alphabet"] + SortedNames(Alphabet(t))
    + ["#transitions"] + TransitionLines(keys, dests)
  }

  /** The lines `readlines` gives back for a file written line by line. */
  function WithNewlines(lines: seq<string>): (r: seq<string>)
    ensures |r| == |lines| && forall i :: 0 <= i < |lines| ==> r[i] == lines[i] + "\n"
  {
    seq(|lines|, i requires 0 <= i < |lines| => lines[i] + "\n")
  }

  /** Every line stripped, blank lines dropped. */
  function Clean(raw: seq<string>): (r: seq<string>)
    ensures forall i :: 0 <= i < |r| ==> r[i] != [] && Trimmed(r[i])
    ensures |r| <= |raw|
  {
    if raw == [] then []
    else
      var s := Strip(raw[0]);
      (if s == [] then [] else [s]) + Clean(raw[1..])
  }

  /** The staging variables of the loader, and the section it is in. */
  datatype Staging = Staging(section: Option<string>, estados: set<State>, inicial: Option<State>,
                             finais: set<State>, alfabeto: set<Symbol>, trans: map<Key, State>)

  datatype LoadError = BadTransition(line: string) | MissingInitial

  const Start := Staging(None, {}, None, {}, {}, map[])

  /** `origem, resto = line.split(":")` then `simbolo, destino = resto.split(">")`:
      both splits must give exactly two pieces. */
  function ParseTransition(line: string): Option<(Key, State)>
  {
    var parts := SplitOn(line, ":");
    if |parts| != 2 then None
    else
      var rest := SplitOn(parts[1], ">");
      if |rest| != 2 then None
      else Some(((parts[0], rest[0]), rest[1]))
  }

  /** A transition line that parses is the line of what it parses to. */
  lemma ParseTransitionSound(line: string)
    ensures ParseTransition(line).Some? ==>
      Line(ParseTransition(line).value.0, ParseTransition(line).value.1) == line
  {
    SplitJoin(line, ":");
    var parts := SplitOn(line, ":");
    if |parts| == 2 {
      SplitJoin(parts[1], ">");
    }
  }

  /** One cleaned line of the loader's loop. */
  function Step(st: Staging, line: string): Result<Staging, LoadError>
  {
    if StartsWith(line, "#") then Ok(st.(section := Some(Strip(line[1..]))))
    else if st.section == Some("states") then Ok(st.(estados := st.estados + {line}))
    else if st.section == Some("initial") then Ok(st.(inicial := Some(line)))
    else if st.section == Some("accepting") then
      Ok(if line != [] then st.(finais := st.finais + {line}) else st)
    else if st.section == Some("alphabet") then Ok(st.(alfabeto := st.alfabeto + {line}))
    else if st.section == Some("transitions") then
      match ParseTransition(line)
      case None => Err(BadTransition(line))
      case Some(p) => Ok(st.(trans := st.trans[p.0 := p.1]))
    else Ok(st)
  }

  function LoadFrom(st: Staging, lines: seq<string>): Result<Staging, LoadError>
    decreases |lines|
  {
    if lines == [] then Ok(st)
    else
      match Step(st, lines[0])
      case Err(e) => Err(e)
      case Ok(next) => LoadFrom(next, lines[1..])
  }

  /** The staged file, or the error that makes `carregar_projeto` give up:
      a malformed transition line, or no `#initial` entry. */
  function Load(raw: seq<string>): (r: Result<Staging, LoadError>)
    ensures r.Ok? ==> r.value.inicial.Some?
  {
    match LoadFrom(Start, Clean(raw))
    case Err(e) => Err(e)
    case Ok(st) => if st.inicial.None? then Err(MissingInitial) else Ok(st)
  }

  /** A map with one destination per key, seen as a transition relation. */
  function Lift(m: map<Key, State>): (r: Transitions)
    ensures r.Keys == m.Keys && NonEmptyTargets(r)
  {
    map k | k in m :: {m[k]}
  }

  /** The transitions after `adicionar_transicao` has been called for every
      staged `(origin, symbol) -> destination`, in any order. */
  function Merge(t: Transitions, m: map<Key, State>): (r: Transitions)
    ensures r.Keys == t.Keys + m.Keys
    ensures forall k :: Dests(r, k) == Dests(t, k) + Dests(Lift(m), k)
  {
    map k | k in t.Keys + m.Keys :: Dests(t, k) + Dests(Lift(m), k)
  }

  lemma MergeIntoEmpty(m: map<Key, State>)
    ensures Merge(map[], m) == Lift(m)
  {
    forall k | k in m ensures Merge(map[], m)[k] == Lift(m)[k] {
      assert Dests(Merge(map[], m), k) == Dests(Lift(m), k);
    }
  }

  /** The names the round trip needs: non-empty, no surrounding whitespace,
      not a section header, free of the two separators and of the line ends
      `readlines` splits at. */
  predicate WellFormedName(s: string)
  {
    s != [] && Trimmed(s) && s[0] != '#' && ':' !in s && '>' !in s && '\n' !in s && '\r' !in s
  }

  ghost predicate WellFormedRelation(m: map<Key, State>)
  {
    forall k :: k in m ==> WellFormedName(k.0) && WellFormedName(k.1) && WellFormedName(m[k])
  }

  lemma ParseLine(k: Key, d: State)
    requires WellFormedName(k.0) && WellFormedName(k.1) && WellFormedName(d)
    ensures ParseTransition(Line(k, d)) == Some((k, d))
  {
    var o, s := k.0, k.1;
    assert Line(k, d) == o + [':'] + (s + ">" + d);
    SplitOnChar(o, ':', s + ">" + d);
    assert ':' !in s + ">" + d;
    SplitOnCharFree(s + ">" + d, ':');
    assert s + ">" + d == s + ['>'] + d;
    SplitOnChar(s, '>', d);
    SplitOnCharFree(d, '>');
  }

  lemma {:induction false} CleanNewlines(lines: seq<string>)
    requires forall i :: 0 <= i < |lines| ==> lines[i] != [] && Trimmed(lines[i])
    ensures Clean(WithNewlines(lines)) == lines
    decreases |lines|
  {
    if lines != [] {
      var raw := WithNewlines(lines);
      StripLine(lines[0]);
      WithNewlinesTail(lines);
      CleanNewlines(lines[1..]);
      CleanCons(raw);
      HeadTail(lines);
    }
  }

  lemma WithNewlinesTail(lines: seq<string>)
    requires lines != []
    ensures WithNewlines(lines)[0] == lines[0] + "\n"
    ensures WithNewlines(lines)[1..] == WithNewlines(lines[1..])
  {
  }

  lemma CleanCons(raw: seq<string>)
    requires raw != []
    ensures Clean(raw) == (if Strip(raw[0]) == [] then [] else [Strip(raw[0])]) + Clean(raw[1..])
  {
  }

  lemma HeadTail<T>(xs: seq<T>)
    requires xs != []
    ensures [xs[0]] + xs[1..] == xs
  {
  }

  /** `strip` removes the newline a saved line ends with. */
  lemma StripLine(line: string)
    requires Trimmed(line)
    ensures Strip(line + "\n") == line
  {
    assert AllSpace("\n");
    assert AllSpace([]);
    StripPadded([], line, "\n");
    assert [] + line + "\n" == line + "\n";
  }

  lemma LoadCons(st: Staging, x: string, rest: seq<string>)
    ensures LoadFrom(st, [x] + rest) ==
      if Step(st, x).Err? then Err(Step(st, x).error) else LoadFrom(Step(st, x).value, rest)
  {
    assert ([x] + rest)[0] == x && ([x] + rest)[1..] == rest;
  }

  /** What the entries of a states, accepting or alphabet section add. */
  function Absorb(st: Staging, names: seq<string>): Staging
  {
    if st.section == Some("states") then st.(estados := st.estados + Elements(names))
    else if st.section == Some("accepting") then st.(finais := st.finais + Elements(names))
    else if st.section == Some("alphabet") then st.(alfabeto := st.alfabeto + Elements(names))
    else st
  }

  /** Entries of the states, accepting or alphabet section go into the
      section's set. */
  lemma {:induction false} LoadNames(st: Staging, names: seq<string>, rest: seq<string>)
    requires st.section in {Some("states"), Some("accepting"), Some("alphabet")}
    requires forall i :: 0 <= i < |names| ==> WellFormedName(names[i])
    ensures LoadFrom(st, names + rest) == LoadFrom(Absorb(st, names), rest)
    decreases |names|
  {
    if names == [] {
      assert names + rest == rest;
      assert Absorb(st, names) == st;
    } else {
      var x := names[0];
      assert names + rest == [x] + (names[1..] + rest);
      assert Elements(names) == {x} + Elements(names[1..]) by {
        assert names == [x] + names[1..];
      }
      assert x[..1] == [x[0]] && Elements([x]) == {x};
      assert !StartsWith(x, "#");
      var next := Absorb(st, [x]);
      assert Step(st, x) == Ok(next);
      LoadCons(st, x, names[1..] + rest);
      LoadNames(next, names[1..], rest);
      assert Absorb(next, names[1..]) == Absorb(st, names);
    }
  }

  /** The staging map after the transition lines of `keys`, one key at a time. */
  function AddAll(t: map<Key, State>, keys: seq<Key>, m: map<Key, State>): map<Key, State>
    requires forall i :: 0 <= i < |keys| ==> keys[i] in m
    decreases |keys|
  {
    if keys == [] then t else AddAll(t[keys[0] := m[keys[0]]], keys[1..], m)
  }

  lemma {:induction false} AddAllCovers(t: map<Key, State>, keys: seq<Key>, m: map<Key, State>)
    requires forall i :: 0 <= i < |keys| ==> keys[i] in m
    ensures AddAll(t, keys, m).Keys == t.Keys + Elements(keys)
    ensures forall k :: k in Elements(keys) ==> AddAll(t, keys, m)[k] == m[k]
    ensures forall k :: k in t && k !in Elements(keys) ==> AddAll(t, keys, m)[k] == t[k]
    decreases |keys|
  {
    if keys != [] {
      assert Elements(keys) == {keys[0]} + Elements(keys[1..]) by {
        assert keys == [keys[0]] + keys[1..];
      }
      AddAllCovers(t[keys[0] := m[keys[0]]], keys[1..], m);
    }
  }

  lemma AddAllExact(keys: seq<Key>, m: map<Key, State>)
    requires forall i :: 0 <= i < |keys| ==> keys[i] in m
    requires Elements(keys) == m.Keys
    ensures AddAll(map[], keys, m) == m
  {
    AddAllCovers(map[], keys, m);
  }

  lemma StepTransition(st: Staging, k: Key, d: State)
    requires st.section == Some("transitions")
    requires WellFormedName(k.0) && WellFormedName(k.1) && WellFormedName(d)
    ensures Step(st, Line(k, d)) == Ok(st.(trans := st.trans[k := d]))
  {
    ParseLine(k, d);
    var line := Line(k, d);
    assert line[0] == k.0[0];
  }

  /** The transition lines of a deterministic relation, in key order. */
  lemma {:induction false} LoadTransitions(st: Staging, keys: seq<Key>, m: map<Key, State>,
                                           dests: map<Key, seq<State>>)
    requires st.section == Some("transitions")
    requires forall i :: 0 <= i < |keys| ==> keys[i] in m && keys[i] in dests && dests[keys[i]] == [m[keys[i]]]
    requires WellFormedRelation(m)
    ensures LoadFrom(st, TransitionLines(keys, dests)) == Ok(st.(trans := AddAll(st.trans, keys, m)))
    decreases |keys|
  {
    if keys != [] {
      var k := keys[0];
      assert KeyLines(k, dests[k]) == [Line(k, m[k])];
      assert TransitionLines(keys, dests) == [Line(k, m[k])] + TransitionLines(keys[1..], dests);
      StepTransition(st, k, m[k]);
      var next := st.(trans := st.trans[k := m[k]]);
      LoadCons(st, Line(k, m[k]), TransitionLines(keys[1..], dests));
      LoadTransitions(next, keys[1..], m, dests);
    }
  }

  lemma DistinctPair<T>(ds: seq<T>)
    requires Distinct(ds)
    ensures |ds| < 2 || ds[0] != ds[1]
  {
  }

  /** A deterministic relation has exactly one listing of each key. */
  lemma ListingOfLift(m: map<Key, State>, dests: map<Key, seq<State>>)
    requires IsListing(dests, Lift(m))
    ensures forall k :: k in m ==> dests[k] == [m[k]]
  {
    forall k | k in m ensures dests[k] == [m[k]] {
      var ds := dests[k];
      assert Elements(ds) == {m[k]};
      assert ds != [] by { ElementsEmpty(ds); }
      forall i | 0 <= i < |ds| ensures ds[i] == m[k] {
        assert ds[i] in Elements(ds);
      }
      DistinctPair(ds);
    }
  }

  lemma {:induction false} TransitionLinesClean(keys: seq<Key>, m: map<Key, State>, dests: map<Key, seq<State>>)
    requires forall i :: 0 <= i < |keys| ==> keys[i] in m && keys[i] in dests && dests[keys[i]] == [m[keys[i]]]
    requires WellFormedRelation(m)
    ensures forall i :: 0 <= i < |TransitionLines(keys, dests)| ==>
      TransitionLines(keys, dests)[i] != [] && Trimmed(TransitionLines(keys, dests)[i])
    decreases |keys|
  {
    if keys != [] {
      var k := keys[0];
      var line := Line(k, m[k]);
      assert KeyLines(k, dests[k]) == [line];
      assert line[0] == k.0[0] && line[|line| - 1] == m[k][|m[k]| - 1];
      TransitionLinesClean(keys[1..], m, dests);
    }
  }

  /** A section header switches the section and keeps everything else. */
  lemma LoadHeader(st: Staging, name: string, rest: seq<string>)
    requires name in {"states", "initial", "accepting", "alphabet", "transitions"}
    ensures LoadFrom(st, ["#" + name] + rest) == LoadFrom(st.(section := Some(name)), rest)
  {
    StripTrimmed(name);
    assert ("#" + name)[1..] == name;
    assert Step(st, "#" + name) == Ok(st.(section := Some(name)));
    LoadCons(st, "#" + name, rest);
  }

  lemma LoadInitial(st: Staging, init: State, rest: seq<string>)
    requires st.section == Some("initial") && WellFormedName(init)
    ensures LoadFrom(st, [init] + rest) == LoadFrom(st.(inicial := Some(init)), rest)
  {
    assert init[..1] == [init[0]];
    assert Step(st, init) == Ok(st.(inicial := Some(init)));
    LoadCons(st, init, rest);
  }

  /** The loader over the states and initial sections and the accepting
      header of a saved file. */
  lemma LoadStatesHeader(st: Staging, rest: seq<string>)
    ensures LoadFrom(st, ["#states"] + rest) == LoadFrom(st.(section := Some("states")), rest)
  {
    assert "#" + "states" == "#states";
    LoadHeader(st, "states", rest);
  }

  lemma LoadInitialHeader(st: Staging, rest: seq<string>)
    ensures LoadFrom(st, ["#initial"] + rest) == LoadFrom(st.(section := Some("initial")), rest)
  {
    assert "#" + "initial" == "#initial";
    LoadHeader(st, "initial", rest);
  }

  lemma LoadAcceptingHeader(st: Staging, rest: seq<string>)
    ensures LoadFrom(st, ["#accepting"] + rest) == LoadFrom(st.(section := Some("accepting")), rest)
  {
    assert "#" + "accepting" == "#accepting";
    LoadHeader(st, "accepting", rest);
  }

  lemma LoadAlphabetHeader(st: Staging, rest: seq<string>)
    ensures LoadFrom(st, ["#alphabet"] + rest) == LoadFrom(st.(section := Some("alphabet")), rest)
  {
    assert "#" + "alphabet" == "#alphabet";
    LoadHeader(st, "alphabet", rest);
  }

  lemma LoadTransitionsHeader(st: Staging, rest: seq<string>)
    ensures LoadFrom(st, ["#transitions"] + rest) == LoadFrom(st.(section := Some("transitions")), rest)
  {
    assert "#" + "transitions" == "#transitions";
    LoadHeader(st, "transitions", rest);
  }

  /** The loader over the states and initial sections and the accepting
      header of a saved file. */
  lemma LoadSavedHead(st: Staging, e: set<State>, init: State, se: seq<string>, rest: seq<string>)
    requires WellFormedName(init) && Elements(se) == e
    requires forall i :: 0 <= i < |se| ==> WellFormedName(se[i])
    ensures LoadFrom(st, ["#states"] + (se + (["#initial"] + ([init] + (["#accepting"] + rest))))) ==
      LoadFrom(st.(section := Some("accepting"), estados := st.estados + e, inicial := Some(init)), rest)
  {
    var r4 := ["#accepting"] + rest;
    var r3 := [init] + r4;
    var r2 := ["#initial"] + r3;
    var s0 := st.(section := Some("states"));
    var s1 := s0.(estados := st.estados + e);
    var s2 := s1.(section := Some("initial"));
    var s3 := s2.(inicial := Some(init));
    LoadStatesHeader(st, se + r2);
    LoadNames(s0, se, r2);
    LoadInitialHeader(s1, r3);
    LoadInitial(s2, init, r4);
    LoadAcceptingHeader(s3, rest);
  }

  /** The loader over the rest of a saved file: the final states, the
      alphabet and the transitions. */
  lemma LoadSavedTail(st: Staging, f: set<State>, a: set<Symbol>, m: map<Key, State>,
                      sf: seq<string>, sa: seq<string>, keys: seq<Key>, dests: map<Key, seq<State>>)
    requires st.section == Some("accepting") && WellFormedRelation(m)
    requires forall i :: 0 <= i < |sf| ==> WellFormedName(sf[i])
    requires forall i :: 0 <= i < |sa| ==> WellFormedName(sa[i])
    requires Elements(sf) == f && Elements(sa) == a
    requires forall i :: 0 <= i < |keys| ==> keys[i] in m && keys[i] in dests && dests[keys[i]] == [m[keys[i]]]
    ensures LoadFrom(st, sf + (["#alphabet"] + (sa + (["#transitions"] + TransitionLines(keys, dests))))) ==
      Ok(st.(section := Some("transitions"), finais := st.finais + f, alfabeto := st.alfabeto + a,
             trans := AddAll(st.trans, keys, m)))
  {
    var tl := TransitionLines(keys, dests);
    var r8 := ["#transitions"] + tl;
    var r7 := sa + r8;
    var r6 := ["#alphabet"] + r7;
    var s5 := st.(finais := st.finais + f);
    var s6 := s5.(section := Some("alphabet"));
    var s7 := s6.(alfabeto := st.alfabeto + a);
    var s8 := s7.(section := Some("transitions"));
    LoadNames(st, sf, r6);
    LoadAlphabetHeader(s5, r7);
    LoadNames(s6, sa, r8);
    LoadTransitionsHeader(s7, tl);
    LoadTransitions(s8, keys, m, dests);
  }

  /** The same, from the staging state the head of a saved file leaves. */
  lemma LoadSavedTailFrom(e: set<State>, init: State, f: set<State>, a: set<Symbol>, m: map<Key, State>,
                          sf: seq<string>, sa: seq<string>, keys: seq<Key>, dests: map<Key, seq<State>>)
    requires WellFormedRelation(m)
    requires forall i :: 0 <= i < |sf| ==> WellFormedName(sf[i])
    requires forall i :: 0 <= i < |sa| ==> WellFormedName(sa[i])
    requires Elements(sf) == f && Elements(sa) == a
    requires forall i :: 0 <= i < |keys| ==> keys[i] in m && keys[i] in dests && dests[keys[i]] == [m[keys[i]]]
    requires Elements(keys) == m.Keys
    ensures LoadFrom(Staging(Some("accepting"), e, Some(init), {}, {}, map[]),
                     sf + (["#alphabet"] + (sa + (["#transitions"] + TransitionLines(keys, dests))))) ==
      Ok(Staging(Some("transitions"), e, Some(init), f, a, m))
  {
    var mid := Staging(Some("accepting"), e, Some(init), {}, {}, map[]);
    TailStaging(e, init, f, a, m, keys);
    LoadSavedTail(mid, f, a, m, sf, sa, keys, dests);
  }

  lemma TailStaging(e: set<State>, init: State, f: set<State>, a: set<Symbol>, m: map<Key, State>, keys: seq<Key>)
    requires forall i :: 0 <= i < |keys| ==> keys[i] in m
    requires Elements(keys) == m.Keys
    ensures Staging(Some("accepting"), e, Some(init), {}, {}, map[]).(section := Some("transitions"),
      finais := {} + f, alfabeto := {} + a, trans := AddAll(map[], keys, m)) ==
      Staging(Some("transitions"), e, Some(init), f, a, m)
  {
    AddAllExact(keys, m);
    assert {} + f == f && {} + a == a;
  }

  lemma LoadOfClean(raw: seq<string>, lines: seq<string>, r: Staging)
    requires Clean(raw) == lines && LoadFrom(Start, lines) == Ok(r) && r.inicial.Some?
    ensures Load(raw) == Ok(r)
  {
  }

  /** The saved lines, nested to the right the way the loader reads them. */
  function Sections(init: State, se: seq<string>, sf: seq<string>, sa: seq<string>, tl: seq<string>): seq<string>
  {
    ["#states"] + (se + (["#initial"] + ([init] + (["#accepting"] + (sf
      + (["#alphabet"] + (sa + (["#transitions"] + tl))))))))
  }

  lemma SectionsClean(init: State, se: seq<string>, sf: seq<string>, sa: seq<string>, tl: seq<string>)
    requires WellFormedName(init)
    requires forall i :: 0 <= i < |se| ==> WellFormedName(se[i])
    requires forall i :: 0 <= i < |sf| ==> WellFormedName(sf[i])
    requires forall i :: 0 <= i < |sa| ==> WellFormedName(sa[i])
    requires forall i :: 0 <= i < |tl| ==> tl[i] != [] && Trimmed(tl[i])
    ensures forall i :: 0 <= i < |Sections(init, se, sf, sa, tl)| ==>
      Sections(init, se, sf, sa, tl)[i] != [] && Trimmed(Sections(init, se, sf, sa, tl)[i])
  {
    assert Trimmed("#states") && Trimmed("#initial") && Trimmed("#accepting")
      && Trimmed("#alphabet") && Trimmed("#transitions");
  }

  lemma SortedWellFormed(s: set<string>)
    requires forall q :: q in s ==> WellFormedName(q)
    ensures forall i :: 0 <= i < |SortedNames(s)| ==> WellFormedName(SortedNames(s)[i])
  {
    var r := SortedNames(s);
    forall i | 0 <= i < |r| ensures WellFormedName(r[i]) {
      assert r[i] in Elements(r);
    }
  }

  lemma CleanSections(init: State, se: seq<string>, sf: seq<string>, sa: seq<string>, keys: seq<Key>,
                       m: map<Key, State>, dests: map<Key, seq<State>>)
    requires WellFormedName(init) && WellFormedRelation(m)
    requires forall i :: 0 <= i < |se| ==> WellFormedName(se[i])
    requires forall i :: 0 <= i < |sf| ==> WellFormedName(sf[i])
    requires forall i :: 0 <= i < |sa| ==> WellFormedName(sa[i])
    requires forall i :: 0 <= i < |keys| ==> keys[i] in m && keys[i] in dests && dests[keys[i]] == [m[keys[i]]]
    ensures Clean(WithNewlines(Sections(init, se, sf, sa, TransitionLines(keys, dests)))) ==
      Sections(init, se, sf, sa, TransitionLines(keys, dests))
  {
    var tl := TransitionLines(keys, dests);
    TransitionLinesClean(keys, m, dests);
    SectionsClean(init, se, sf, sa, tl);
    CleanNewlines(Sections(init, se, sf, sa, tl));
  }

  lemma LoadFromSections(e: set<State>, init: State, f: set<State>, a: set<Symbol>, m: map<Key, State>,
                         se: seq<string>, sf: seq<string>, sa: seq<string>, keys: seq<Key>,
                         dests: map<Key, seq<State>>)
    requires WellFormedName(init) && WellFormedRelation(m)
    requires forall i :: 0 <= i < |se| ==> WellFormedName(se[i])
    requires forall i :: 0 <= i < |sf| ==> WellFormedName(sf[i])
    requires forall i :: 0 <= i < |sa| ==> WellFormedName(sa[i])
    requires Elements(se) == e && Elements(sf) == f && Elements(sa) == a
    requires forall i :: 0 <= i < |keys| ==> keys[i] in m && keys[i] in dests && dests[keys[i]] == [m[keys[i]]]
    requires Elements(keys) == m.Keys
    ensures LoadFrom(Start, Sections(init, se, sf, sa, TransitionLines(keys, dests))) ==
      Ok(Staging(Some("transitions"), e, Some(init), f, a, m))
  {
    var rest := sf + (["#alphabet"] + (sa + (["#transitions"] + TransitionLines(keys, dests))));
    HeadStaging(e, init);
    LoadSavedHead(Start, e, init, se, rest);
    LoadSavedTailFrom(e, init, f, a, m, sf, sa, keys, dests);
  }

  lemma HeadStaging(e: set<State>, init: State)
    ensures Start.(section := Some("accepting"), estados := Start.estados + e, inicial := Some(init)) ==
      Staging(Some("accepting"), e, Some(init), {}, {}, map[])
  {
    assert {} + e == e;
  }

  /** Loading the saved sections, given as lists. */
  lemma LoadSections(e: set<State>, init: State, f: set<State>, a: set<Symbol>, m: map<Key, State>,
                     se: seq<string>, sf: seq<string>, sa: seq<string>, keys: seq<Key>,
                     dests: map<Key, seq<State>>)
    requires WellFormedName(init) && WellFormedRelation(m)
    requires forall i :: 0 <= i < |se| ==> WellFormedName(se[i])
    requires forall i :: 0 <= i < |sf| ==> WellFormedName(sf[i])
    requires forall i :: 0 <= i < |sa| ==> WellFormedName(sa[i])
    requires Elements(se) == e && Elements(sf) == f && Elements(sa) == a
    requires forall i :: 0 <= i < |keys| ==> keys[i] in m && keys[i] in dests && dests[keys[i]] == [m[keys[i]]]
    requires Elements(keys) == m.Keys
    ensures Load(WithNewlines(Sections(init, se, sf, sa, TransitionLines(keys, dests)))) ==
      Ok(Staging(Some("transitions"), e, Some(init), f, a, m))
  {
    var lines := Sections(init, se, sf, sa, TransitionLines(keys, dests));
    CleanSections(init, se, sf, sa, keys, m, dests);
    LoadFromSections(e, init, f, a, m, se, sf, sa, keys, dests);
    LoadOfClean(WithNewlines(lines), lines, Staging(Some("transitions"), e, Some(init), f, a, m));
  }

  lemma SavedAsSections(e: set<State>, init: State, f: set<State>, t: Transitions,
                         dests: map<Key, seq<State>>)
    requires IsListing(dests, t)
    requires forall k :: k in t ==> k in dests
    ensures forall i :: 0 <= i < |SortedKeys(t)| ==> SortedKeys(t)[i] in dests
    ensures SavedLines(e, init, f, t, dests) ==
      Sections(init, SortedNames(e), SortedNames(f), SortedNames(Alphabet(t)), TransitionLines(SortedKeys(t), dests))
  {
    var keys := SortedKeys(t);
    forall i | 0 <= i < |keys| ensures keys[i] in dests {
      assert keys[i] in Elements(keys);
    }
  }

  lemma KeysListed(m: map<Key, State>, dests: map<Key, seq<State>>)
    requires IsListing(dests, Lift(m))
    ensures forall i :: 0 <= i < |SortedKeys(Lift(m))| ==>
      SortedKeys(Lift(m))[i] in m && SortedKeys(Lift(m))[i] in dests && dests[SortedKeys(Lift(m))[i]] == [m[SortedKeys(Lift(m))[i]]]
  {
    var keys := SortedKeys(Lift(m));
    ListingOfLift(m, dests);
    forall i | 0 <= i < |keys| ensures keys[i] in m && keys[i] in dests && dests[keys[i]] == [m[keys[i]]] {
      assert keys[i] in Elements(keys);
    }
  }

  /** Loading what was saved gives back the states, the initial state, the
      final states and the transitions of a deterministic automaton whose
      transition endpoints are states and whose names are well formed. */
  lemma RoundTrip(e: set<State>, init: State, f: set<State>, m: map<Key, State>,
                  dests: map<Key, seq<State>>)
    requires IsListing(dests, Lift(m))
    requires WellFormedName(init) && WellFormedRelation(m)
    requires forall q :: q in e ==> WellFormedName(q)
    requires forall q :: q in f ==> WellFormedName(q)
    requires Endpoints(Lift(m)) <= e
    ensures Load(WithNewlines(SavedLines(e, init, f, Lift(m), dests))) ==
      Ok(Staging(Some("transitions"), e, Some(init), f, Alphabet(Lift(m)), m))
    ensures e + StagedEndpoints(m) == e && Merge(map[], m) == Lift(m)
  {
    StagedEndpointsLift(m);
    var t := Lift(m);
    KeysListed(m, dests);
    SortedWellFormed(e);
    SortedWellFormed(f);
    assert forall q :: q in Alphabet(t) ==> WellFormedName(q);
    SortedWellFormed(Alphabet(t));
    SavedAsSections(e, init, f, t, dests);
    LoadSections(e, init, f, Alphabet(t), m, SortedNames(e), SortedNames(f), SortedNames(Alphabet(t)),
                 SortedKeys(t), dests);
    MergeIntoEmpty(m);
  }

  /** The save loop appends the lines of one more key at the end. */
  lemma {:induction false} TransitionLinesSnoc(keys: seq<Key>, k: Key, dests: map<Key, seq<State>>)
    requires forall i :: 0 <= i < |keys| ==> keys[i] in dests
    requires k in dests
    ensures TransitionLines(keys + [k], dests) == TransitionLines(keys, dests) + KeyLines(k, dests[k])
    decreases |keys|
  {
    if keys == [] {
      assert [] + [k] == [k];
    } else {
      assert (keys + [k])[0] == keys[0] && (keys + [k])[1..] == keys[1..] + [k];
      TransitionLinesSnoc(keys[1..], k, dests);
    }
  }

  /** Recording the listing of a key not yet written leaves the lines
      already written as they were. */
  lemma {:induction false} TransitionLinesFrame(keys: seq<Key>, dests: map<Key, seq<State>>, k: Key, ds: seq<State>)
    requires forall i :: 0 <= i < |keys| ==> keys[i] in dests && keys[i] != k
    ensures TransitionLines(keys, dests[k := ds]) == TransitionLines(keys, dests)
    decreases |keys|
  {
    if keys != [] {
      TransitionLinesFrame(keys[1..], dests, k, ds);
    }
  }

  /** Adding one staged transition with a new key is `adicionar_transicao`. */
  lemma LiftAdd(m: map<Key, State>, k: Key, d: State)
    requires k !in m
    ensures Lift(m[k := d]) == AddTransition(Lift(m), k.0, k.1, d)
  {
    var l, r := Lift(m[k := d]), AddTransition(Lift(m), k.0, k.1, d);
    forall j | j in l ensures l[j] == r[j] {
      assert Dests(l, j) == Dests(r, j);
    }
  }

  lemma MergeAddAt(t: Transitions, m: map<Key, State>, k: Key, d: State, j: Key)
    requires k !in m
    ensures Dests(Merge(t, m[k := d]), j) == Dests(Merge(t, m), j) + (if j == k then {d} else {})
  {
    LiftAdd(m, k, d);
  }

  /** Two relations with the same keys and the same destinations are equal. */
  lemma DestsExtensional(a: Transitions, b: Transitions)
    requires a.Keys == b.Keys && forall j :: Dests(a, j) == Dests(b, j)
    ensures a == b
  {
    forall j | j in a ensures a[j] == b[j] {
      assert Dests(a, j) == Dests(b, j);
    }
  }

  lemma MergeAddDests(t: Transitions, m: map<Key, State>, k: Key, d: State)
    requires k !in m
    ensures forall j :: Dests(Merge(t, m[k := d]), j) == Dests(AddTransition(Merge(t, m), k.0, k.1, d), j)
  {
    forall j ensures Dests(Merge(t, m[k := d]), j) == Dests(AddTransition(Merge(t, m), k.0, k.1, d), j) {
      MergeAddAt(t, m, k, d, j);
    }
  }

  /** The commit loop: merging one more staged transition is one more call of
      `adicionar_transicao`. */
  lemma MergeAdd(t: Transitions, m: map<Key, State>, k: Key, d: State)
    requires k !in m
    ensures Merge(t, m[k := d]) == AddTransition(Merge(t, m), k.0, k.1, d)
  {
    MergeAddDests(t, m, k, d);
    DestsExtensional(Merge(t, m[k := d]), AddTransition(Merge(t, m), k.0, k.1, d));
  }

  /** Committing transitions one at a time adds their endpoints to the states. */
  lemma EndpointsLiftAdd(m: map<Key, State>, k: Key, d: State)
    requires k !in m
    ensures Endpoints(Lift(m[k := d])) == Endpoints(Lift(m)) + {k.0, d}
  {
    LiftAdd(m, k, d);
    AddTransitionKeepsEndpoints(Lift(m), k.0, k.1, d);
  }

  lemma MergeNothing(t: Transitions)
    ensures Merge(t, map[]) == t && Endpoints(Lift(map[])) == {}
  {
    forall j | j in t ensures Merge(t, map[])[j] == t[j] {
      assert Dests(Merge(t, map[]), j) == Dests(t, j);
    }
  }

  /** The listing built so far by the save loop covers exactly `keys`. */
  ghost predicate PartialListing(dests: map<Key, seq<State>>, t: Transitions, keys: seq<Key>)
  {
    && dests.Keys == Elements(keys)
    && (forall i :: 0 <= i < |keys| ==> keys[i] in dests)
    && (forall k :: k in dests ==> k in t && Elements(dests[k]) == t[k] && Distinct(dests[k]))
  }

  /** One round of the save loop keeps the listing in step with the keys
      written so far. */
  lemma ListingStep(t: Transitions, keys: seq<Key>, j: nat, dests: map<Key, seq<State>>, ds: seq<State>)
    requires j < |keys| && SortedBy(keys, KeyLess) && keys[j] in t
    requires PartialListing(dests, t, keys[..j])
    requires Elements(ds) == t[keys[j]] && Distinct(ds)
    ensures PartialListing(dests[keys[j] := ds], t, keys[..j + 1])
  {
    var k := keys[j];
    var d2 := dests[k := ds];
    var before, after := keys[..j], keys[..j + 1];
    assert after == before + [k];
    assert Elements(after) == Elements(before) + {k};
  }

  /** ... and appends the lines of the new key to those already written. */
  lemma ListingLines(keys: seq<Key>, j: nat, dests: map<Key, seq<State>>, ds: seq<State>)
    requires j < |keys| && SortedBy(keys, KeyLess)
    requires forall i :: 0 <= i < j ==> keys[i] in dests
    ensures TransitionLines(keys[..j + 1], dests[keys[j] := ds]) ==
      TransitionLines(keys[..j], dests) + KeyLines(keys[j], ds)
  {
    var k := keys[j];
    var before := keys[..j];
    assert keys[..j + 1] == before + [k];
    KeyLessIsStrictTotal();
    forall i | 0 <= i < j ensures before[i] in dests && before[i] != k {
      assert KeyLess(keys[i], k);
    }
    TransitionLinesFrame(before, dests, k, ds);
    TransitionLinesSnoc(before, k, dests[k := ds]);
  }

  lemma ListingDone(t: Transitions, keys: seq<Key>, dests: map<Key, seq<State>>)
    requires PartialListing(dests, t, keys) && Elements(keys) == t.Keys
    ensures IsListing(dests, t)
  {
  }

  /** The origins and destinations of the staged transitions. */
  function StagedEndpoints(m: map<Key, State>): set<State>
  {
    (set k | k in m :: k.0) + (set k | k in m :: m[k])
  }

  lemma StagedEndpointsLift(m: map<Key, State>)
    ensures StagedEndpoints(m) == Endpoints(Lift(m))
  {
    var l := Lift(m);
    forall x | x in Endpoints(l) ensures x in StagedEndpoints(m) {
      if k :| k in l && k.0 == x {
      } else {
        var k, y :| k in l && y in l[k] && y == x;
        assert y == m[k];
      }
    }
    forall x | x in StagedEndpoints(m) ensures x in Endpoints(l) {
      if k :| k in m && k.0 == x {
      } else {
        var k :| k in m && m[k] == x;
        assert x in l[k];
      }
    }
  }

  lemma StagedEndpointsAdd(m: map<Key, State>, k: Key, d: State)
    requires k !in m
    ensures StagedEndpoints(m[k := d]) == StagedEndpoints(m) + {k.0, d}
  {
    var m2 := m[k := d];
    assert k in m2 && m2[k] == d;
    forall x | x in StagedEndpoints(m2) ensures x in StagedEndpoints(m) + {k.0, d} {
      if j :| j in m2 && j.0 == x {
        if j != k { assert j in m; }
      } else {
        var j :| j in m2 && m2[j] == x;
        if j != k { assert j in m && m[j] == x; }
      }
    }
    forall x | x in StagedEndpoints(m) ensures x in StagedEndpoints(m2) {
      if j :| j in m && j.0 == x {
        assert j in m2;
      } else {
        var j :| j in m && m[j] == x;
        assert j in m2 && m2[j] == x;
      }
    }
  }

  /** The commit loop has added exactly the staged transitions outside
      `rest`, whose endpoints are `extremos`. */
  ghost predicate PartialCommit(m: map<Key, State>, feitas: map<Key, State>, rest: set<Key>, extremos: set<State>)
  {
    && rest <= m.Keys && feitas.Keys == m.Keys - rest && (forall k :: k in feitas ==> feitas[k] == m[k])
    && extremos == StagedEndpoints(feitas)
  }

  lemma CommitStart(m: map<Key, State>)
    ensures PartialCommit(m, map[], m.Keys, {})
  {
  }

  lemma CommitStep(m: map<Key, State>, feitas: map<Key, State>, rest: set<Key>, extremos: set<State>, k: Key)
    requires PartialCommit(m, feitas, rest, extremos) && k in rest
    ensures k !in feitas && PartialCommit(m, feitas[k := m[k]], rest - {k}, extremos + {k.0, m[k]})
  {
    StagedEndpointsAdd(feitas, k, m[k]);
  }

  lemma CommitDone(m: map<Key, State>, feitas: map<Key, State>, extremos: set<State>)
    requires PartialCommit(m, feitas, {}, extremos)
    ensures feitas == m && extremos == StagedEndpoints(m)
  {
  }

  /** The save loop has written the blocks of the first `j` sorted keys. */
  ghost predicate BlocksSoFar(t: Transitions, keys: seq<Key>, j: nat, dests: map<Key, seq<State>>, lines: seq<string>)
  {
    j <= |keys| && PartialListing(dests, t, keys[..j]) && lines == TransitionLines(keys[..j], dests)
  }

  lemma BlocksStep(t: Transitions, keys: seq<Key>, j: nat, dests: map<Key, seq<State>>, lines: seq<string>,
                   ds: seq<State>, kl: seq<string>)
    requires j < |keys| && SortedBy(keys, KeyLess) && keys[j] in t
    requires BlocksSoFar(t, keys, j, dests, lines)
    requires Elements(ds) == t[keys[j]] && Distinct(ds) && kl == KeyLines(keys[j], ds)
    ensures BlocksSoFar(t, keys, j + 1, dests[keys[j] := ds], lines + kl)
  {
    ListingStep(t, keys, j, dests, ds);
    ListingLines(keys, j, dests, ds);
  }

  /** A repeated `(origin, symbol)` in the transitions section keeps the
      destination of its last line. */
  lemma LastDestinationWins(st: Staging, k: Key, d1: State, d2: State)
    requires st.section == Some("transitions")
    requires WellFormedName(k.0) && WellFormedName(k.1) && WellFormedName(d1) && WellFormedName(d2)
    ensures LoadFrom(st, [Line(k, d1), Line(k, d2)]) == Ok(st.(trans := st.trans[k := d2]))
  {
    var s1 := st.(trans := st.trans[k := d1]);
    StepTransition(st, k, d1);
    StepTransition(s1, k, d2);
    LoadCons(st, Line(k, d1), [Line(k, d2)]);
    LoadCons(s1, Line(k, d2), []);
    assert s1.(trans := s1.trans[k := d2]) == st.(trans := st.trans[k := d2]);
  }
}
