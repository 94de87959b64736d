/** The grammar text of LFA/GLC/glc.py: `parse_grammar` turns lines
    `L -> a | b` into a dictionary from left sides to lists of alternatives,
    `format_grammar_as_text` and the txt branch of `save_to_file` write such a
    dictionary back as text, and `lsystem_generate` rewrites an axiom with
    deterministic character rules. */
module Grammar {
  import opened Wrappers
  import opened Text

  /** One entry of the grammar dictionary: a left side and its alternatives. */
  datatype Production = Production(head: string, alternatives: seq<string>)

  /** A Python dictionary from left sides to alternatives, in insertion order. */
  type Grammar = seq<Production>


  /** The keys of a dictionary are distinct. */
  predicate DistinctHeads(g: Grammar)
  {
    forall a, b :: 0 <= a < b < |g| ==> g[a].head != g[b].head
  }

  /** `grammar.get(k)`. */
  function Lookup(g: Grammar, k: string): (r: Option<seq<string>>)
    ensures r.None? <==> forall i :: 0 <= i < |g| ==> g[i].head != k
  {
    if g == [] then None
    else if g[0].head == k then Some(g[0].alternatives)
    else Lookup(g[1..], k)
  }

  /** `grammar[k] = v`: a key already present keeps its place and takes the
      new alternatives; a new key goes last. */
  function Put(g: Grammar, k: string, v: seq<string>): (r: Grammar)
    ensures Lookup(r, k) == Some(v)
    ensures forall k' :: k' != k ==> Lookup(r, k') == Lookup(g, k')
    ensures Lookup(g, k).None? ==> r == g + [Production(k, v)]
    ensures Lookup(g, k).Some? ==> |r| == |g| && forall i :: 0 <= i < |g| ==> r[i].head == g[i].head
  {
    if g == [] then [Production(k, v)]
    else if g[0].head == k then [Production(k, v)] + g[1..]
    else [g[0]] + Put(g[1..], k, v)
  }

  /** Assigning a key keeps the keys of a dictionary distinct. */
  lemma PutDistinct(g: Grammar, k: string, v: seq<string>)
    requires DistinctHeads(g)
    ensures DistinctHeads(Put(g, k, v))
  {
    var r := Put(g, k, v);
    if Lookup(g, k).None? {
      forall a, b | 0 <= a < b < |r| ensures r[a].head != r[b].head {
        if b == |g| {
          assert r[a] == g[a];
        } else {
          assert r[a] == g[a] && r[b] == g[b];
        }
      }
    }
  }

  /** Python's `[x.strip() for x in xs]`. */
  function StripAll(xs: seq<string>): (r: seq<string>)
    ensures |r| == |xs| && forall i :: 0 <= i < |xs| ==> r[i] == Strip(xs[i])
  {
    if xs == [] then [] else [Strip(xs[0])] + StripAll(xs[1..])
  }

  /** What one line contributes to `parse_grammar`: nothing when it has no
      `->`, the error the two-way unpacking raises when it splits into more
      than two sides, and otherwise the stripped left side with its
      stripped alternatives. */
  function ReadLine(line: string): Result<Option<Production>, string>
  {
    if !Contains(line, "->") then Ok(None)
    else
      var parts := SplitOn(line, "->");
      if |parts| != 2 then Err(line)
      else Ok(Some(Production(Strip(parts[0]), StripAll(SplitOn(parts[1], "|")))))
  }

  /** The dictionary after a line that defines `def`, if any. */
  function Install(g: Grammar, def: Option<Production>): Grammar
  {
    if def.None? then g else Put(g, def.value.head, def.value.alternatives)
  }

  /** The dictionary `parse_grammar` builds from `lines` on top of `g`, or
      the first line whose unpacking raises. */
  function ParseLines(lines: seq<string>, g: Grammar): Result<Grammar, string>
  {
    if lines == [] then Ok(g)
    else
      var r := ReadLine(lines[0]);
      if r.Err? then Err(r.error) else ParseLines(lines[1..], Install(g, r.value))
  }

  /** `parse_grammar`: every line of the text in turn; lines without `->`
      are skipped, a later line for the same left side replaces the
      alternatives of an earlier one. */
  method ParseGrammar(text: string) returns (r: Result<Grammar, string>)
    ensures r == ParseLines(SplitLines(text), [])
  {
    var lines := SplitLines(text);
    var grammar: Grammar := [];
    var i := 0;
    while i < |lines|
      invariant i <= |lines|
      invariant ParseLines(lines[i..], grammar) == ParseLines(lines, [])
    {
      var line := lines[i];
      ParseLinesCons(lines[i..], grammar);
      assert lines[i..][1..] == lines[i + 1..];
      if Contains(line, "->") {
        var parts := SplitOn(line, "->");
        if |parts| != 2 {
          return Err(line);
        }
        var left := Strip(parts[0]);
        var right := StripAll(SplitOn(parts[1], "|"));
        grammar := Put(grammar, left, right);
      }
      i := i + 1;
    }
    assert lines[i..] == [];
    return Ok(grammar);
  }

  lemma ParseLinesCons(lines: seq<string>, g: Grammar)
    requires lines != []
    ensures ParseLines(lines, g) ==
      if ReadLine(lines[0]).Err? then Err(lines[0])
      else ParseLines(lines[1..], Install(g, ReadLine(lines[0]).value))
  {
  }

  /** A line that makes the two-way unpacking in `parse_grammar` raise. */
  predicate Malformed(line: string)
  {
    ReadLine(line).Err?
  }

  /** Parsing fails exactly when some line is malformed, and then it
      reports a malformed line of the text. */
  lemma {:induction false} ParseFails(lines: seq<string>, g: Grammar)
    ensures ParseLines(lines, g).Err? <==> exists i :: 0 <= i < |lines| && Malformed(lines[i])
    ensures ParseLines(lines, g).Err? ==> ParseLines(lines, g).error in lines && Malformed(ParseLines(lines, g).error)
  {
    if lines != [] {
      var tail := lines[1..];
      var r := ReadLine(lines[0]);
      if r.Ok? {
        ParseFails(tail, Install(g, r.value));
        forall i | 0 < i < |lines| ensures lines[i] == tail[i - 1] {}
      } else {
        assert ReadLine(lines[0]).error == lines[0];
      }
    }
  }

  /** The production a line defines, if it defines one. */
  function Definition(line: string): Option<Production>
  {
    if ReadLine(line).Err? then None else ReadLine(line).value
  }

  /** What the last line of `lines` defining `k` gives it, or `d` when no
      line does. */
  function LastDefinition(lines: seq<string>, k: string, d: Option<seq<string>>): Option<seq<string>>
  {
    if lines == [] then d
    else
      var def := Definition(lines[|lines| - 1]);
      if def.Some? && def.value.head == k then Some(def.value.alternatives)
      else LastDefinition(lines[..|lines| - 1], k, d)
  }

  /** The value of `k` after a line defining `def`, if any. */
  function Override(def: Option<Production>, k: string, d: Option<seq<string>>): Option<seq<string>>
  {
    if def.Some? && def.value.head == k then Some(def.value.alternatives) else d
  }

  /** After a successful parse each left side holds the alternatives of
      its last defining line; keys no line defines keep their old value. */
  lemma {:induction false} ParseLookup(lines: seq<string>, g: Grammar, k: string)
    requires ParseLines(lines, g).Ok?
    ensures Lookup(ParseLines(lines, g).value, k) == LastDefinition(lines, k, Lookup(g, k))
    decreases |lines|
  {
    if lines != [] {
      var tail := lines[1..];
      var def := Definition(lines[0]);
      var g' := Install(g, def);
      ParseLinesStep(lines, g);
      InstallLookup(g, def, k);
      ParseLookup(tail, g', k);
      LastDefinitionCons(lines, k, Lookup(g, k));
    }
  }

  lemma ParseLinesStep(lines: seq<string>, g: Grammar)
    requires lines != [] && ParseLines(lines, g).Ok?
    ensures ParseLines(lines, g) == ParseLines(lines[1..], Install(g, Definition(lines[0])))
  {
  }

  lemma InstallLookup(g: Grammar, def: Option<Production>, k: string)
    ensures Lookup(Install(g, def), k) == Override(def, k, Lookup(g, k))
  {
  }

  lemma {:induction false} LastDefinitionCons(lines: seq<string>, k: string, d: Option<seq<string>>)
    requires lines != []
    ensures LastDefinition(lines, k, d) == LastDefinition(lines[1..], k, Override(Definition(lines[0]), k, d))
    decreases |lines|
  {
    if |lines| > 1 {
      var init := lines[..|lines| - 1];
      assert init[0] == lines[0];
      assert init[1..] == lines[1..][..|lines[1..]| - 1];
      assert lines[1..][|lines[1..]| - 1] == lines[|lines| - 1];
      LastDefinitionCons(init, k, d);
    } else {
      assert lines[..|lines| - 1] == [] && lines[1..] == [];
    }
  }

  /** The parsed dictionary never holds a key twice. */
  lemma {:induction false} ParseDistinct(lines: seq<string>, g: Grammar)
    requires DistinctHeads(g) && ParseLines(lines, g).Ok?
    ensures DistinctHeads(ParseLines(lines, g).value)
    decreases |lines|
  {
    if lines != [] {
      var def := Definition(lines[0]);
      var g' := Install(g, def);
      ParseLinesStep(lines, g);
      if def.Some? {
        PutDistinct(g, def.value.head, def.value.alternatives);
      }
      ParseDistinct(lines[1..], g');
    }
  }

  /** One line of `format_grammar_as_text`: `key -> a | b`. */
  function FormatProduction(p: Production): string
  {
    p.head + " -> " + Join(p.alternatives, " | ")
  }

  function FormatLines(g: Grammar): (r: seq<string>)
    ensures |r| == |g| && forall i :: 0 <= i < |g| ==> r[i] == FormatProduction(g[i])
  {
    if g == [] then [] else [FormatProduction(g[0])] + FormatLines(g[1..])
  }

  /** `format_grammar_as_text`: one line per key, joined by newlines. */
  function FormatGrammarAsText(g: Grammar): string
  {
    Join(FormatLines(g), "\n")
  }

  /** The txt branch of `save_to_file`: every formatted line followed by a
      newline. */
  method SaveTxt(g: Grammar) returns (content: string)
    ensures content == if g == [] then "" else FormatGrammarAsText(g) + "\n"
  {
    content := "";
    for i := 0 to |g|
      invariant content == if i == 0 then "" else Join(FormatLines(g)[..i], "\n") + "\n"
    {
      SaveStep(FormatLines(g), i);
      content := content + FormatProduction(g[i]) + "\n";
    }
    assert FormatLines(g)[..|g|] == FormatLines(g);
  }

  lemma SaveStep(lines: seq<string>, i: nat)
    requires i < |lines|
    ensures Join(lines[..i + 1], "\n") + "\n" ==
      (if i == 0 then "" else Join(lines[..i], "\n") + "\n") + lines[i] + "\n"
  {
    JoinSnoc(lines[..i], lines[i], "\n");
    assert lines[..i + 1] == lines[..i] + [lines[i]];
  }

  /** A name or alternative the text format carries unchanged: no
      surrounding whitespace, no `->`, no line break. */
  predicate Plain(s: string)
  {
    Trimmed(s) && !Contains(s, "->") && NoLineBreak(s)
  }

  predicate PlainAlternatives(alts: seq<string>)
  {
    alts != [] && forall j :: 0 <= j < |alts| ==> Plain(alts[j]) && '|' !in alts[j]
  }

  predicate PlainProduction(p: Production)
  {
    Plain(p.head) && PlainAlternatives(p.alternatives)
  }

  /** The dictionaries `format_grammar_as_text` and `parse_grammar` agree on:
      every name and alternative plain, no alternative with `|`, no empty
      list of alternatives. */
  predicate WellFormed(g: Grammar)
  {
    DistinctHeads(g) && forall i :: 0 <= i < |g| ==> PlainProduction(g[i])
  }

  /** Formatting then parsing gives back the dictionary. */
  lemma RoundTrip(g: Grammar)
    requires WellFormed(g)
    ensures ParseLines(SplitLines(FormatGrammarAsText(g)), []) == Ok(g)
  {
    FormattedLinesPlain(g);
    SplitLinesJoin(FormatLines(g));
    ParseFormatted(g, []);
    assert [] + g == g;
  }

  /** Loading a saved txt file gives back the dictionary. */
  lemma SaveRoundTrip(g: Grammar)
    requires WellFormed(g)
    ensures ParseLines(SplitLines(if g == [] then "" else FormatGrammarAsText(g) + "\n"), []) == Ok(g)
  {
    if g != [] {
      FormattedLinesPlain(g);
      SplitLinesTerminated(FormatLines(g));
      ParseFormatted(g, []);
      assert [] + g == g;
    } else {
      assert SplitLines("") == [];
    }
  }

  lemma FormattedLinesPlain(g: Grammar)
    requires WellFormed(g)
    ensures forall i :: 0 <= i < |g| ==> FormatLines(g)[i] != [] && NoLineBreak(FormatLines(g)[i])
  {
    forall i | 0 <= i < |g|
      ensures FormatLines(g)[i] != [] && NoLineBreak(FormatLines(g)[i])
    {
      FormattedLinePlain(g[i]);
    }
  }

  lemma FormattedLinePlain(p: Production)
    requires PlainProduction(p)
    ensures FormatProduction(p) != [] && NoLineBreak(FormatProduction(p))
  {
    JoinNoLineBreak(p.alternatives, " | ");
    NoLineBreakConcat(p.head, " -> ");
    NoLineBreakConcat(p.head + " -> ", Join(p.alternatives, " | "));
  }

  lemma NoLineBreakConcat(a: string, b: string)
    requires NoLineBreak(a) && NoLineBreak(b)
    ensures NoLineBreak(a + b)
  {
    forall i | 0 <= i < |a + b| ensures !IsLineBreak((a + b)[i]) {
      if i < |a| { assert (a + b)[i] == a[i]; } else { assert (a + b)[i] == b[i - |a|]; }
    }
  }

  lemma {:induction false} JoinNoLineBreak(xs: seq<string>, sep: string)
    requires NoLineBreak(sep) && forall j :: 0 <= j < |xs| ==> NoLineBreak(xs[j])
    ensures NoLineBreak(Join(xs, sep))
    decreases |xs|
  {
    if |xs| > 1 {
      JoinNoLineBreak(xs[1..], sep);
      NoLineBreakConcat(xs[0], sep);
      NoLineBreakConcat(xs[0] + sep, Join(xs[1..], sep));
    }
  }

  /** Parsing the formatted lines of `g` on top of `acc` appends `g`. */
  lemma {:induction false} ParseFormatted(g: Grammar, acc: Grammar)
    requires WellFormed(g)
    requires forall a, b :: 0 <= a < |acc| && 0 <= b < |g| ==> acc[a].head != g[b].head
    ensures ParseLines(FormatLines(g), acc) == Ok(acc + g)
    decreases |g|
  {
    if g == [] {
      assert acc + g == acc;
    } else {
      var p := g[0];
      ReadFormatted(p);
      ParseLinesCons(FormatLines(g), acc);
      assert FormatLines(g)[1..] == FormatLines(g[1..]);
      assert Install(acc, Some(p)) == acc + [p] by {
        assert Lookup(acc, p.head).None?;
      }
      WellFormedTail(g, acc);
      ParseFormatted(g[1..], acc + [p]);
      AppendFirst(acc, g);
    }
  }

  lemma AppendFirst<T>(xs: seq<T>, ys: seq<T>)
    requires ys != []
    ensures xs + [ys[0]] + ys[1..] == xs + ys
  {
    assert [ys[0]] + ys[1..] == ys;
  }

  lemma WellFormedTail(g: Grammar, acc: Grammar)
    requires g != [] && WellFormed(g)
    requires forall a, b :: 0 <= a < |acc| && 0 <= b < |g| ==> acc[a].head != g[b].head
    ensures WellFormed(g[1..])
    ensures forall a, b :: 0 <= a < |acc + [g[0]]| && 0 <= b < |g[1..]| ==> (acc + [g[0]])[a].head != g[1..][b].head
  {
    forall a, b | 0 <= a < |acc + [g[0]]| && 0 <= b < |g[1..]|
      ensures (acc + [g[0]])[a].head != g[1..][b].head
    {
      assert g[1..][b] == g[b + 1];
      if a == |acc| {
        assert (acc + [g[0]])[a] == g[0];
      } else {
        assert (acc + [g[0]])[a] == acc[a];
      }
    }
    forall a, b | 0 <= a < b < |g[1..]| ensures g[1..][a].head != g[1..][b].head {
      assert g[1..][a] == g[a + 1] && g[1..][b] == g[b + 1];
    }
    forall i | 0 <= i < |g[1..]| ensures PlainProduction(g[1..][i]) {
      assert g[1..][i] == g[i + 1];
    }
  }

  /** One formatted line reads back as its production. */
  lemma ReadFormatted(p: Production)
    requires PlainProduction(p)
    ensures ReadLine(FormatProduction(p)) == Ok(Some(p))
  {
    SplitFormatted(p);
    HeadStripped(p.head);
    SplitAlternatives(p.alternatives);
  }

  /** A formatted line splits on `->` into the padded head and the padded
      alternatives. */
  lemma SplitFormatted(p: Production)
    requires PlainProduction(p)
    ensures Contains(FormatProduction(p), "->")
    ensures SplitOn(FormatProduction(p), "->") == [p.head + " ", " " + Join(p.alternatives, " | ")]
  {
    var a, b := p.head + " ", " " + Join(p.alternatives, " | ");
    assert FormatProduction(p) == a + "->" + b;
    HeadSplits(p.head, b);
    AlternativesArrowFree(p.alternatives);
    SplitOnFree(b, "->");
  }

  lemma HeadStripped(head: string)
    requires Trimmed(head)
    ensures Strip(head + " ") == head
  {
    StripPadded("", head, " ");
    assert "" + head + " " == head + " ";
  }

  /** In `head + " ->" + b` the first `->` is the one after the head. */
  lemma HeadSplits(head: string, b: string)
    requires !Contains(head, "->")
    ensures Contains(head + " " + "->" + b, "->")
    ensures SplitOn(head + " " + "->" + b, "->") == [head + " "] + SplitOn(b, "->")
  {
    var a := head + " ";
    var line := a + "->" + b;
    assert line[|a|..][..2] == "->";
    ContainsAt(line, "->", |a|);
    forall i | 0 <= i < |a|
      ensures !StartsWith(line[i..], "->")
    {
      StartsWithArrow(line, i);
      if i + 1 < |head| {
        ArrowFreeAt(head, i);
        assert line[i] == head[i] && line[i + 1] == head[i + 1];
      } else if i + 1 == |head| {
        assert line[i + 1] == ' ';
      } else {
        assert line[i] == ' ';
      }
    }
    SplitOnFirst(a, "->", b);
  }

  lemma StartsWithArrow(s: string, i: nat)
    requires i + 2 <= |s|
    ensures StartsWith(s[i..], "->") <==> s[i] == '-' && s[i + 1] == '>'
  {
    assert s[i..][..2] == [s[i], s[i + 1]];
  }

  lemma ArrowFreeAt(s: string, i: nat)
    requires !Contains(s, "->") && i + 1 < |s|
    ensures !(s[i] == '-' && s[i + 1] == '>')
  {
    StartsWithArrow(s, i);
    if StartsWith(s[i..], "->") {
      ContainsAt(s, "->", i);
    }
  }

  /** `" " + " | ".join(alts)` has no `->` when no alternative has one. */
  lemma {:induction false} AlternativesArrowFree(alts: seq<string>)
    requires forall j :: 0 <= j < |alts| ==> !Contains(alts[j], "->")
    ensures !Contains(" " + Join(alts, " | "), "->")
    decreases |alts|
  {
    NoSeparatorIn(" ", "->");
    if |alts| > 1 {
      AlternativesArrowFree(alts[1..]);
      var rest := " " + Join(alts[1..], " | ");
      var first := " " + alts[0] + " ";
      assert " " + Join(alts, " | ") == first + ("|" + rest);
      NoSeparatorIn("|", "->");
      NoArrowAcross("|", rest);
      NoArrowAcross(" ", alts[0]);
      NoArrowAcross(" " + alts[0], " ");
      NoArrowAcross(first, "|" + rest);
    } else if |alts| == 1 {
      NoArrowAcross(" ", alts[0]);
    } else {
      assert " " + Join(alts, " | ") == " ";
    }
  }

  /** No `->` arises where `b` starts with a character other than `>` or
      `a` ends with one other than `-`. */
  lemma NoArrowAcross(a: string, b: string)
    requires !Contains(a, "->") && !Contains(b, "->")
    requires (b != [] && b[0] != '>') || (a != [] && a[|a| - 1] != '-')
    ensures !Contains(a + b, "->")
  {
    if Contains(a + b, "->") {
      ContainsConcat2(a, b, "->");
    }
  }

  /** Splitting `" " + " | ".join(alts)` on `|` and stripping each piece
      gives the alternatives back. */
  lemma {:induction false} SplitAlternatives(alts: seq<string>)
    requires alts != []
    requires forall j :: 0 <= j < |alts| ==> Trimmed(alts[j]) && '|' !in alts[j]
    ensures StripAll(SplitOn(" " + Join(alts, " | "), "|")) == alts
    decreases |alts|
  {
    if |alts| == 1 {
      SplitOnCharFree(" " + alts[0], '|');
      StripPadded(" ", alts[0], "");
      assert " " + alts[0] + "" == " " + alts[0];
    } else {
      var first, rest := " " + alts[0] + " ", " " + Join(alts[1..], " | ");
      assert " " + Join(alts, " | ") == first + "|" + rest;
      SplitOnChar(first, '|', rest);
      SplitAlternatives(alts[1..]);
      StripPadded(" ", alts[0], " ");
      StripAllCons(first, SplitOn(rest, "|"));
      AppendFirst([], alts);
      assert [] + [alts[0]] == [alts[0]] && [] + alts == alts;
    }
  }

  lemma StripAllCons(x: string, xs: seq<string>)
    ensures StripAll([x] + xs) == [Strip(x)] + StripAll(xs)
  {
    assert ([x] + xs)[1..] == xs;
  }

  /** One step of `lsystem_generate`: every character `c` replaced by
      `rules.get(c, c)`. */
  function Rewrite(rules: map<string, string>, s: string): string
  {
    if s == [] then ""
    else (if [s[0]] in rules then rules[[s[0]]] else [s[0]]) + Rewrite(rules, s[1..])
  }

  /** The sequence after `n` rewriting steps from `axiom`. */
  function Generation(rules: map<string, string>, axiom: string, n: nat): string
  {
    if n == 0 then axiom else Rewrite(rules, Generation(rules, axiom, n - 1))
  }

  /** `lsystem_generate`; `range` of a negative count is empty. */
  method LSystemGenerate(axiom: string, rules: map<string, string>, iterations: int) returns (sequence: string)
    ensures sequence == Generation(rules, axiom, if iterations < 0 then 0 else iterations)
  {
    sequence := axiom;
    var n := if iterations < 0 then 0 else iterations;
    for i := 0 to n
      invariant sequence == Generation(rules, axiom, i)
    {
      var nextSequence := Rewrite(rules, sequence);
      sequence := nextSequence;
    }
  }

  /** Rewriting works character by character. */
  lemma {:induction false} RewriteConcat(rules: map<string, string>, a: string, b: string)
    ensures Rewrite(rules, a + b) == Rewrite(rules, a) + Rewrite(rules, b)
    decreases |a|
  {
    if a == [] {
      assert a + b == b;
    } else {
      assert (a + b)[0] == a[0] && (a + b)[1..] == a[1..] + b;
      RewriteConcat(rules, a[1..], b);
    }
  }

  /** Characters without a rule are kept: with no rule for any character
      of `s`, a step leaves `s` unchanged. */
  lemma {:induction false} RewriteUnruled(rules: map<string, string>, s: string)
    requires forall i :: 0 <= i < |s| ==> [s[i]] !in rules
    ensures Rewrite(rules, s) == s
    decreases |s|
  {
    if s != [] {
      assert [s[0]] !in rules;
      RewriteUnruled(rules, s[1..]);
    }
  }

  /** With an empty rule map every generation is the axiom. */
  lemma {:induction false} GenerationNoRules(axiom: string, n: nat)
    ensures Generation(map[], axiom, n) == axiom
  {
    if n > 0 {
      GenerationNoRules(axiom, n - 1);
      RewriteUnruled(map[], axiom);
    }
  }

  /** `n` steps followed by `m` steps are `n + m` steps. */
  lemma {:induction false} GenerationAdd(rules: map<string, string>, axiom: string, n: nat, m: nat)
    ensures Generation(rules, Generation(rules, axiom, n), m) == Generation(rules, axiom, n + m)
  {
    if m > 0 {
      GenerationAdd(rules, axiom, n, m - 1);
    }
  }
}
