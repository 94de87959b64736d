/** The two string searches of LFA/KMP/busca_v2.py: the window-by-window
    comparison search (`BuscaComparacao`) and Knuth–Morris–Pratt
    (`BuscaKMP`), each returning the starts of the occurrences of the
    pattern and the number of character comparisons it made. */
module Search {
  import opened Text

  /** `padrao` occurs in `texto` starting at `s`. */
  predicate MatchAt(texto: string, padrao: string, s: nat)
  {
    s + |padrao| <= |texto| && texto[s..s + |padrao|] == padrao
  }

  /** The starts below `n` at which `padrao` occurs, in increasing order. */
  function OccBefore(texto: string, padrao: string, n: nat): seq<nat>
  {
    if n == 0 then []
    else OccBefore(texto, padrao, n - 1) + (if MatchAt(texto, padrao, n - 1) then [n - 1] else [])
  }

  /** Every start of an occurrence of `padrao` in `texto`, in increasing order. */
  function Occurrences(texto: string, padrao: string): seq<nat>
  {
    OccBefore(texto, padrao, |texto| + 1)
  }

  predicate Increasing(xs: seq<nat>)
  {
    forall a, b :: 0 <= a < b < |xs| ==> xs[a] < xs[b]
  }

  lemma {:induction false} OccBeforeMeaning(texto: string, padrao: string, n: nat)
    ensures forall s: nat :: s in OccBefore(texto, padrao, n) <==> s < n && MatchAt(texto, padrao, s)
    ensures Increasing(OccBefore(texto, padrao, n))
  {
    if n > 0 {
      OccBeforeMeaning(texto, padrao, n - 1);
      var xs := OccBefore(texto, padrao, n - 1);
      forall a | 0 <= a < |xs| ensures xs[a] < n - 1 {
        assert xs[a] in xs;
      }
    }
  }

  /** The list both searches must return: exactly the starts of the
      occurrences, each once, in increasing order. */
  lemma OccurrencesMeaning(texto: string, padrao: string)
    ensures forall s: nat :: s in Occurrences(texto, padrao) <==> MatchAt(texto, padrao, s)
    ensures Increasing(Occurrences(texto, padrao))
  {
    OccBeforeMeaning(texto, padrao, |texto| + 1);
  }

  /** Starts in `[a, b)` that are not occurrences add nothing. */
  lemma {:induction false} OccSkip(texto: string, padrao: string, a: nat, b: nat)
    requires a <= b
    requires forall s :: a <= s < b ==> !MatchAt(texto, padrao, s)
    ensures OccBefore(texto, padrao, b) == OccBefore(texto, padrao, a)
    decreases b
  {
    if a < b {
      OccSkip(texto, padrao, a, b - 1);
    }
  }

  /** The number of windows the comparison search tries:
      `len(range(len(texto) - len(padrao) + 1))`. */
  function Windows(texto: string, padrao: string): nat
  {
    if |padrao| <= |texto| then |texto| - |padrao| + 1 else 0
  }

  /** Comparisons made in window `i` from pattern position `j` on: one per
      position until the first mismatch, which is counted too. */
  function WindowCost(texto: string, padrao: string, i: nat, j: nat): nat
    requires i + |padrao| <= |texto| && j <= |padrao|
    decreases |padrao| - j
  {
    if j == |padrao| then 0
    else if padrao[j] != texto[i + j] then 1
    else 1 + WindowCost(texto, padrao, i, j + 1)
  }

  /** Comparisons made in the first `n` windows. */
  function NaiveComparisons(texto: string, padrao: string, n: nat): nat
    requires n <= Windows(texto, padrao)
  {
    if n == 0 then 0
    else NaiveComparisons(texto, padrao, n - 1) + WindowCost(texto, padrao, n - 1, 0)
  }

  lemma {:induction false} WindowCostBounds(texto: string, padrao: string, i: nat, j: nat)
    requires i + |padrao| <= |texto| && j <= |padrao|
    ensures WindowCost(texto, padrao, i, j) <= |padrao| - j
    ensures j < |padrao| ==> WindowCost(texto, padrao, i, j) >= 1
    decreases |padrao| - j
  {
    if j < |padrao| && padrao[j] == texto[i + j] {
      WindowCostBounds(texto, padrao, i, j + 1);
    }
  }

  /** Each window costs at least one comparison and at most `len(padrao)`. */
  lemma {:induction false} NaiveComparisonsBounds(texto: string, padrao: string, n: nat)
    requires n <= Windows(texto, padrao)
    ensures NaiveComparisons(texto, padrao, n) <= n * |padrao|
    ensures |padrao| > 0 ==> NaiveComparisons(texto, padrao, n) >= n
  {
    if n > 0 {
      NaiveComparisonsBounds(texto, padrao, n - 1);
      WindowCostBounds(texto, padrao, n - 1, 0);
      assert (n - 1) * |padrao| + |padrao| == n * |padrao|;
    }
  }

  /** `BuscaComparacao.buscar`: every window is compared from its left end
      until the first mismatch; a window with no mismatch is an occurrence. */
  method BuscaComparacao(texto: string, padrao: string) returns (ocorrencias: seq<nat>, comparacoes: nat)
    ensures ocorrencias == Occurrences(texto, padrao)
    ensures comparacoes == NaiveComparisons(texto, padrao, Windows(texto, padrao))
  {
    ocorrencias := [];
    comparacoes := 0;
    var n := Windows(texto, padrao);
    var i := 0;
    while i < n
      invariant i <= n
      invariant ocorrencias == OccBefore(texto, padrao, i)
      invariant comparacoes == NaiveComparisons(texto, padrao, i)
    {
      var achou := true;
      var j := 0;
      while j < |padrao|
        invariant j <= |padrao| && achou
        invariant texto[i..i + j] == padrao[..j]
        invariant comparacoes == NaiveComparisons(texto, padrao, i) + j
        invariant WindowCost(texto, padrao, i, 0) == j + WindowCost(texto, padrao, i, j)
      {
        comparacoes := comparacoes + 1;
        if padrao[j] != texto[i + j] {
          achou := false;
          break;
        }
        assert texto[i..i + j + 1] == texto[i..i + j] + [texto[i + j]];
        assert padrao[..j + 1] == padrao[..j] + [padrao[j]];
        j := j + 1;
      }
      if achou {
        assert padrao[..j] == padrao;
        ocorrencias := ocorrencias + [i];
      } else {
        assert texto[i..i + |padrao|][j] == texto[i + j];
      }
      i := i + 1;
    }
    OccSkip(texto, padrao, n, |texto| + 1);
  }

  /** A proper border of `w` of length `k`: a prefix that is also a suffix. */
  predicate IsBorder(w: string, k: nat)
  {
    k < |w| && w[..k] == w[|w| - k..]
  }

  /** The longest proper border no longer than `k`. */
  function BorderBelow(w: string, k: nat): (r: nat)
    requires k < |w|
    ensures r <= k && IsBorder(w, r)
    ensures forall m :: r < m <= k ==> !IsBorder(w, m)
  {
    if k == 0 then 0
    else if IsBorder(w, k) then k
    else BorderBelow(w, k - 1)
  }

  /** The value the prefix table holds for the non-empty prefix `w`: the
      length of its longest proper border. */
  function LongestBorder(w: string): (r: nat)
    requires |w| >= 1
    ensures IsBorder(w, r)
    ensures forall m :: r < m < |w| ==> !IsBorder(w, m)
  {
    BorderBelow(w, |w| - 1)
  }

  /** A border of a border is a border. */
  lemma BorderOfBorder(w: string, b: nat, k: nat)
    requires IsBorder(w, b) && IsBorder(w[..b], k)
    ensures IsBorder(w, k)
  {
    assert w[..b][..k] == w[..k];
    assert w[..b][b - k..] == w[|w| - b..][b - k..] == w[|w| - k..];
  }

  /** Every border shorter than a border `b` is a border of `w[..b]`. */
  lemma BorderChain(w: string, b: nat, k: nat)
    requires IsBorder(w, b) && IsBorder(w, k) && k < b
    ensures IsBorder(w[..b], k)
  {
    assert w[..b][..k] == w[..k];
    assert w[..b][b - k..] == w[|w| - b..][b - k..] == w[|w| - k..];
  }

  /** A border of `p[..i + 1]` longer than zero is a border of `p[..i]`
      followed by the character `p[i]`. */
  lemma BorderStep(p: string, i: nat, k: nat)
    requires k < i < |p|
    ensures IsBorder(p[..i + 1], k + 1) <==> IsBorder(p[..i], k) && p[k] == p[i]
  {
    var w, v := p[..i], p[..i + 1];
    assert v[..k + 1] == w[..k] + [p[k]];
    assert v[i - k..] == w[i - k..] + [p[i]];
    if IsBorder(v, k + 1) {
      assert v[..k + 1][..k] == w[..k];
      assert v[i - k..][..k] == w[i - k..];
      assert v[..k + 1][k] == p[k] && v[i - k..][k] == p[i];
    }
  }

  /** The prefix-table update: after the fallback loop stops at `q`, the
      longest border of `p[..i + 1]` is `q + 1` when `p[q]` extends it and
      `0` otherwise. */
  lemma ExtendBorder(p: string, i: nat, q: nat)
    requires q < i < |p|
    requires IsBorder(p[..i], q)
    requires forall k :: q < k < i && IsBorder(p[..i], k) ==> p[k] != p[i]
    requires q == 0 || p[q] == p[i]
    ensures LongestBorder(p[..i + 1]) == if p[q] == p[i] then q + 1 else 0
  {
    var l := LongestBorder(p[..i + 1]);
    if l > 0 {
      BorderStep(p, i, l - 1);
      assert l - 1 <= q;
    }
    if p[q] == p[i] {
      BorderStep(p, i, q);
    }
  }

  /** One fallback step `p := prefixo[p - 1]` skips no border that could
      still be extended by `padrao[i]`. */
  lemma FallBack(p: string, i: nat, q: nat)
    requires 0 < q < i < |p|
    requires IsBorder(p[..i], q) && p[q] != p[i]
    requires forall k :: q < k < i && IsBorder(p[..i], k) ==> p[k] != p[i]
    ensures IsBorder(p[..i], LongestBorder(p[..q]))
    ensures forall k :: LongestBorder(p[..q]) < k < i && IsBorder(p[..i], k) ==> p[k] != p[i]
  {
    var w := p[..i];
    assert w[..q] == p[..q];
    BorderOfBorder(w, q, LongestBorder(p[..q]));
    forall k | LongestBorder(p[..q]) < k < q && IsBorder(w, k)
      ensures false
    {
      BorderChain(w, q, k);
    }
  }

  /** `BuscaKMP.prefixo`: entry `i` is the length of the longest proper
      border of `padrao[..i + 1]`. */
  method Prefixo(padrao: string) returns (prefixo: array<nat>)
    ensures fresh(prefixo) && prefixo.Length == |padrao|
    ensures forall i :: 0 <= i < |padrao| ==> prefixo[i] == LongestBorder(padrao[..i + 1])
  {
    prefixo := new nat[|padrao|](_ => 0);
    if |padrao| == 0 {
      return;
    }
    assert LongestBorder(padrao[..1]) == 0;
    var p: nat := 0;
    for i := 1 to |padrao|
      invariant p < i && p == LongestBorder(padrao[..i])
      invariant forall k :: 0 <= k < i ==> prefixo[k] == LongestBorder(padrao[..k + 1])
    {
      while p > 0 && padrao[p] != padrao[i]
        invariant p < i && IsBorder(padrao[..i], p)
        invariant forall k :: 0 <= k < i ==> prefixo[k] == LongestBorder(padrao[..k + 1])
        invariant forall k :: p < k < i && IsBorder(padrao[..i], k) ==> padrao[k] != padrao[i]
        decreases p
      {
        FallBack(padrao, i, p);
        p := prefixo[p - 1];
      }
      ExtendBorder(padrao, i, p);
      if padrao[p] == padrao[i] {
        p := p + 1;
      }
      prefixo[i] := p;
    }
  }

  /** After a fallback from `j` matched characters to `LongestBorder`, the
      skipped starts are no occurrences and the kept ones still match. */
  lemma Shift(texto: string, padrao: string, i: nat, j: nat)
    requires 0 < j <= |padrao| && j <= i <= |texto|
    requires texto[i - j..i] == padrao[..j]
    ensures texto[i - LongestBorder(padrao[..j])..i] == padrao[..LongestBorder(padrao[..j])]
    ensures forall s :: i - j < s < i - LongestBorder(padrao[..j]) ==> !MatchAt(texto, padrao, s)
  {
    var w, b := padrao[..j], LongestBorder(padrao[..j]);
    assert texto[i - b..i] == w[j - b..];
    assert w[..b] == padrao[..b];
    forall s | i - j < s < i - b
      ensures !MatchAt(texto, padrao, s)
    {
      MatchIsBorder(texto, padrao, i, j, s);
    }
  }

  /** An occurrence starting inside the matched stretch `texto[i - j..i]`
      makes its overlap with that stretch a border of `padrao[..j]`. */
  lemma MatchIsBorder(texto: string, padrao: string, i: nat, j: nat, s: nat)
    requires 0 < j <= |padrao| && j <= i <= |texto|
    requires texto[i - j..i] == padrao[..j]
    requires i - j < s < i
    ensures MatchAt(texto, padrao, s) ==> IsBorder(padrao[..j], i - s)
  {
    if MatchAt(texto, padrao, s) {
      var w, k := padrao[..j], i - s;
      assert texto[s..i] == texto[s..s + |padrao|][..k] == padrao[..k];
      assert texto[s..i] == w[j - k..];
      assert w[..k] == padrao[..k];
    }
  }

  /** The scan's invariant: `j < len(padrao)` characters ending just before
      `i` match the pattern's prefix, and every occurrence starting before
      `i - j` has been recorded. */
  ghost predicate Scanning(texto: string, padrao: string, i: nat, j: nat, ocorrencias: seq<nat>)
  {
    j < |padrao| && j <= i <= |texto| &&
    texto[i - j..i] == padrao[..j] &&
    ocorrencias == OccBefore(texto, padrao, i - j)
  }

  /** `padrao[j] == texto[i]` with the pattern not yet complete. */
  lemma ScanMatch(texto: string, padrao: string, i: nat, j: nat, ocorrencias: seq<nat>)
    requires Scanning(texto, padrao, i, j, ocorrencias)
    requires i < |texto| && padrao[j] == texto[i] && j + 1 < |padrao|
    ensures Scanning(texto, padrao, i + 1, j + 1, ocorrencias)
  {
    ExtendMatch(texto, padrao, i, j);
  }

  lemma ExtendMatch(texto: string, padrao: string, i: nat, j: nat)
    requires j <= i < |texto| && j < |padrao|
    requires texto[i - j..i] == padrao[..j] && padrao[j] == texto[i]
    ensures texto[i - j..i + 1] == padrao[..j + 1]
  {
    assert texto[i - j..i + 1] == texto[i - j..i] + [texto[i]];
    assert padrao[..j + 1] == padrao[..j] + [padrao[j]];
  }

  /** `padrao[j] == texto[i]` completes an occurrence: it is recorded and the
      scan falls back to the longest border of the pattern. */
  lemma ScanFound(texto: string, padrao: string, i: nat, j: nat, ocorrencias: seq<nat>)
    requires Scanning(texto, padrao, i, j, ocorrencias)
    requires i < |texto| && padrao[j] == texto[i] && j + 1 == |padrao|
    ensures Scanning(texto, padrao, i + 1, LongestBorder(padrao[..j + 1]), ocorrencias + [i - j])
  {
    ExtendMatch(texto, padrao, i, j);
    assert padrao[..j + 1] == padrao;
    assert MatchAt(texto, padrao, i - j);
    Shift(texto, padrao, i + 1, j + 1);
    OccSkip(texto, padrao, i - j + 1, i + 1 - LongestBorder(padrao[..j + 1]));
  }

  /** A mismatch after `j > 0` matched characters: start `i - j` fails and
      the scan falls back to the longest border of `padrao[..j]`. */
  lemma ScanFallBack(texto: string, padrao: string, i: nat, j: nat, ocorrencias: seq<nat>)
    requires Scanning(texto, padrao, i, j, ocorrencias)
    requires i < |texto| && padrao[j] != texto[i] && j > 0
    ensures Scanning(texto, padrao, i, LongestBorder(padrao[..j]), ocorrencias)
  {
    Shift(texto, padrao, i, j);
    OccSkip(texto, padrao, i - j, i - LongestBorder(padrao[..j]));
  }

  /** A mismatch with nothing matched: start `i` fails and the scan moves on. */
  lemma ScanAdvance(texto: string, padrao: string, i: nat, ocorrencias: seq<nat>)
    requires Scanning(texto, padrao, i, 0, ocorrencias)
    requires i < |texto| && padrao[0] != texto[i]
    ensures Scanning(texto, padrao, i + 1, 0, ocorrencias)
  {
    OccSkip(texto, padrao, i, i + 1);
  }

  /** At the end of the text no further start can hold an occurrence. */
  lemma ScanDone(texto: string, padrao: string, j: nat, ocorrencias: seq<nat>)
    requires Scanning(texto, padrao, |texto|, j, ocorrencias)
    ensures ocorrencias == Occurrences(texto, padrao)
  {
    OccSkip(texto, padrao, |texto| - j, |texto| + 1);
  }

  /** `BuscaKMP.buscar`. The only caller rejects an empty pattern before
      searching. */
  method BuscaKMP(texto: string, padrao: string) returns (ocorrencias: seq<nat>, comparacoes: nat)
    requires |padrao| > 0
    ensures ocorrencias == Occurrences(texto, padrao)
    ensures comparacoes <= 2 * |texto|
  {
    var prefixo := Prefixo(padrao);
    ocorrencias := [];
    comparacoes := 0;
    var i: nat, j: nat := 0, 0;
    while i < |texto|
      invariant Scanning(texto, padrao, i, j, ocorrencias)
      invariant forall k :: 0 <= k < |padrao| ==> prefixo[k] == LongestBorder(padrao[..k + 1])
      invariant comparacoes <= 2 * i - j
      decreases 2 * (|texto| - i) + j
    {
      comparacoes := comparacoes + 1;
      if padrao[j] == texto[i] {
        if j + 1 == |padrao| {
          ScanFound(texto, padrao, i, j, ocorrencias);
          ocorrencias := ocorrencias + [i - j];
          i, j := i + 1, prefixo[j];
        } else {
          ScanMatch(texto, padrao, i, j, ocorrencias);
          i, j := i + 1, j + 1;
        }
      } else if j != 0 {
        ScanFallBack(texto, padrao, i, j, ocorrencias);
        j := prefixo[j - 1];
      } else {
        ScanAdvance(texto, padrao, i, ocorrencias);
        i := i + 1;
      }
    }
    ScanDone(texto, padrao, j, ocorrencias);
  }

  /** The outcome of `mostrar_resultados`: the warning for an empty pattern,
      or both searches' occurrences and comparison counts. */
  datatype Resultado =
    | PadraoVazio
    | Resultados(comparacao: seq<nat>, comparacoesBasicas: nat, kmp: seq<nat>, comparacoesKmp: nat)

  /** `mostrar_resultados`: the text is stripped, the pattern stripped and
      lower-cased; an empty pattern is refused before either search runs. */
  method MostrarResultados(campoTexto: string, campoPadrao: string) returns (r: Resultado)
    ensures r.PadraoVazio? <==> Strip(campoPadrao) == []
    ensures r.Resultados? ==>
      r.comparacao == r.kmp == Occurrences(Strip(campoTexto), Lower(Strip(campoPadrao)))
    ensures r.Resultados? ==>
      r.comparacoesBasicas ==
        NaiveComparisons(Strip(campoTexto), Lower(Strip(campoPadrao)),
                         Windows(Strip(campoTexto), Lower(Strip(campoPadrao))))
    ensures r.Resultados? ==> r.comparacoesKmp <= 2 * |Strip(campoTexto)|
  {
    var texto := Strip(campoTexto);
    var padrao := Lower(Strip(campoPadrao));
    if padrao == [] {
      return PadraoVazio;
    }
    var o1, c1 := BuscaComparacao(texto, padrao);
    var o2, c2 := BuscaKMP(texto, padrao);
    r := Resultados(o1, c1, o2, c2);
  }
}
