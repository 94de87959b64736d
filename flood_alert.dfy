/** The label handling of `APP.confirmar_selecao` in
    AI/SimpleClassifier/app.py: the fallback from the predicted index to
    the label table, the normalisation of the label and the choice between
    the flood alert and the normal status. The classifier itself is a
    parameter: the model reaches here as the pair it returns. */
module FloodAlert {
  import opened Wrappers
  import opened Text

  /** `not pred_label`: `None` and the empty string are falsy. */
  predicate Falsy(rotulo: Option<string>)
  {
    rotulo.None? || rotulo.value == ""
  }

  /** `pred_label`, replaced by `labels_map.get(pred_idx, "Desconhecido")`
      when it is falsy and an index came back. */
  function ResolveLabel(predLabel: Option<string>, predIdx: Option<int>, labelsMap: map<int, string>): (r: Option<string>)
    ensures !Falsy(predLabel) || predIdx.None? ==> r == predLabel
    ensures Falsy(predLabel) && predIdx.Some? && predIdx.value in labelsMap ==> r == Some(labelsMap[predIdx.value])
    ensures Falsy(predLabel) && predIdx.Some? && predIdx.value !in labelsMap ==> r == Some("Desconhecido")
  {
    if Falsy(predLabel) && predIdx.Some? then
      Some(if predIdx.value in labelsMap then labelsMap[predIdx.value] else "Desconhecido")
    else predLabel
  }

  predicate IsUpper(c: char)
  {
    'A' <= c <= 'Z'
  }

  /** `pred_label.strip().lower().replace("-", "").rstrip("s")`: no hyphen,
      no trailing `s` and no capital letter are left. */
  function CleanLabel(rotulo: string): (r: string)
    ensures '-' !in r
    ensures r == [] || r[|r| - 1] != 's'
    ensures forall i :: 0 <= i < |r| ==> !IsUpper(r[i])
  {
    var r := RStripChar(RemoveAll(Lower(Strip(rotulo)), '-'), 's');
    CleanChars(Strip(rotulo), r);
    r
  }

  /** What is left after lowering, removing hyphens and trailing `s` are
      lowered characters, none of them a hyphen. */
  lemma CleanChars(s: string, r: string)
    requires r == RStripChar(RemoveAll(Lower(s), '-'), 's')
    ensures forall i :: 0 <= i < |r| ==> !IsUpper(r[i]) && r[i] != '-'
  {
    var lowered := Lower(s);
    var t := RemoveAll(lowered, '-');
    forall i | 0 <= i < |r| ensures !IsUpper(r[i]) && r[i] != '-' {
      assert r[i] == t[i];
      assert t[i] in t;
      var j :| 0 <= j < |lowered| && lowered[j] == t[i];
      assert lowered[j] == LowerChar(s[j]);
    }
  }

  /** `CleanLabel` step by step. */
  lemma CleanSteps(s: string, stripped: string, lowered: string, removed: string, r: string)
    requires Strip(s) == stripped && Lower(stripped) == lowered
    requires RemoveAll(lowered, '-') == removed && RStripChar(removed, 's') == r
    ensures CleanLabel(s) == r
  {
  }

  /** `CleanLabel` sees only what `strip` leaves of the label. */
  lemma CleanLabelStrip(s: string)
    ensures CleanLabel(Strip(s)) == CleanLabel(s)
  {
    StripTrimmed(Strip(s));
  }

  /** Whitespace around a label is absorbed. */
  lemma CleanLabelPadding(w1: string, t: string, w2: string)
    requires AllSpace(w1) && AllSpace(w2) && Trimmed(t)
    ensures CleanLabel(w1 + t + w2) == CleanLabel(t)
  {
    StripPadded(w1, t, w2);
    StripTrimmed(t);
  }

  /** `rstrip(c)` removes one more trailing `c` as well. */
  lemma RStripSnoc(x: string, c: char)
    ensures RStripChar(x + [c], c) == RStripChar(x, c)
  {
    assert (x + [c])[..|x|] == x;
  }

  /** A trimmed string stays trimmed when a non-blank character is
      appended. */
  lemma TrimmedSnoc(t: string, c: char)
    requires Trimmed(t) && !IsSpace(c)
    ensures Trimmed(t + [c])
  {
  }

  /** `strip` leaves a trimmed label as it is, so only the other three
      steps act on it. */
  lemma CleanTrimmed(t: string, removed: string, r: string)
    requires Trimmed(t)
    requires RemoveAll(Lower(t), '-') == removed && RStripChar(removed, 's') == r
    ensures CleanLabel(t) == r
  {
    StripTrimmed(t);
    CleanSteps(t, t, Lower(t), removed, r);
  }

  /** A plural `s` after a label is absorbed. */
  lemma CleanLabelPlural(t: string)
    requires Trimmed(t)
    ensures CleanLabel(t + "s") == CleanLabel(t)
  {
    var lowered := Lower(t);
    var removed := RemoveAll(lowered, '-');
    var r := RStripChar(removed, 's');
    assert Trimmed(t + ['s']) by {
      TrimmedSnoc(t, 's');
    }
    assert Lower(t + ['s']) == lowered + ['s'] by {
      LowerConcat(t, ['s']);
    }
    assert RemoveAll(lowered + ['s'], '-') == removed + ['s'] by {
      RemoveAllKeep(lowered, 's', '-');
    }
    assert RStripChar(removed + ['s'], 's') == r by {
      RStripSnoc(removed, 's');
    }
    CleanTrimmed(t + ['s'], removed + ['s'], r);
    CleanTrimmed(t, removed, r);
  }

  /** A hyphen anywhere in a label is absorbed, as long as it does not
      shield whitespace from `strip`. */
  lemma CleanLabelHyphen(a: string, b: string)
    requires Trimmed(a + b) && Trimmed(a + "-" + b)
    ensures CleanLabel(a + "-" + b) == CleanLabel(a + b)
  {
    var la, lb := Lower(a), Lower(b);
    var removed := RemoveAll(la + lb, '-');
    var r := RStripChar(removed, 's');
    assert Lower(a + ['-'] + b) == la + ['-'] + lb by {
      LowerConcat(a + ['-'], b);
      LowerConcat(a, ['-']);
    }
    assert Lower(a + b) == la + lb by {
      LowerConcat(a, b);
    }
    assert RemoveAll(la + ['-'] + lb, '-') == removed by {
      RemoveAllDrop(la, lb, '-');
    }
    CleanTrimmed(a + ['-'] + b, removed, r);
    CleanTrimmed(a + b, removed, r);
  }

  /** The outcome of the `try` block: the alert box, the normal status box,
      or the error box when `pred_label` is still `None` and `.strip()`
      fails. */
  datatype Outcome = Alerta(rotulo: string) | StatusNormal(rotulo: string) | Erro

  const ALERT_LABELS: seq<string> := ["enchente", "alerta"]

  /** The label fallback, the normalisation and the membership test. */
  function Confirmar(predLabel: Option<string>, predIdx: Option<int>, labelsMap: map<int, string>): (r: Outcome)
    ensures r.Erro? <==> predLabel.None? && predIdx.None?
    ensures r.Alerta? <==>
      (ResolveLabel(predLabel, predIdx, labelsMap).Some? &&
       CleanLabel(ResolveLabel(predLabel, predIdx, labelsMap).value) in ALERT_LABELS)
    ensures !r.Erro? ==> Some(r.rotulo) == ResolveLabel(predLabel, predIdx, labelsMap)
  {
    var rotulo := ResolveLabel(predLabel, predIdx, labelsMap);
    if rotulo.None? then Erro
    else if CleanLabel(rotulo.value) in ALERT_LABELS then Alerta(rotulo.value)
    else StatusNormal(rotulo.value)
  }

  /** A label whose cleaned form is no alert word gives the normal status. */
  lemma NormalFor(predLabel: Option<string>, predIdx: Option<int>, labelsMap: map<int, string>, s: string, clean: string)
    requires ResolveLabel(predLabel, predIdx, labelsMap) == Some(s)
    requires CleanLabel(s) == clean && clean !in ALERT_LABELS
    ensures Confirmar(predLabel, predIdx, labelsMap) == StatusNormal(s)
  {
  }

  /** A falsy label with an unknown index is shown as `Desconhecido`, which
      never raises the alert. */
  lemma UnknownIndexIsNormal(predLabel: Option<string>, idx: int, labelsMap: map<int, string>)
    requires Falsy(predLabel) && idx !in labelsMap
    ensures Confirmar(predLabel, Some(idx), labelsMap) == StatusNormal("Desconhecido")
  {
    CleanDesconhecido();
    NotAlertDesconhecido();
    NormalFor(predLabel, Some(idx), labelsMap, "Desconhecido", "desconhecido");
  }

  lemma CleanDesconhecido()
    ensures CleanLabel("Desconhecido") == "desconhecido"
  {
    LowerDesconhecido();
    RStripDesconhecido();
    CleanPlain("Desconhecido", "desconhecido", "desconhecido");
  }

  lemma NotAlertDesconhecido()
    ensures "desconhecido" !in ALERT_LABELS
  {
  }

  lemma LowerDesconhecido()
    ensures Lower("Desconhecido") == "desconhecido"
  {
  }

  lemma RStripDesconhecido()
    ensures RStripChar("desconhecido", 's') == "desconhecido"
  {
  }

  /** A string with no whitespace at either end is its own `strip`. */
  lemma StripPlain(s: string)
    requires s != [] && !IsSpace(s[0]) && !IsSpace(s[|s| - 1])
    ensures Strip(s) == s
  {
  }

  /** Removing a character that does not occur changes nothing. */
  lemma {:induction false} RemoveAbsent(s: string, c: char)
    requires c !in s
    ensures RemoveAll(s, c) == s
  {
    if s != [] {
      assert c !in s[1..];
      RemoveAbsent(s[1..], c);
    }
  }

  /** The cleaning of a label with no surrounding blanks and no hyphen,
      given its lower-case form and what `rstrip("s")` leaves of that. */
  lemma CleanPlain(s: string, lowered: string, r: string)
    requires s != [] && !IsSpace(s[0]) && !IsSpace(s[|s| - 1])
    requires Lower(s) == lowered && '-' !in lowered
    requires RStripChar(lowered, 's') == r
    ensures CleanLabel(s) == r
  {
    StripPlain(s);
    RemoveAbsent(lowered, '-');
  }

  lemma LowerEnchentes()
    ensures Lower("Enchentes") == "enchentes"
  {
  }

  lemma RStripEnchentes()
    ensures RStripChar("enchentes", 's') == "enchente"
  {
  }

  /** The plural is absorbed. */
  lemma PluralExample()
    ensures CleanLabel("Enchentes") == "enchente"
  {
    LowerEnchentes();
    RStripEnchentes();
    CleanPlain("Enchentes", "enchentes", "enchente");
  }

  lemma StripAlerta()
    ensures Strip(" ALERTA ") == "ALERTA"
  {
    var w, t := " ", "ALERTA";
    assert AllSpace(w) && Trimmed(t);
    StripPadded(w, t, w);
    assert w + t + w == " ALERTA ";
  }

  lemma LowerAlerta()
    ensures Lower("ALERTA") == "alerta"
  {
  }

  lemma RemoveAlerta()
    ensures RemoveAll("alerta", '-') == "alerta"
  {
    RemoveAbsent("alerta", '-');
  }

  lemma RStripAlerta()
    ensures RStripChar("alerta", 's') == "alerta"
  {
  }

  /** The surrounding blanks and the capitals are absorbed. */
  lemma CapitalsExample()
    ensures CleanLabel(" ALERTA ") == "alerta"
  {
    StripAlerta();
    LowerAlerta();
    RStripAlerta();
    RemoveAlerta();
    CleanSteps(" ALERTA ", "ALERTA", "alerta", "alerta", "alerta");
  }

  lemma LowerHyphen()
    ensures Lower("En-chente") == "en-chente"
  {
  }

  /** `replace` drops the one occurrence of `c` between two pieces free of
      it. */
  lemma {:induction false} RemoveBetween(a: string, b: string, c: char)
    requires c !in a && c !in b
    ensures RemoveAll(a + [c] + b, c) == a + b
  {
    if a == [] {
      assert a + [c] + b == [c] + b;
      assert ([c] + b)[1..] == b;
      RemoveAbsent(b, c);
    } else {
      assert (a + [c] + b)[1..] == a[1..] + [c] + b;
      assert c !in a[1..];
      RemoveBetween(a[1..], b, c);
      assert [a[0]] + (a[1..] + b) == a + b;
    }
  }

  lemma RemoveHyphen()
    ensures RemoveAll("en-chente", '-') == "enchente"
  {
    var a, b := "en", "chente";
    RemoveBetween(a, b, '-');
    assert a + ['-'] + b == "en-chente";
    assert a + b == "enchente";
  }

  lemma RStripEnchente()
    ensures RStripChar("enchente", 's') == "enchente"
  {
  }

  /** A stray hyphen is absorbed. */
  lemma HyphenExample()
    ensures CleanLabel("En-chente") == "enchente"
  {
    StripPlain("En-chente");
    LowerHyphen();
    RemoveHyphen();
    RStripEnchente();
  }

  /** A non-empty label whose cleaned form is one of the alert words
      raises the alert, whatever index came with it. */
  lemma AlertFor(s: string, clean: string, predIdx: Option<int>, labelsMap: map<int, string>)
    requires s != [] && CleanLabel(s) == clean && clean in ALERT_LABELS
    ensures Confirmar(Some(s), predIdx, labelsMap) == Alerta(s)
  {
  }

  /** Each of the three labels raises the flood alert. */
  lemma AlertExamples(predIdx: Option<int>, labelsMap: map<int, string>)
    ensures Confirmar(Some("Enchentes"), predIdx, labelsMap) == Alerta("Enchentes")
    ensures Confirmar(Some(" ALERTA "), predIdx, labelsMap) == Alerta(" ALERTA ")
    ensures Confirmar(Some("En-chente"), predIdx, labelsMap) == Alerta("En-chente")
  {
    PluralExample();
    AlertFor("Enchentes", "enchente", predIdx, labelsMap);
    CapitalsExample();
    AlertFor(" ALERTA ", "alerta", predIdx, labelsMap);
    HyphenExample();
    AlertFor("En-chente", "enchente", predIdx, labelsMap);
  }

  lemma LowerCharSpace(c: char)
    ensures IsSpace(LowerChar(c)) == IsSpace(c)
  {
  }

  lemma {:induction false} TrimStartLower(s: string)
    ensures TrimStart(Lower(s)) == Lower(TrimStart(s))
  {
    if |s| > 0 {
      LowerCharSpace(s[0]);
      assert Lower(s)[1..] == Lower(s[1..]);
      if IsSpace(s[0]) {
        TrimStartLower(s[1..]);
      }
    }
  }

  lemma {:induction false} TrimEndLower(s: string)
    ensures TrimEnd(Lower(s)) == Lower(TrimEnd(s))
  {
    if |s| > 0 {
      LowerCharSpace(s[|s| - 1]);
      assert Lower(s)[..|s| - 1] == Lower(s[..|s| - 1]);
      if IsSpace(s[|s| - 1]) {
        TrimEndLower(s[..|s| - 1]);
      }
    }
  }

  /** `lower` touches no whitespace, so it commutes with `strip`. */
  lemma StripLower(s: string)
    ensures Strip(Lower(s)) == Lower(Strip(s))
  {
    TrimStartLower(s);
    TrimEndLower(TrimStart(s));
  }

  /** The decision does not depend on the case of the label. */
  lemma CleanLabelCaseBlind(rotulo: string)
    ensures CleanLabel(Lower(rotulo)) == CleanLabel(rotulo)
  {
    StripLower(rotulo);
    LowerIdempotent(Strip(rotulo));
  }

  lemma LowerIdempotent(s: string)
    ensures Lower(Lower(s)) == Lower(s)
  {
  }
}
