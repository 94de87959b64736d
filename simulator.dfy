/** The non-graphical logic of `SimulatorApp` (LFA/SimuladorAutomatos/main.py):
    starting a simulation from the three text fields, the timer step that
    reads one symbol per tick, adding a transition from the form, and saving
    and loading the project file as lists of lines. The timer is modelled by
    the `running` flag: each tick is one call of `ProximoPasso`, made only
    while `running` holds. */
module Simulator {
  import opened Wrappers
  import opened Text
  import opened Ordering
  import opened Automaton
  import opened ProjectFile

  /** The texts the status label shows. */
  datatype Message =
    | Configuracao
    | TransicaoAdicionada(origem: State, simbolo: Symbol, destino: State)
    | PreenchaCampos
    | EmAndamento
    | CadeiaInvalida
    | EstadosAtuais(estados: set<State>)
    | Aceita
    | Rejeitada
    | ErroCarregar

  /** What a timer tick reads and writes. */
  datatype Snapshot = Snapshot(atuais: set<State>, index: nat, running: bool, mensagem: Message)

  /** One tick of `proximo_passo` on the input `cadeia`. */
  function Passo(t: Transitions, finais: set<State>, cadeia: string, s: Snapshot): Snapshot
  {
    if s.index < |cadeia| then
      var novos := Successors(t, s.atuais, [cadeia[s.index]]);
      if novos != {} then Snapshot(novos, s.index + 1, s.running, EstadosAtuais(novos))
      else Snapshot(s.atuais, s.index + 1, false, Rejeitada)
    else
      Snapshot(s.atuais, s.index, false, if s.atuais * finais != {} then Aceita else Rejeitada)
  }

  /** At most `n` ticks; the timer stops calling once it is stopped. */
  function Ticks(t: Transitions, finais: set<State>, cadeia: string, s: Snapshot, n: nat): Snapshot
    decreases n
  {
    if n == 0 || !s.running then s else Ticks(t, finais, cadeia, Passo(t, finais, cadeia, s), n - 1)
  }

  /** From any running snapshot, the remaining ticks stop the timer with the
      verdict of the rest of the input. */
  lemma {:induction false} TicksDecide(t: Transitions, finais: set<State>, w: string, s: Snapshot)
    requires s.running && s.index <= |w|
    ensures var e := Ticks(t, finais, w, s, |w| - s.index + 1);
      && !e.running
      && (e.mensagem == Aceita || e.mensagem == Rejeitada)
      && (e.mensagem == Aceita <==> Run(t, s.atuais, w[s.index..]).Some? && Run(t, s.atuais, w[s.index..]).value * finais != {})
    decreases |w| - s.index
  {
    var next := Passo(t, finais, w, s);
    if s.index < |w| {
      var rest := w[s.index..];
      assert rest[0] == w[s.index] && rest[1..] == w[s.index + 1..];
      if next.running {
        TicksDecide(t, finais, w, next);
      }
    }
  }

  /** A whole run started by `iniciar_simulacao` ends accepted exactly when
      the automaton accepts the string from the initial state. */
  lemma FullRun(t: Transitions, init: State, finais: set<State>, w: string)
    ensures var e := Ticks(t, finais, w, Snapshot({init}, 0, true, EmAndamento), |w| + 1);
      !e.running && (e.mensagem == Aceita <==> Accepts(t, init, finais, w)) && (e.mensagem == Aceita || e.mensagem == Rejeitada)
  {
    TicksDecide(t, finais, w, Snapshot({init}, 0, true, EmAndamento));
    assert w[0..] == w;
  }

  /** A step reading a symbol that leads nowhere rejects at once. */
  lemma StuckRejects(t: Transitions, finais: set<State>, w: string, s: Snapshot)
    requires s.index < |w| && Successors(t, s.atuais, [w[s.index]]) == {}
    ensures Passo(t, finais, w, s) == s.(index := s.index + 1, running := false, mensagem := Rejeitada)
  {
  }

  /** The inner loop of the save: the destinations of `k`, in the order the
      set happens to be visited, and their lines. */
  method DestinationLines(k: Key, destinos: set<State>) returns (ds: seq<State>, kl: seq<string>)
    ensures Elements(ds) == destinos && Distinct(ds)
    ensures kl == KeyLines(k, ds)
  {
    var rest := destinos;
    ds := [];
    kl := [];
    while rest != {}
      invariant Elements(ds) + rest == destinos && Elements(ds) !! rest && Distinct(ds)
      invariant kl == KeyLines(k, ds)
      decreases rest
    {
      var d :| d in rest;
      ds := ds + [d];
      kl := kl + [Line(k, d)];
      rest := rest - {d};
    }
  }

  /** The `#transitions` block of the save: the keys in order, each followed
      by one line per destination. */
  method TransitionBlock(t: Transitions) returns (escritas: seq<string>, ghost dests: map<Key, seq<State>>)
    ensures IsListing(dests, t)
    ensures forall i :: 0 <= i < |SortedKeys(t)| ==> SortedKeys(t)[i] in dests
    ensures escritas == TransitionLines(SortedKeys(t), dests)
  {
    KeyLessIsStrictTotal();
    var chaves := SortSet(t.Keys, KeyLess);
    escritas, dests := KeyBlocks(t, chaves);
    ListingDone(t, chaves, dests);
  }

  /** The loop over the keys, once sorted. */
  method KeyBlocks(t: Transitions, chaves: seq<Key>) returns (escritas: seq<string>, ghost dests: map<Key, seq<State>>)
    requires SortedBy(chaves, KeyLess) && Elements(chaves) == t.Keys
    ensures PartialListing(dests, t, chaves)
    ensures escritas == TransitionLines(chaves, dests)
  {
    escritas := [];
    dests := map[];
    var j := 0;
    while j < |chaves|
      invariant BlocksSoFar(t, chaves, j, dests, escritas)
    {
      var k := chaves[j];
      assert k in Elements(chaves);
      var ds, kl := DestinationLines(k, t[k]);
      BlocksStep(t, chaves, j, dests, escritas, ds, kl);
      dests := dests[k := ds];
      escritas := escritas + kl;
      j := j + 1;
    }
    assert chaves[..j] == chaves;
  }

  /** The reading loop of `carregar_projeto` over the cleaned lines: the
      section most recently opened decides what a line adds; a transition
      line that does not split into exactly two pieces at `:` and then at
      `>` raises and ends the load. */
  method ReadSections(lines: seq<string>) returns (r: Result<Staging, LoadError>)
    ensures r == LoadFrom(Start, lines)
  {
    var st := Start;
    var i := 0;
    while i < |lines|
      invariant 0 <= i <= |lines|
      invariant LoadFrom(Start, lines) == LoadFrom(st, lines[i..])
    {
      var line := lines[i];
      assert lines[i..][0] == line && lines[i..][1..] == lines[i + 1..];
      if StartsWith(line, "#") {
        st := st.(section := Some(Strip(line[1..])));
      } else if st.section == Some("states") {
        st := st.(estados := st.estados + {line});
      } else if st.section == Some("initial") {
        st := st.(inicial := Some(line));
      } else if st.section == Some("accepting") {
        if line != [] {
          st := st.(finais := st.finais + {line});
        }
      } else if st.section == Some("alphabet") {
        st := st.(alfabeto := st.alfabeto + {line});
      } else if st.section == Some("transitions") {
        var partes := SplitOn(line, ":");
        if |partes| != 2 {
          return Err(BadTransition(line));
        }
        var resto := SplitOn(partes[1], ">");
        if |resto| != 2 {
          return Err(BadTransition(line));
        }
        st := st.(trans := st.trans[(partes[0], resto[0]) := resto[1]]);
      }
      i := i + 1;
    }
    return Ok(st);
  }

  lemma UnionShift(a: set<State>, e: set<State>, x: State, y: State)
    ensures (a + e) + {x, y} == a + (e + {x, y})
  {
  }

  class SimulatorApp {
    const automato: Automato
    var cadeia: string
    var index: nat
    /** Whether the timer is active. */
    var running: bool
    var mensagem: Message

    constructor ()
      ensures fresh(automato)
      ensures automato.estados == {} && automato.transicoes == map[] && automato.estadosAtuais == {}
      ensures automato.estadosFinais == {} && automato.estadoAtual == None
      ensures cadeia == "" && index == 0 && !running && mensagem == Configuracao
    {
      automato := new Automato();
      cadeia := "";
      index := 0;
      running := false;
      mensagem := Configuracao;
    }

    /** The "add transition" button: all three fields must be filled in. */
    method AdicionarTransicao(origem: string, simbolo: string, destino: string)
      modifies this, automato
      ensures origem != "" && simbolo != "" && destino != "" ==>
        && automato.estados == old(automato.estados) + {origem, destino}
        && automato.transicoes == AddTransition(old(automato.transicoes), origem, simbolo, destino)
        && mensagem == TransicaoAdicionada(origem, simbolo, destino)
      ensures !(origem != "" && simbolo != "" && destino != "") ==>
        && automato.estados == old(automato.estados) && automato.transicoes == old(automato.transicoes)
        && mensagem == PreenchaCampos
      ensures automato.estadosAtuais == old(automato.estadosAtuais)
      ensures automato.estadosFinais == old(automato.estadosFinais) && automato.estadoAtual == old(automato.estadoAtual)
      ensures cadeia == old(cadeia) && index == old(index) && running == old(running)
    {
      if origem != "" && simbolo != "" && destino != "" {
        automato.AdicionarTransicao(origem, simbolo, destino);
        mensagem := TransicaoAdicionada(origem, simbolo, destino);
      } else {
        mensagem := PreenchaCampos;
      }
    }

    /** `iniciar_simulacao`, given the texts of the initial-state, final-states
        and input fields. An empty initial-state field keeps the configuration
        as it was; an empty input never starts the timer (and does not stop a
        timer already running). */
    method IniciarSimulacao(estadoInicial: string, finaisTexto: string, cadeiaTexto: string)
      modifies this, automato
      ensures estadoInicial != "" ==>
        automato.estadoAtual == Some(estadoInicial) && automato.estadosAtuais == {estadoInicial}
      ensures estadoInicial == "" ==>
        automato.estadoAtual == old(automato.estadoAtual) && automato.estadosAtuais == old(automato.estadosAtuais)
      ensures forall q :: q in automato.estadosFinais <==> q in SplitOn(finaisTexto, ",")
      ensures automato.estados == old(automato.estados) && automato.transicoes == old(automato.transicoes)
      ensures cadeia == cadeiaTexto
      ensures cadeiaTexto != "" ==> index == 0 && running && mensagem == EmAndamento
      ensures cadeiaTexto == "" ==> index == old(index) && running == old(running) && mensagem == CadeiaInvalida
    {
      var finais := SplitOn(finaisTexto, ",");
      if estadoInicial != "" {
        automato.DefinirEstadoInicial(estadoInicial);
        automato.estadosAtuais := {estadoInicial};
      }
      automato.DefinirEstadosFinais(finais);
      cadeia := cadeiaTexto;
      if cadeia != "" {
        index := 0;
        mensagem := EmAndamento;
        running := true;
      } else {
        mensagem := CadeiaInvalida;
      }
    }

    /** One timer tick of `proximo_passo`. */
    method ProximoPasso()
      modifies this, automato
      ensures Snapshot(automato.estadosAtuais, index, running, mensagem) ==
        Passo(automato.transicoes, automato.estadosFinais, cadeia,
              old(Snapshot(automato.estadosAtuais, index, running, mensagem)))
      ensures old(index) < |cadeia| ==> index == old(index) + 1
      ensures automato.estados == old(automato.estados) && automato.transicoes == old(automato.transicoes)
      ensures automato.estadosFinais == old(automato.estadosFinais) && automato.estadoAtual == old(automato.estadoAtual)
      ensures cadeia == old(cadeia)
    {
      ghost var before := Snapshot(automato.estadosAtuais, index, running, mensagem);
      ghost var after := Passo(automato.transicoes, automato.estadosFinais, cadeia, before);
      if index < |cadeia| {
        var simbolo := [cadeia[index]];
        var novos := automato.ProximoEstado(automato.estadosAtuais, simbolo);
        assert novos == Successors(automato.transicoes, before.atuais, [cadeia[before.index]]);
        index := index + 1;
        if novos != {} {
          automato.estadosAtuais := novos;
          mensagem := EstadosAtuais(novos);
          assert after == Snapshot(novos, index, running, mensagem);
        } else {
          mensagem := Rejeitada;
          running := false;
          assert after == Snapshot(automato.estadosAtuais, index, running, mensagem);
        }
      } else {
        if automato.estadosAtuais * automato.estadosFinais != {} {
          mensagem := Aceita;
        } else {
          mensagem := Rejeitada;
        }
        running := false;
      }
    }

    /** `salvar_projeto`, with the file given back as its lines. Without an
        initial state the attribute read after the `#initial` header fails,
        and only the `#states` block and that header have been written. */
    method SalvarProjeto() returns (lines: seq<string>, ok: bool, ghost dests: map<Key, seq<State>>)
      ensures automato.estadoAtual.None? ==> !ok && lines == ["#states"] + SortedNames(automato.estados) + ["#initial"]
      ensures automato.estadoAtual.Some? ==>
        && ok && IsListing(dests, automato.transicoes)
        && lines == SavedLines(automato.estados, automato.estadoAtual.value, automato.estadosFinais,
                               automato.transicoes, dests)
    {
      StrLessIsStrictTotal();
      KeyLessIsStrictTotal();
      dests := map[];
      var estados := SortSet(automato.estados, StrLess);
      lines := ["#states"] + estados + ["#initial"];
      if automato.estadoAtual.None? {
        return lines, false, dests;
      }
      lines := lines + [automato.estadoAtual.value];
      var finais := SortSet(automato.estadosFinais, StrLess);
      lines := lines + ["#accepting"] + finais;
      var alfabeto := SortSet(Alphabet(automato.transicoes), StrLess);
      lines := lines + ["#alphabet"] + alfabeto;
      lines := lines + ["#transitions"];
      var escritas;
      escritas, dests := TransitionBlock(automato.transicoes);
      lines := lines + escritas;
      return lines, true, dests;
    }

    /** `carregar_projeto`, given the lines `readlines` returned. On an error
        the automaton is left as it was and the label shows the failure;
        otherwise the staged states, initial state and final states replace
        the automaton's, and every staged transition is added to the
        transitions already there. */
    method CarregarProjeto(raw: seq<string>) returns (ok: bool)
      modifies this, automato
      ensures ok <==> Load(raw).Ok?
      ensures !ok ==>
        && mensagem == ErroCarregar
        && automato.estados == old(automato.estados) && automato.transicoes == old(automato.transicoes)
        && automato.estadosFinais == old(automato.estadosFinais) && automato.estadoAtual == old(automato.estadoAtual)
      ensures ok ==>
        && mensagem == old(mensagem)
        && automato.estados == Load(raw).value.estados + StagedEndpoints(Load(raw).value.trans)
        && automato.estadoAtual == Load(raw).value.inicial
        && automato.estadosFinais == Load(raw).value.finais
        && automato.transicoes == Merge(old(automato.transicoes), Load(raw).value.trans)
      ensures automato.estadosAtuais == old(automato.estadosAtuais)
      ensures cadeia == old(cadeia) && index == old(index) && running == old(running)
    {
      var lines := Clean(raw);
      var r := ReadSections(lines);
      if r.Err? || r.value.inicial.None? {
        mensagem := ErroCarregar;
        return false;
      }
      Commit(r.value);
      return true;
    }

    /** The end of `carregar_projeto`, once the file has been read: the staged
        sets replace the automaton's, then `adicionar_transicao` is called for
        every staged transition. */
    method Commit(st: Staging)
      modifies automato
      ensures automato.estados == st.estados + StagedEndpoints(st.trans)
      ensures automato.estadoAtual == st.inicial && automato.estadosFinais == st.finais
      ensures automato.transicoes == Merge(old(automato.transicoes), st.trans)
      ensures automato.estadosAtuais == old(automato.estadosAtuais)
    {
      ghost var t0 := automato.transicoes;
      automato.estados := st.estados;
      automato.estadoAtual := st.inicial;
      automato.estadosFinais := st.finais;
      var rest := st.trans.Keys;
      ghost var feitas: map<Key, State> := map[];
      ghost var extremos: set<State> := {};
      MergeNothing(t0);
      CommitStart(st.trans);
      while rest != {}
        invariant PartialCommit(st.trans, feitas, rest, extremos)
        invariant automato.transicoes == Merge(t0, feitas)
        invariant automato.estados == st.estados + extremos
        invariant automato.estadoAtual == st.inicial && automato.estadosFinais == st.finais
        invariant automato.estadosAtuais == old(automato.estadosAtuais)
        decreases rest
      {
        var k :| k in rest;
        CommitStep(st.trans, feitas, rest, extremos, k);
        MergeAdd(t0, feitas, k, st.trans[k]);
        UnionShift(st.estados, extremos, k.0, st.trans[k]);
        automato.AdicionarTransicao(k.0, k.1, st.trans[k]);
        feitas := feitas[k := st.trans[k]];
        extremos := extremos + {k.0, st.trans[k]};
        rest := rest - {k};
      }
      CommitDone(st.trans, feitas, extremos);
    }
  }

  /** Saving a project and loading the file into a new window restores the
      automaton, for a deterministic automaton whose names are well formed
      and whose transition endpoints are all states. */
  method SaveAndReload(app: SimulatorApp, ghost m: map<Key, State>) returns (other: SimulatorApp)
    requires app.automato.estadoAtual.Some? && WellFormedName(app.automato.estadoAtual.value)
    requires app.automato.transicoes == Lift(m) && WellFormedRelation(m)
    requires forall q :: q in app.automato.estados ==> WellFormedName(q)
    requires forall q :: q in app.automato.estadosFinais ==> WellFormedName(q)
    requires Endpoints(app.automato.transicoes) <= app.automato.estados
    ensures fresh(other) && fresh(other.automato)
    ensures other.automato.estados == app.automato.estados
    ensures other.automato.estadoAtual == app.automato.estadoAtual
    ensures other.automato.estadosFinais == app.automato.estadosFinais
    ensures other.automato.transicoes == app.automato.transicoes
  {
    var a := app.automato;
    var lines, ok, dests := app.SalvarProjeto();
    var raw := WithNewlines(lines);
    Reloaded(raw, a.estados, a.estadoAtual.value, a.estadosFinais, m, dests);
    other := new SimulatorApp();
    ok := other.CarregarProjeto(raw);
  }

  /** What loading the saved lines stages, in the terms `CarregarProjeto`
      commits them. */
  lemma Reloaded(raw: seq<string>, e: set<State>, init: State, f: set<State>, m: map<Key, State>,
                 dests: map<Key, seq<State>>)
    requires IsListing(dests, Lift(m))
    requires raw == WithNewlines(SavedLines(e, init, f, Lift(m), dests))
    requires WellFormedName(init) && WellFormedRelation(m)
    requires forall q :: q in e ==> WellFormedName(q)
    requires forall q :: q in f ==> WellFormedName(q)
    requires Endpoints(Lift(m)) <= e
    ensures Load(raw).Ok?
    ensures Load(raw).value.estados + StagedEndpoints(Load(raw).value.trans) == e
    ensures Load(raw).value.inicial == Some(init) && Load(raw).value.finais == f
    ensures Merge(map[], Load(raw).value.trans) == Lift(m)
  {
    RoundTrip(e, init, f, m, dests);
  }
}
