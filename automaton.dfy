/** The automaton engine of the simulator (`Automato` in
    LFA/SimuladorAutomatos/main.py): a set of states, a transition relation
    from `(origin, symbol)` to a set of destinations, the configuration
    `estadosAtuais`, the final states, and `estadoAtual`, which despite its
    name holds the name of the initial state. */
module Automaton {
  import opened Wrappers

  type State = string
  type Symbol = string
  type Key = (State, Symbol)
  type Transitions = map<Key, set<State>>

  /** The destinations recorded for `k`; an absent key has none. */
  function Dests(t: Transitions, k: Key): set<State>
  {
    if k in t then t[k] else {}
  }

  /** Every state that occurs at either end of a transition. */
  function Endpoints(t: Transitions): set<State>
  {
    (set k | k in t :: k.0) + (set k, d | k in t && d in t[k] :: d)
  }

  /** No key is kept with an empty destination set. */
  ghost predicate NonEmptyTargets(t: Transitions)
  {
    forall k :: k in t ==> t[k] != {}
  }

  /** The relation after `adicionar_transicao(o, s, d)`: one more destination
      for `(o, s)`, every other key as it was. */
  function AddTransition(t: Transitions, o: State, s: Symbol, d: State): (r: Transitions)
    ensures r.Keys == t.Keys + {(o, s)}
    ensures forall k :: Dests(r, k) == Dests(t, k) + (if k == (o, s) then {d} else {})
  {
    t[(o, s) := Dests(t, (o, s)) + {d}]
  }

  lemma AddTransitionIdempotent(t: Transitions, o: State, s: Symbol, d: State)
    ensures AddTransition(AddTransition(t, o, s, d), o, s, d) == AddTransition(t, o, s, d)
  {
  }

  lemma AddTransitionKeepsEndpoints(t: Transitions, o: State, s: Symbol, d: State)
    ensures Endpoints(AddTransition(t, o, s, d)) == Endpoints(t) + {o, d}
  {
    var r := AddTransition(t, o, s, d);
    assert (o, s) in r && d in r[(o, s)];
    forall x | x in Endpoints(r) ensures x in Endpoints(t) + {o, d} {
      if k :| k in r && k.0 == x {
        if k != (o, s) { assert k in t; }
      } else {
        var k, y :| k in r && y in r[k] && y == x;
        if y != d { assert y in Dests(r, k); assert k in t && y in t[k]; }
      }
    }
    forall x | x in Endpoints(t) ensures x in Endpoints(r) {
      if k :| k in t && k.0 == x {
        assert k in r;
      } else {
        var k, y :| k in t && y in t[k] && y == x;
        assert y in Dests(r, k);
      }
    }
  }

  /** The configuration reached from `c` on `a`: the union of the destinations
      of `(q, a)` over the states `q` of `c`. */
  function Successors(t: Transitions, c: set<State>, a: Symbol): set<State>
  {
    set q, d | q in c && (q, a) in t && d in t[(q, a)] :: d
  }

  lemma SuccessorsMember(t: Transitions, c: set<State>, a: Symbol, d: State)
    ensures d in Successors(t, c, a) <==> exists q :: q in c && d in Dests(t, (q, a))
  {
    if d in Successors(t, c, a) {
      var q :| q in c && (q, a) in t && d in t[(q, a)];
      assert d in Dests(t, (q, a));
    }
  }

  lemma SuccessorsUnion(t: Transitions, c1: set<State>, c2: set<State>, a: Symbol)
    ensures Successors(t, c1 + c2, a) == Successors(t, c1, a) + Successors(t, c2, a)
  {
  }

  lemma SuccessorsEmpty(t: Transitions, a: Symbol)
    ensures Successors(t, {}, a) == {}
  {
  }

  lemma SuccessorsUnknownSymbol(t: Transitions, c: set<State>, a: Symbol)
    requires forall k :: k in t ==> k.1 != a
    ensures Successors(t, c, a) == {}
  {
  }

  lemma SuccessorsSingleton(t: Transitions, q: State, a: Symbol)
    ensures Successors(t, {q}, a) == Dests(t, (q, a))
  {
    forall d | d in Dests(t, (q, a)) ensures d in Successors(t, {q}, a) {
      assert q in {q} && (q, a) in t && d in t[(q, a)];
    }
  }

  /** Reading `w` symbol by symbol from `c` (each character is a one-letter
      symbol); `None` as soon as a step reaches the empty configuration. */
  function Run(t: Transitions, c: set<State>, w: string): Option<set<State>>
    decreases |w|
  {
    if w == [] then Some(c)
    else
      var n := Successors(t, c, [w[0]]);
      if n == {} then None else Run(t, n, w[1..])
  }

  /** The string is accepted from `init`: no step was empty and the last
      configuration meets the final states. */
  ghost predicate Accepts(t: Transitions, init: State, finals: set<State>, w: string)
  {
    var r := Run(t, {init}, w);
    r.Some? && r.value * finals != {}
  }

  lemma {:induction false} RunAppend(t: Transitions, c: set<State>, u: string, v: string)
    ensures Run(t, c, u + v) == (match Run(t, c, u) case None => None case Some(m) => Run(t, m, v))
    decreases |u|
  {
    if u != [] {
      assert (u + v)[0] == u[0] && (u + v)[1..] == u[1..] + v;
      var n := Successors(t, c, [u[0]]);
      if n != {} {
        RunAppend(t, n, u[1..], v);
      }
    } else {
      assert u + v == v;
    }
  }

  class Automato {
    var estados: set<State>
    var transicoes: Transitions
    var estadosAtuais: set<State>
    var estadosFinais: set<State>
    var estadoAtual: Option<State>

    /** What `adicionar_transicao` keeps true: every key has a destination,
        and every endpoint of a transition is a state. */
    ghost predicate Closed()
      reads this
    {
      NonEmptyTargets(transicoes) && Endpoints(transicoes) <= estados
    }

    constructor ()
      ensures estados == {} && transicoes == map[] && estadosAtuais == {} && estadosFinais == {}
      ensures estadoAtual == None
      ensures Closed()
    {
      estados := {};
      transicoes := map[];
      estadosAtuais := {};
      estadosFinais := {};
      estadoAtual := None;
    }

    method AdicionarTransicao(origem: State, simbolo: Symbol, destino: State)
      modifies this
      ensures estados == old(estados) + {origem, destino}
      ensures transicoes == AddTransition(old(transicoes), origem, simbolo, destino)
      ensures estadosAtuais == old(estadosAtuais) && estadosFinais == old(estadosFinais)
      ensures estadoAtual == old(estadoAtual)
      ensures old(Closed()) ==> Closed()
    {
      AddTransitionKeepsEndpoints(transicoes, origem, simbolo, destino);
      estados := estados + {origem} + {destino};
      var k := (origem, simbolo);
      if k !in transicoes {
        transicoes := transicoes[k := {}];
      }
      transicoes := transicoes[k := transicoes[k] + {destino}];
    }

    method DefinirEstadoInicial(estado: State)
      modifies this
      ensures estadoAtual == Some(estado)
      ensures estados == old(estados) && transicoes == old(transicoes)
      ensures estadosAtuais == old(estadosAtuais) && estadosFinais == old(estadosFinais)
    {
      estadoAtual := Some(estado);
    }

    method DefinirEstadosFinais(finais: seq<State>)
      modifies this
      ensures forall q :: q in estadosFinais <==> q in finais
      ensures estados == old(estados) && transicoes == old(transicoes)
      ensures estadosAtuais == old(estadosAtuais) && estadoAtual == old(estadoAtual)
    {
      estadosFinais := set q | q in finais;
    }

    /** `proximo_estado`: the union, accumulated state by state. */
    method ProximoEstado(atuais: set<State>, simbolo: Symbol) returns (proximos: set<State>)
      ensures proximos == Successors(transicoes, atuais, simbolo)
    {
      proximos := {};
      var rest := atuais;
      while rest != {}
        invariant rest <= atuais
        invariant proximos == Successors(transicoes, atuais - rest, simbolo)
        decreases rest
      {
        var q :| q in rest;
        SuccessorsUnion(transicoes, atuais - rest, {q}, simbolo);
        SuccessorsSingleton(transicoes, q, simbolo);
        assert atuais - (rest - {q}) == (atuais - rest) + {q};
        if (q, simbolo) in transicoes {
          proximos := proximos + transicoes[(q, simbolo)];
        }
        rest := rest - {q};
      }
    }
  }
}
