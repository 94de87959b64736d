/** The degree statistics of MTD/run.py over a graph given as a list of
    vertices and a list of edges (pairs of vertices, duplicates kept): the
    edge list `criarGrafo` builds, `totalArestas`, `grauMaximo`,
    `grauMinimo` and `completo`. */
module Degrees {

  /** A vertex is one character of the line the user types. */
  type Vertex = char
  type Edge = (Vertex, Vertex)

  /** `grafo = (vertices, arestas)`. */
  datatype Grafo = Grafo(vertices: seq<Vertex>, arestas: seq<Edge>)

  /** `(vertice, vizinho)` for each neighbour in order. */
  function Pairs(v: Vertex, vizinhos: seq<Vertex>): (r: seq<Edge>)
    ensures |r| == |vizinhos| && forall j :: 0 <= j < |r| ==> r[j] == (v, vizinhos[j])
  {
    seq(|vizinhos|, j requires 0 <= j < |vizinhos| => (v, vizinhos[j]))
  }

  /** The edges of the first `n` vertices, vertex by vertex in input order. */
  function Edges(vertices: seq<Vertex>, vizinhos: seq<seq<Vertex>>, n: nat): seq<Edge>
    requires n <= |vertices| == |vizinhos|
  {
    if n == 0 then [] else Edges(vertices, vizinhos, n - 1) + Pairs(vertices[n - 1], vizinhos[n - 1])
  }

  /** The edge-list loop of `criarGrafo`; `vizinhos[i]` stands for the
      answer typed for `vertices[i]`. */
  method CriarArestas(vertices: seq<Vertex>, vizinhos: seq<seq<Vertex>>) returns (arestas: seq<Edge>)
    requires |vizinhos| == |vertices|
    ensures arestas == Edges(vertices, vizinhos, |vertices|)
  {
    arestas := [];
    for i := 0 to |vertices|
      invariant arestas == Edges(vertices, vizinhos, i)
    {
      var vertice := vertices[i];
      var vs := vizinhos[i];
      ghost var before := arestas;
      for j := 0 to |vs|
        invariant arestas == before + Pairs(vertice, vs[..j])
      {
        assert Pairs(vertice, vs[..j + 1]) == Pairs(vertice, vs[..j]) + [(vertice, vs[j])];
        arestas := arestas + [(vertice, vs[j])];
      }
      assert vs[..|vs|] == vs;
    }
  }

  /** The edge list holds exactly the pairs of a vertex with one of its
      neighbours, one edge per typed neighbour. */
  lemma {:induction false} EdgesMeaning(vertices: seq<Vertex>, vizinhos: seq<seq<Vertex>>, n: nat)
    requires n <= |vertices| == |vizinhos|
    ensures forall a, b :: (a, b) in Edges(vertices, vizinhos, n) <==>
      exists i :: 0 <= i < n && vertices[i] == a && b in vizinhos[i]
    ensures |Edges(vertices, vizinhos, n)| == NeighbourCount(vizinhos, n)
  {
    if n > 0 {
      EdgesMeaning(vertices, vizinhos, n - 1);
      var p := Pairs(vertices[n - 1], vizinhos[n - 1]);
      forall a, b ensures (a, b) in p <==> vertices[n - 1] == a && b in vizinhos[n - 1] {
        if b in vizinhos[n - 1] && vertices[n - 1] == a {
          var j :| 0 <= j < |vizinhos[n - 1]| && vizinhos[n - 1][j] == b;
          assert p[j] == (a, b);
        }
      }
    }
  }

  /** The number of neighbours typed for the first `n` vertices. */
  function NeighbourCount(vizinhos: seq<seq<Vertex>>, n: nat): nat
    requires n <= |vizinhos|
  {
    if n == 0 then 0 else NeighbourCount(vizinhos, n - 1) + |vizinhos[n - 1]|
  }

  /** `totalArestas`. */
  function TotalArestas(g: Grafo): nat
  {
    |g.arestas|
  }

  /** `vertice in aresta` for a pair. */
  predicate Incident(v: Vertex, e: Edge)
  {
    e.0 == v || e.1 == v
  }

  /** `sum(1 for aresta in arestas if vertice in aresta)`: the edges with
      `v` at either end, a self-loop counted once. */
  function Degree(arestas: seq<Edge>, v: Vertex): nat
  {
    if arestas == [] then 0
    else (if Incident(v, arestas[0]) then 1 else 0) + Degree(arestas[1..], v)
  }

  lemma {:induction false} DegreeConcat(a: seq<Edge>, b: seq<Edge>, v: Vertex)
    ensures Degree(a + b, v) == Degree(a, v) + Degree(b, v)
  {
    if a == [] {
      assert a + b == b;
    } else {
      assert (a + b)[1..] == a[1..] + b;
      DegreeConcat(a[1..], b, v);
    }
  }

  /** A degree counts incident edges: never more than the edges there are,
      and exactly all of them when every edge touches `v`. */
  lemma {:induction false} DegreeBounds(arestas: seq<Edge>, v: Vertex)
    ensures Degree(arestas, v) <= |arestas|
    ensures Degree(arestas, v) == |arestas| <==> forall k :: 0 <= k < |arestas| ==> Incident(v, arestas[k])
    ensures Degree(arestas, v) == 0 <==> forall k :: 0 <= k < |arestas| ==> !Incident(v, arestas[k])
  {
    if arestas != [] {
      DegreeBounds(arestas[1..], v);
      assert forall k :: 1 <= k < |arestas| ==> arestas[k] == arestas[1..][k - 1];
    }
  }

  /** A self-loop `(v, v)` adds one to the degree of `v`, not two. */
  lemma SelfLoopCountsOnce(arestas: seq<Edge>, v: Vertex)
    ensures Degree(arestas + [(v, v)], v) == Degree(arestas, v) + 1
  {
    DegreeConcat(arestas, [(v, v)], v);
  }

  /** `m` is what `grauMaximo` promises: at least every vertex's degree,
      the degree of some vertex, and 0 when there is no vertex. */
  ghost predicate IsMaxDegree(g: Grafo, m: nat)
  {
    (forall i :: 0 <= i < |g.vertices| ==> Degree(g.arestas, g.vertices[i]) <= m) &&
    (g.vertices == [] ==> m == 0) &&
    (g.vertices != [] ==> exists i :: 0 <= i < |g.vertices| && m == Degree(g.arestas, g.vertices[i]))
  }

  /** `grauMaximo`: the running maximum over the vertices, starting at 0. */
  method GrauMaximo(g: Grafo) returns (grauMaximo: nat)
    ensures IsMaxDegree(g, grauMaximo)
    ensures grauMaximo <= TotalArestas(g)
  {
    grauMaximo := 0;
    for i := 0 to |g.vertices|
      invariant forall k :: 0 <= k < i ==> Degree(g.arestas, g.vertices[k]) <= grauMaximo
      invariant i > 0 ==> exists k :: 0 <= k < i && grauMaximo == Degree(g.arestas, g.vertices[k])
      invariant i == 0 ==> grauMaximo == 0
      invariant grauMaximo <= |g.arestas|
    {
      var grau := Degree(g.arestas, g.vertices[i]);
      DegreeBounds(g.arestas, g.vertices[i]);
      if grau > grauMaximo {
        grauMaximo := grau;
      } else if i == 0 {
        assert grauMaximo == grau;
      }
    }
  }

  /** The value of `grau_minimo`: a degree, or `float('inf')`. */
  datatype Grau = Finito(n: nat) | Infinito

  /** `grau < grau_minimo` with infinity above every degree. */
  predicate Below(d: nat, g: Grau)
  {
    g.Infinito? || d < g.n
  }

  /** `m` is what `grauMinimo` promises: infinity exactly when there is no
      vertex, otherwise at most every vertex's degree and the degree of some
      vertex. */
  ghost predicate IsMinDegree(g: Grafo, m: Grau)
  {
    (m.Infinito? <==> g.vertices == []) &&
    (m.Finito? ==>
      (forall i :: 0 <= i < |g.vertices| ==> m.n <= Degree(g.arestas, g.vertices[i])) &&
      (exists i :: 0 <= i < |g.vertices| && m.n == Degree(g.arestas, g.vertices[i])))
  }

  /** `grauMinimo`: the running minimum over the vertices, starting at
      infinity. */
  method GrauMinimo(g: Grafo) returns (grauMinimo: Grau)
    ensures IsMinDegree(g, grauMinimo)
  {
    grauMinimo := Infinito;
    for i := 0 to |g.vertices|
      invariant grauMinimo.Infinito? <==> i == 0
      invariant grauMinimo.Finito? ==>
        (forall k :: 0 <= k < i ==> grauMinimo.n <= Degree(g.arestas, g.vertices[k])) &&
        (exists k :: 0 <= k < i && grauMinimo.n == Degree(g.arestas, g.vertices[k]))
    {
      var grau := Degree(g.arestas, g.vertices[i]);
      if Below(grau, grauMinimo) {
        grauMinimo := Finito(grau);
      }
    }
  }

  /** Every vertex has the same degree. */
  ghost predicate Regular(g: Grafo)
  {
    forall i, j :: 0 <= i < |g.vertices| && 0 <= j < |g.vertices| ==>
      Degree(g.arestas, g.vertices[i]) == Degree(g.arestas, g.vertices[j])
  }

  /** The minimum is at most the maximum, and the two agree exactly when
      there are vertices and all have the same degree. */
  lemma Extremes(g: Grafo, maximo: nat, minimo: Grau)
    requires IsMaxDegree(g, maximo) && IsMinDegree(g, minimo)
    ensures minimo.Finito? ==> minimo.n <= maximo
    ensures minimo.Finito? && minimo.n == maximo <==> g.vertices != [] && Regular(g)
  {
    if g.vertices != [] {
      var i :| 0 <= i < |g.vertices| && maximo == Degree(g.arestas, g.vertices[i]);
      var j :| 0 <= j < |g.vertices| && minimo.n == Degree(g.arestas, g.vertices[j]);
      assert minimo.n <= Degree(g.arestas, g.vertices[i]);
      if Regular(g) {
        assert Degree(g.arestas, g.vertices[i]) == Degree(g.arestas, g.vertices[j]);
      }
    }
  }

  /** `completo`: `grauMaximo(grafo) == grauMinimo(grafo)`; with no vertices
      `0 == inf` is false. */
  method Completo(g: Grafo) returns (r: bool)
    ensures r <==> g.vertices != [] && Regular(g)
  {
    var maximo := GrauMaximo(g);
    var minimo := GrauMinimo(g);
    Extremes(g, maximo, minimo);
    r := minimo.Finito? && maximo == minimo.n;
  }

  /** The figures `criarGrafo` prints: for a graph with vertices,
      `grauMinimo <= grauMaximo <= totalArestas`. */
  method Propriedades(g: Grafo) returns (total: nat, maximo: nat, minimo: Grau, completo: bool)
    ensures total == |g.arestas| && IsMaxDegree(g, maximo) && IsMinDegree(g, minimo)
    ensures g.vertices != [] ==> minimo.Finito? && minimo.n <= maximo <= total
    ensures completo <==> g.vertices != [] && Regular(g)
  {
    total := TotalArestas(g);
    maximo := GrauMaximo(g);
    minimo := GrauMinimo(g);
    completo := Completo(g);
    Extremes(g, maximo, minimo);
  }
}
