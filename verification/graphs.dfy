/** The generic undirected graph of graphs.py: a map from each item to the set of its
    neighbouring items.  The `_Vertex` wrapper objects of the source are not modelled; an
    item's vertex is its entry in `adj`. */
module Graphs {
  import opened Errors

  datatype Graph<T> = Graph(adj: map<T, set<T>>)

  /** The graph with no vertices, as built by `Graph.__init__`. */
  function Empty<T(!new)>(): (r: Graph<T>)
    ensures Valid(r)
    ensures forall x: T :: !Contains(r, x)
  {
    Graph(map[])
  }

  /** The representation invariant of `_Vertex`: no vertex neighbours itself, every
      neighbour is a vertex of the graph, and adjacency is symmetric. */
  ghost predicate Valid<T>(g: Graph<T>) {
    && (forall x :: x in g.adj ==> x !in g.adj[x])
    && (forall x, y :: x in g.adj && y in g.adj[x] ==> y in g.adj && x in g.adj[y])
  }

  /** `add_vertex`: a fresh item gets a vertex with no neighbours; an item already present
      leaves the graph as it was. */
  function AddVertex<T>(g: Graph<T>, item: T): (r: Graph<T>)
    ensures r.adj.Keys == g.adj.Keys + {item}
    ensures forall x :: x in g.adj ==> r.adj[x] == g.adj[x]
    ensures item !in g.adj ==> r.adj[item] == {}
    ensures Valid(g) ==> Valid(r)
  {
    if item in g.adj then g else Graph(g.adj[item := {}])
  }

  /** `adjacent`: false, not an error, when either item is absent. */
  function Adjacent<T>(g: Graph<T>, a: T, b: T): (r: bool)
    ensures r ==> a in g.adj && b in g.adj
  {
    a in g.adj && b in g.adj && b in g.adj[a]
  }

  /** `add_edge`: raises ValueError when an endpoint is not a vertex; otherwise makes `a`
      and `b` adjacent in both directions and changes no other adjacency. */
  function AddEdge<T>(g: Graph<T>, a: T, b: T): (r: Result<Graph<T>>)
    requires a != b
    ensures r.Ok? <==> a in g.adj && b in g.adj
    ensures r.Err? ==> r.error == ValueError
    ensures r.Ok? ==> r.value.adj.Keys == g.adj.Keys
    ensures r.Ok? ==> Adjacent(r.value, a, b) && Adjacent(r.value, b, a)
    ensures r.Ok? ==> forall x, y :: x in g.adj && y in g.adj ==>
                        (Adjacent(r.value, x, y) <==>
                           Adjacent(g, x, y) || (x == a && y == b) || (x == b && y == a))
    ensures r.Ok? && Valid(g) ==> Valid(r.value)
  {
    if a in g.adj && b in g.adj then
      Ok(Graph(g.adj[a := g.adj[a] + {b}][b := g.adj[b] + {a}]))
    else
      Err(ValueError)
  }

  /** `get_neighbours`: the neighbouring items, or ValueError for an unknown item. */
  function GetNeighbours<T>(g: Graph<T>, item: T): (r: Result<set<T>>)
    ensures r.Ok? <==> item in g.adj
    ensures r.Err? ==> r.error == ValueError
    ensures r.Ok? && Valid(g) ==> forall y :: y in r.value ==> Adjacent(g, item, y)
    ensures r.Ok? ==> forall y :: y in g.adj && Adjacent(g, item, y) ==> y in r.value
  {
    if item in g.adj then Ok(g.adj[item]) else Err(ValueError)
  }

  /** `contains`: an item is a vertex exactly when its neighbours can be asked for. */
  function Contains<T>(g: Graph<T>, item: T): (r: bool)
    ensures r <==> GetNeighbours(g, item).Ok?
  {
    item in g.adj
  }

  /** `get_all_nodes`: the items the graph contains. */
  function GetAllNodes<T(!new)>(g: Graph<T>): (r: set<T>)
    ensures forall x :: x in r <==> Contains(g, x)
  {
    g.adj.Keys
  }

  /** In a valid graph adjacency is symmetric. */
  lemma AdjacentSymmetric<T>(g: Graph<T>, a: T, b: T)
    requires Valid(g)
    ensures Adjacent(g, a, b) <==> Adjacent(g, b, a)
  {
  }

  /** Adding a vertex twice is the same as adding it once. */
  lemma AddVertexIdempotent<T>(g: Graph<T>, item: T)
    ensures AddVertex(AddVertex(g, item), item) == AddVertex(g, item)
  {
  }
}

/** The weighted graph of graphs.py: each vertex maps its neighbours to the edge weight.
    Weights (`int | float` in the source) are modelled as exact reals. */
module WeightedGraphs {
  import opened Errors
  import opened Sums
  import Graphs

  datatype WeightedGraph<T> = WeightedGraph(adj: map<T, map<T, real>>)

  /** The representation invariant: no self-loops, neighbours are vertices, and both
      directions of an edge carry the same weight. */
  ghost predicate Valid<T>(g: WeightedGraph<T>) {
    && (forall x :: x in g.adj ==> x !in g.adj[x])
    && (forall x, y :: x in g.adj && y in g.adj[x] ==>
          y in g.adj && x in g.adj[y] && g.adj[y][x] == g.adj[x][y])
  }

  /** The unweighted graph underneath: the inherited `adjacent` and `get_neighbours` of the
      source read only the neighbour keys. */
  function Skeleton<T>(g: WeightedGraph<T>): (r: Graphs.Graph<T>)
    ensures r.adj.Keys == g.adj.Keys
    ensures Valid(g) ==> Graphs.Valid(r)
  {
    Graphs.Graph(map x | x in g.adj :: g.adj[x].Keys)
  }

  /** `add_vertex` of the weighted graph; the same vertex change as the unweighted one. */
  function AddVertex<T>(g: WeightedGraph<T>, item: T): (r: WeightedGraph<T>)
    ensures r.adj.Keys == g.adj.Keys + {item}
    ensures forall x :: x in g.adj ==> r.adj[x] == g.adj[x]
    ensures Skeleton(r) == Graphs.AddVertex(Skeleton(g), item)
    ensures Valid(g) ==> Valid(r)
  {
    if item in g.adj then g
    else
      AddVertexSkeleton(g, item);
      WeightedGraph(g.adj[item := map[]])
  }

  lemma AddVertexSkeleton<T>(g: WeightedGraph<T>, item: T)
    requires item !in g.adj
    ensures Skeleton(WeightedGraph(g.adj[item := map[]])) == Graphs.AddVertex(Skeleton(g), item)
  {
    var r := WeightedGraph(g.adj[item := map[]]);
    assert Skeleton(r).adj == Skeleton(g).adj[item := {}] by {
      forall x | x in Skeleton(r).adj
        ensures Skeleton(r).adj[x] == Skeleton(g).adj[item := {}][x]
      {
        if x == item {
          assert r.adj[x] == map[];
        }
      }
    }
  }

  /** `get_weight`: the weight of the edge, 0 for a non-adjacent pair.  The source requires
      both items to be vertices (it indexes `_vertices` directly). */
  function GetWeight<T>(g: WeightedGraph<T>, a: T, b: T): (r: real)
    requires a in g.adj && b in g.adj
    ensures !Graphs.Adjacent(Skeleton(g), a, b) ==> r == 0.0
    ensures Graphs.Adjacent(Skeleton(g), a, b) ==> r == g.adj[a][b]
  {
    if b in g.adj[a] then g.adj[a][b] else 0.0
  }

  /** The graph with the edge between two vertices set to weight `w` in both directions. */
  function Link<T>(g: WeightedGraph<T>, a: T, b: T, w: real): (r: WeightedGraph<T>)
    requires a in g.adj && b in g.adj
    ensures r.adj.Keys == g.adj.Keys
  {
    WeightedGraph(g.adj[a := g.adj[a][b := w]][b := g.adj[b][a := w]])
  }

  lemma LinkWeights<T>(g: WeightedGraph<T>, a: T, b: T, w: real)
    requires a != b && a in g.adj && b in g.adj
    ensures GetWeight(Link(g, a, b, w), a, b) == w && GetWeight(Link(g, a, b, w), b, a) == w
    ensures forall x, y :: x in g.adj && y in g.adj && x != a && x != b ==>
              GetWeight(Link(g, a, b, w), x, y) == GetWeight(g, x, y)
  {
  }

  lemma LinkSkeleton<T>(g: WeightedGraph<T>, a: T, b: T, w: real)
    requires a != b && a in g.adj && b in g.adj
    ensures Graphs.AddEdge(Skeleton(g), a, b) == Ok(Skeleton(Link(g, a, b, w)))
  {
    var r := Link(g, a, b, w);
    assert r.adj[a].Keys == g.adj[a].Keys + {b};
    assert r.adj[b].Keys == g.adj[b].Keys + {a};
    var s := Skeleton(g).adj;
    var t := s[a := s[a] + {b}][b := s[b] + {a}];
    assert Skeleton(r).adj == t by {
      forall x | x in Skeleton(r).adj
        ensures Skeleton(r).adj[x] == t[x]
      {
      }
    }
  }

  lemma LinkValid<T>(g: WeightedGraph<T>, a: T, b: T, w: real)
    requires a != b && a in g.adj && b in g.adj
    ensures Valid(g) ==> Valid(Link(g, a, b, w))
  {
    if Valid(g) {
      var r := Link(g, a, b, w);
      forall x, y | x in r.adj && y in r.adj[x]
        ensures y in r.adj && x in r.adj[y] && r.adj[y][x] == r.adj[x][y]
      {
        if x == a {
          assert y == b || y in g.adj[a];
        } else if x == b {
          assert y == a || y in g.adj[b];
        } else {
          assert r.adj[x] == g.adj[x];
        }
      }
    }
  }

  /** `add_edge`: raises ValueError for an unknown endpoint; otherwise the edge carries
      weight `w` in both directions (overwriting an earlier weight), every other weight
      is unchanged, and the underlying graph gains the edge as in `Graph.add_edge`. */
  function AddEdge<T>(g: WeightedGraph<T>, a: T, b: T, w: real): (r: Result<WeightedGraph<T>>)
    requires a != b
    ensures r.Ok? <==> a in g.adj && b in g.adj
    ensures r.Err? ==> r.error == ValueError
    ensures r.Ok? ==> r.value.adj.Keys == g.adj.Keys
    ensures r.Ok? ==> GetWeight(r.value, a, b) == w && GetWeight(r.value, b, a) == w
    ensures r.Ok? ==> forall x, y :: x in g.adj && y in g.adj && x != a && x != b ==>
                        GetWeight(r.value, x, y) == GetWeight(g, x, y)
    ensures r.Ok? ==> Graphs.AddEdge(Skeleton(g), a, b) == Ok(Skeleton(r.value))
    ensures r.Ok? && Valid(g) ==> Valid(r.value)
  {
    if a in g.adj && b in g.adj then
      LinkWeights(g, a, b, w);
      LinkSkeleton(g, a, b, w);
      LinkValid(g, a, b, w);
      Ok(Link(g, a, b, w))
    else
      Err(ValueError)
  }

  /** Re-adding an edge keeps only the latest weight. */
  lemma AddEdgeOverwrites<T>(g: WeightedGraph<T>, a: T, b: T, w1: real, w2: real)
    requires a != b && a in g.adj && b in g.adj
    ensures AddEdge(AddEdge(g, a, b, w1).value, a, b, w2) == AddEdge(g, a, b, w2)
  {
    var m1 := Link(g, a, b, w1);
    assert AddEdge(g, a, b, w1) == Ok(m1);
    assert AddEdge(m1, a, b, w2) == Ok(Link(m1, a, b, w2));
    assert AddEdge(g, a, b, w2) == Ok(Link(g, a, b, w2));
    LinkTwice(g, a, b, w1, w2);
  }

  lemma LinkTwice<T>(g: WeightedGraph<T>, a: T, b: T, w1: real, w2: real)
    requires a != b && a in g.adj && b in g.adj
    ensures Link(Link(g, a, b, w1), a, b, w2) == Link(g, a, b, w2)
  {
    var m1 := g.adj[a := g.adj[a][b := w1]][b := g.adj[b][a := w1]];
    assert m1[a][b := w2] == g.adj[a][b := w2];
    assert m1[b][a := w2] == g.adj[b][a := w2];
    assert m1[a := m1[a][b := w2]][b := m1[b][a := w2]] == g.adj[a := g.adj[a][b := w2]][b := g.adj[b][a := w2]];
  }

  /** The weights on the edges at `item`, as a function for summing. */
  function IncidentWeight<T>(g: WeightedGraph<T>, item: T): T -> real {
    x => if item in g.adj && x in g.adj[item] then g.adj[item][x] else 0.0
  }

  /** `average_weight`: raises ValueError for an unknown item and ZeroDivisionError for an
      item with no edges; otherwise the sum of the incident weights divided by the degree. */
  method AverageWeight<T>(g: WeightedGraph<T>, item: T) returns (r: Result<real>)
    ensures item !in g.adj ==> r == Err(ValueError)
    ensures item in g.adj && |g.adj[item]| == 0 ==> r == Err(ZeroDivisionError)
    ensures item in g.adj && |g.adj[item]| > 0 ==>
              r == Ok(SetSum(g.adj[item].Keys, IncidentWeight(g, item)) / (|g.adj[item]| as real))
  {
    if item !in g.adj {
      return Err(ValueError);
    }
    var nbrs := g.adj[item];
    var f := IncidentWeight(g, item);
    var total := 0.0;
    var rest := nbrs.Keys;
    while rest != {}
      invariant rest <= nbrs.Keys
      invariant total + SetSum(rest, f) == SetSum(nbrs.Keys, f)
      decreases |rest|
    {
      var x :| x in rest;
      SetSumRemove(rest, f, x);
      total := total + nbrs[x];
      rest := rest - {x};
    }
    if |nbrs| == 0 {
      return Err(ZeroDivisionError);
    }
    return Ok(total / (|nbrs| as real));
  }

  /** When every edge at `item` has weight `c`, the average weight is `c`; the source's
      doctest (two edges of weight 3, average 3.0) is an instance. */
  lemma AverageOfEqualWeights<T>(g: WeightedGraph<T>, item: T, c: real)
    requires item in g.adj && |g.adj[item]| > 0
    requires forall x :: x in g.adj[item] ==> g.adj[item][x] == c
    ensures SetSum(g.adj[item].Keys, IncidentWeight(g, item)) / (|g.adj[item]| as real) == c
  {
    var n := |g.adj[item].Keys|;
    assert n == |g.adj[item]|;
    SetSumConstant(g.adj[item].Keys, IncidentWeight(g, item), c);
  }
}
