/** ParallelGraphAlgorithmExample.java: an undirected graph kept as a map
    from each vertex to the list of its neighbours, and the breadth-first
    search `BFSTask.call` runs from one vertex. */
module GraphBfs {

  /** `getOrDefault(vertex, new ArrayList<>())` on an adjacency map. */
  function NeighborsIn(adj: map<int, seq<int>>, v: int): seq<int>
  {
    if v in adj then adj[v] else []
  }

  /** Every vertex of the graph: the keys of the map and every vertex on a
      neighbour list. */
  function Vertices(adj: map<int, seq<int>>): set<int>
  {
    adj.Keys + set u, i | u in adj && 0 <= i < |adj[u]| :: adj[u][i]
  }

  /** The edges are undirected: w is a neighbour of v exactly when v is a
      neighbour of w. */
  ghost predicate Symmetric(adj: map<int, seq<int>>)
  {
    forall v, w :: w in NeighborsIn(adj, v) <==> v in NeighborsIn(adj, w)
  }

  class Graph {
    var adjacencyList: map<int, seq<int>>

    /** A graph built by `addEdge` alone is undirected. */
    ghost predicate Valid()
      reads this
    {
      Symmetric(adjacencyList)
    }

    /** `new Graph()`: no vertices. */
    constructor ()
      ensures adjacencyList == map[]
      ensures Valid()
    {
      adjacencyList := map[];
    }

    /** `getNeighbors(vertex)`: the neighbour list of the vertex, or an
        empty list for a vertex without edges. */
    function GetNeighbors(vertex: int): (r: seq<int>)
      reads this
      ensures vertex in adjacencyList ==> r == adjacencyList[vertex]
      ensures vertex !in adjacencyList ==> r == []
    {
      NeighborsIn(adjacencyList, vertex)
    }

    /** `addEdge(source, destination)`: `destination` is appended to the
        list of `source` and then `source` to the list of `destination`,
        each list created empty first when absent; no other list changes,
        and the graph stays undirected. */
    method AddEdge(source: int, destination: int)
      requires Valid()
      modifies this
      ensures Valid()
      ensures var a1 := old(adjacencyList)[source := NeighborsIn(old(adjacencyList), source) + [destination]];
        adjacencyList == a1[destination := NeighborsIn(a1, destination) + [source]]
      ensures forall v :: v != source && v != destination ==> GetNeighbors(v) == old(GetNeighbors(v))
      ensures destination in GetNeighbors(source) && source in GetNeighbors(destination)
    {
      ghost var a0 := adjacencyList;
      adjacencyList := adjacencyList[source := NeighborsIn(adjacencyList, source) + [destination]];
      adjacencyList := adjacencyList[destination := NeighborsIn(adjacencyList, destination) + [source]];
      AddEdgeSymmetric(a0, source, destination);
    }
  }

  /** Adding both directions of an edge keeps a graph undirected. */
  lemma AddEdgeSymmetric(adj: map<int, seq<int>>, s: int, d: int)
    requires Symmetric(adj)
    ensures var a1 := adj[s := NeighborsIn(adj, s) + [d]];
      Symmetric(a1[d := NeighborsIn(a1, d) + [s]])
  {
    var a1 := adj[s := NeighborsIn(adj, s) + [d]];
    var a2 := a1[d := NeighborsIn(a1, d) + [s]];
    forall v, w ensures w in NeighborsIn(a2, v) <==> v in NeighborsIn(a2, w) {
      assert w in NeighborsIn(a2, v) <==> w in NeighborsIn(adj, v) || (v == s && w == d) || (v == d && w == s);
      assert v in NeighborsIn(a2, w) <==> v in NeighborsIn(adj, w) || (w == s && v == d) || (w == d && v == s);
    }
  }

  /** `p` is a walk along edges of the graph. */
  ghost predicate IsPath(adj: map<int, seq<int>>, p: seq<int>)
  {
    |p| >= 1 && forall i :: 0 <= i < |p| - 1 ==> p[i + 1] in NeighborsIn(adj, p[i])
  }

  ghost predicate Reachable(adj: map<int, seq<int>>, s: int, v: int)
  {
    exists p :: IsPath(adj, p) && p[0] == s && p[|p| - 1] == v
  }

  lemma ReachableStart(adj: map<int, seq<int>>, s: int)
    ensures Reachable(adj, s, s)
  {
    assert IsPath(adj, [s]);
  }

  lemma ReachableStep(adj: map<int, seq<int>>, s: int, v: int, w: int)
    requires Reachable(adj, s, v) && w in NeighborsIn(adj, v)
    ensures Reachable(adj, s, w)
  {
    var p :| IsPath(adj, p) && p[0] == s && p[|p| - 1] == v;
    var q := p + [w];
    assert IsPath(adj, q);
  }

  ghost predicate Distinct(s: seq<int>)
  {
    forall i, j :: 0 <= i < j < |s| ==> s[i] != s[j]
  }

  /** Every vertex of a list that holds the start and every neighbour of
      each of its vertices: all vertices reachable from the start. */
  ghost predicate Closed(adj: map<int, seq<int>>, s: seq<int>)
  {
    forall v, w :: v in s && w in NeighborsIn(adj, v) ==> w in s
  }

  /** A list closed under neighbours that holds the start holds every
      vertex reachable from the start. */
  lemma ClosedHoldsReachable(adj: map<int, seq<int>>, s: seq<int>, start: int, v: int)
    requires Closed(adj, s) && start in s && Reachable(adj, start, v)
    ensures v in s
  {
    var p :| IsPath(adj, p) && p[0] == start && p[|p| - 1] == v;
    var k := 0;
    while k < |p| - 1
      invariant 0 <= k <= |p| - 1 && p[k] in s
    {
      ClosedStep(adj, s, p[k], p[k + 1]);
      k := k + 1;
    }
  }

  lemma ClosedStep(adj: map<int, seq<int>>, s: seq<int>, v: int, w: int)
    requires Closed(adj, s) && v in s && w in NeighborsIn(adj, v)
    ensures w in s
  {
  }

  /** A distinct list of vertices drawn from `u` is no longer than `u`. */
  lemma {:induction false} DistinctBound(s: seq<int>, u: set<int>)
    requires Distinct(s) && forall x :: x in s ==> x in u
    ensures |s| <= |u|
  {
    if s != [] {
      var x0 := s[0];
      assert x0 in s;
      assert x0 in u;
      assert |u - {x0}| == |u| - 1 by {
        assert u == (u - {x0}) + {x0};
      }
      assert Distinct(s[1..]);
      forall x | x in s[1..] ensures x in u - {x0} {
        var i :| 0 <= i < |s[1..]| && s[1..][i] == x;
        assert s[i + 1] == x;
      }
      DistinctBound(s[1..], u - {x0});
    }
  }

  lemma NeighborIsVertex(adj: map<int, seq<int>>, v: int, w: int)
    requires w in NeighborsIn(adj, v)
    ensures w in Vertices(adj)
  {
    var i :| 0 <= i < |adj[v]| && adj[v][i] == w;
  }

  /** `BFSTask(graph, startVertex).call()`: the vertices reachable from
      `startVertex`, each once, the start first. The queue is always the
      not yet expanded tail `visited[head..]` of the list; every vertex
      before `head` has had all its neighbours added. */
  method Call(graph: Graph, startVertex: int) returns (visited: seq<int>)
    ensures |visited| >= 1 && visited[0] == startVertex
    ensures Distinct(visited)
    ensures Closed(graph.adjacencyList, visited)
    ensures forall v :: v in visited <==> Reachable(graph.adjacencyList, startVertex, v)
  {
    ghost var adj := graph.adjacencyList;
    ghost var universe := Vertices(adj) + {startVertex};
    visited := [startVertex];
    var queue := [startVertex];
    ghost var head := 0;
    ReachableStart(adj, startVertex);
    while queue != []
      invariant 0 <= head <= |visited| && queue == visited[head..]
      invariant |visited| >= 1 && visited[0] == startVertex && Distinct(visited)
      invariant forall v :: v in visited ==> v in universe && Reachable(adj, startVertex, v)
      invariant forall i, w :: 0 <= i < head && w in NeighborsIn(adj, visited[i]) ==> w in visited
      decreases |universe| - head
    {
      DistinctBound(visited, universe);
      var vertex := queue[0];
      queue := queue[1..];
      var neighbors := graph.GetNeighbors(vertex);
      for j := 0 to |neighbors|
        invariant 0 <= head < |visited| && visited[head] == vertex && queue == visited[head + 1..]
        invariant visited[0] == startVertex && Distinct(visited)
        invariant forall v :: v in visited ==> v in universe && Reachable(adj, startVertex, v)
        invariant forall i, w :: 0 <= i < head && w in NeighborsIn(adj, visited[i]) ==> w in visited
        invariant forall k :: 0 <= k < j ==> neighbors[k] in visited
      {
        var neighbor := neighbors[j];
        if neighbor !in visited {
          NeighborIsVertex(adj, vertex, neighbor);
          ReachableStep(adj, startVertex, vertex, neighbor);
          visited := visited + [neighbor];
          queue := queue + [neighbor];
        }
      }
      head := head + 1;
    }
    forall v, w | v in visited && w in NeighborsIn(adj, v) ensures w in visited {
      var i :| 0 <= i < |visited| && visited[i] == v;
    }
    forall v | Reachable(adj, startVertex, v) ensures v in visited {
      ClosedHoldsReachable(adj, visited, startVertex, v);
    }
  }
}
