/** Dense square matrices: the reverse Cuthill–McKee relabelling `Banded`
    built from a sparsity structure, and the pivoted LU solve. */
module SquareMatrix {
  import opened Base

  // ---------------------------------------------------------------------
  // Sparsity structures and their adjacency lists

  /** Every row has as many entries as there are rows. */
  predicate IsStructure(s: seq<seq<bool>>) {
    forall i :: 0 <= i < |s| ==> |s[i]| == |s|
  }

  /** Square and mirror-symmetric. */
  predicate IsSymmetricStructure(s: seq<seq<bool>>) {
    IsStructure(s) && forall i, j :: 0 <= i < |s| && 0 <= j < |s| ==> s[i][j] == s[j][i]
  }

  /** The other vertices `j < m` with `structure[i][j]`, in ascending order. */
  function NeighborsBelow(s: seq<seq<bool>>, i: nat, m: nat): seq<nat>
    requires IsStructure(s) && i < |s| && m <= |s|
  {
    if m == 0 then []
    else NeighborsBelow(s, i, m - 1) + (if s[i][m - 1] && m - 1 != i then [m - 1] else [])
  }

  /** Exactly the other neighbours below `m`, each once and ascending. */
  lemma {:induction false} NeighborsBelowFacts(s: seq<seq<bool>>, i: nat, m: nat)
    requires IsStructure(s) && i < |s| && m <= |s|
    ensures var ns := NeighborsBelow(s, i, m);
      (forall k :: 0 <= k < |ns| ==> ns[k] < m && ns[k] != i && s[i][ns[k]])
      && (forall j :: 0 <= j < m && j != i && s[i][j] ==> j in ns)
      && (forall k, k' :: 0 <= k < k' < |ns| ==> ns[k] < ns[k'])
  {
    if m > 0 {
      NeighborsBelowFacts(s, i, m - 1);
      var prev := NeighborsBelow(s, i, m - 1);
      if s[i][m - 1] && m - 1 != i {
        var ns := prev + [m - 1];
        assert forall k :: 0 <= k < |prev| ==> ns[k] == prev[k];
      }
    }
  }

  /** `adj_list[i]`. */
  function Neighbors(s: seq<seq<bool>>, i: nat): seq<nat>
    requires IsStructure(s) && i < |s|
  {
    NeighborsBelow(s, i, |s|)
  }

  /** Adjacency lists: every list names vertices in range, each once. */
  predicate IsAdjacency(adj: seq<seq<nat>>) {
    forall v :: 0 <= v < |adj| ==>
      Distinct(adj[v]) && forall k :: 0 <= k < |adj[v]| ==> adj[v][k] < |adj|
  }

  /** The structure check at the head of `Banded::from`: every row has
      `num` entries and `structure[j][i] == structure[i][j]`. */
  method CheckStructure(s: seq<seq<bool>>) returns (ok: bool)
    ensures ok <==> IsSymmetricStructure(s)
  {
    var num := |s|;
    for i := 0 to num
      invariant forall i' :: 0 <= i' < i ==> |s[i']| == num
      invariant forall i', j :: 0 <= i' < i && 0 <= j < num ==> i' < |s[j]| && s[i'][j] == s[j][i']
    {
      if |s[i]| != num {
        return false;
      }
      for j := 0 to num
        invariant forall j' :: 0 <= j' < j ==> i < |s[j']| && s[i][j'] == s[j'][i]
      {
        if i >= |s[j]| || s[j][i] != s[i][j] {
          return false;
        }
      }
    }
    return true;
  }

  /** The nested loops that fill `adj_list`. */
  method AdjacencyLists(s: seq<seq<bool>>) returns (adj: seq<seq<nat>>)
    requires IsStructure(s)
    ensures |adj| == |s| && forall i :: 0 <= i < |s| ==> adj[i] == Neighbors(s, i)
    ensures IsAdjacency(adj) && adj == Adjacency(s)
  {
    var num := |s|;
    adj := seq(num, _ => []);
    for i := 0 to num
      invariant |adj| == num
      invariant forall i' :: 0 <= i' < i ==> adj[i'] == Neighbors(s, i')
    {
      var row := NeighborRow(s, i);
      adj := adj[i := row];
    }
    forall v | 0 <= v < num
      ensures Distinct(adj[v]) && forall k :: 0 <= k < |adj[v]| ==> adj[v][k] < num
    {
      assert adj[v] == NeighborsBelow(s, v, num);
      NeighborsBelowFacts(s, v, num);
    }
  }

  /** The inner loop: `adj_list[i]`, the vertices `j != i` with
      `structure[i][j]`, in ascending order. */
  method NeighborRow(s: seq<seq<bool>>, i: nat) returns (row: seq<nat>)
    requires IsStructure(s) && i < |s|
    ensures row == Neighbors(s, i)
  {
    row := [];
    for j := 0 to |s|
      invariant row == NeighborsBelow(s, i, j)
    {
      if s[i][j] && i != j {
        row := row + [j];
      }
    }
  }

  // ---------------------------------------------------------------------
  // Choosing a start vertex and ordering neighbours

  /** The first vertex below `m` that is not yet visited and has the fewest
      neighbours (`min_by_key` keeps the first of equal minima). */
  function FirstMinDegree(adj: seq<seq<nat>>, visited: seq<bool>, m: nat): (r: Option<nat>)
    requires m <= |adj| == |visited|
    ensures r.None? <==> forall v :: 0 <= v < m ==> visited[v]
    ensures r.Some? ==> r.value < m && !visited[r.value]
    ensures r.Some? ==> forall v :: 0 <= v < m && !visited[v] ==> |adj[r.value]| <= |adj[v]|
    ensures r.Some? ==> forall v :: 0 <= v < r.value && !visited[v] ==> |adj[v]| > |adj[r.value]|
  {
    if m == 0 then None
    else
      var best := FirstMinDegree(adj, visited, m - 1);
      if visited[m - 1] then best
      else if best.None? || |adj[m - 1]| < |adj[best.value]| then Some(m - 1)
      else best
  }

  /** `x` comes before `y` after `sort_by_key` on the degree: fewer
      neighbours first, and the ascending input order among ties (the sort
      is stable). */
  predicate Before(adj: seq<seq<nat>>, x: nat, y: nat)
    requires x < |adj| && y < |adj|
  {
    |adj[x]| < |adj[y]| || (|adj[x]| == |adj[y]| && x < y)
  }

  predicate SortedByDegree(adj: seq<seq<nat>>, ns: seq<nat>)
    requires forall k :: 0 <= k < |ns| ==> ns[k] < |adj|
  {
    forall k, k' :: 0 <= k < k' < |ns| ==> Before(adj, ns[k], ns[k'])
  }

  /** `Before` orders any two distinct vertices one way or the other. */
  lemma BeforeTotal(adj: seq<seq<nat>>, x: nat, y: nat)
    requires x < |adj| && y < |adj| && x != y
    ensures Before(adj, x, y) || Before(adj, y, x)
  {
  }

  function InsertByDegree(adj: seq<seq<nat>>, x: nat, ns: seq<nat>): (r: seq<nat>)
    requires x < |adj| && forall k :: 0 <= k < |ns| ==> ns[k] < |adj|
    requires SortedByDegree(adj, ns) && Distinct(ns) && x !in ns
    ensures |r| == |ns| + 1 && forall v :: v in r <==> v == x || v in ns
    ensures forall k :: 0 <= k < |r| ==> r[k] < |adj|
    ensures SortedByDegree(adj, r) && Distinct(r)
  {
    if |ns| == 0 then [x]
    else if Before(adj, x, ns[0]) then
      assert forall k :: 0 < k < |ns| ==> Before(adj, ns[0], ns[k]);
      [x] + ns
    else
      var tail := ns[1..];
      assert forall k :: 0 <= k < |tail| ==> tail[k] == ns[k + 1];
      var rest := InsertByDegree(adj, x, tail);
      HeadBeforeRest(adj, x, ns, rest);
      ConsSorted(adj, ns[0], rest);
      assert forall v :: v in ns <==> v == ns[0] || v in tail by {
        assert ns == [ns[0]] + tail;
      }
      [ns[0]] + rest
  }

  /** The head of `ns` comes before `x` and before the rest of `ns`. */
  lemma HeadBeforeRest(adj: seq<seq<nat>>, x: nat, ns: seq<nat>, rest: seq<nat>)
    requires x < |adj| && |ns| > 0 && forall k :: 0 <= k < |ns| ==> ns[k] < |adj|
    requires SortedByDegree(adj, ns) && x !in ns && !Before(adj, x, ns[0])
    requires forall k :: 0 <= k < |rest| ==> rest[k] < |adj|
    requires forall v :: v in rest <==> v == x || v in ns[1..]
    ensures forall k :: 0 <= k < |rest| ==> Before(adj, ns[0], rest[k])
  {
    BeforeTotal(adj, x, ns[0]);
    forall k | 0 <= k < |rest|
      ensures Before(adj, ns[0], rest[k])
    {
      assert rest[k] in rest;
      if rest[k] != x {
        var m :| 1 <= m < |ns| && ns[m] == rest[k];
      }
    }
  }

  /** A vertex before every vertex of a sorted list can go in front. */
  lemma ConsSorted(adj: seq<seq<nat>>, h: nat, rest: seq<nat>)
    requires h < |adj| && forall k :: 0 <= k < |rest| ==> rest[k] < |adj|
    requires SortedByDegree(adj, rest) && Distinct(rest)
    requires forall k :: 0 <= k < |rest| ==> Before(adj, h, rest[k])
    ensures SortedByDegree(adj, [h] + rest) && Distinct([h] + rest)
  {
    var r := [h] + rest;
    assert forall k :: 0 < k < |r| ==> r[k] == rest[k - 1];
  }

  /** `neighbors.sort_by_key(|&n| adj_list[n].len())` on a list of
      distinct vertices: the same vertices, ordered by `Before`. */
  function SortByDegree(adj: seq<seq<nat>>, ns: seq<nat>): (r: seq<nat>)
    requires Distinct(ns) && forall k :: 0 <= k < |ns| ==> ns[k] < |adj|
    ensures |r| == |ns| && forall v :: v in r <==> v in ns
    ensures forall k :: 0 <= k < |r| ==> r[k] < |adj|
    ensures SortedByDegree(adj, r) && Distinct(r)
  {
    if |ns| == 0 then []
    else
      var last := ns[|ns| - 1];
      var init := ns[..|ns| - 1];
      assert ns == init + [last];
      var sorted := SortByDegree(adj, init);
      assert last !in init;
      InsertByDegree(adj, last, sorted)
  }

  /** `adj_list[vertex].iter().filter(|n| !visited[n])`: the unvisited
      vertices of `ns`, in the order of `ns`. */
  function Unvisited(ns: seq<nat>, visited: seq<bool>): (r: seq<nat>)
    requires forall k :: 0 <= k < |ns| ==> ns[k] < |visited|
    ensures forall v :: v in r <==> v in ns && !visited[v]
    ensures Distinct(ns) ==> Distinct(r)
  {
    if |ns| == 0 then []
    else
      var front := ns[..|ns| - 1];
      var last := ns[|ns| - 1];
      assert ns == front + [last];
      var init := Unvisited(front, visited);
      init + (if visited[last] then [] else [last])
  }

  // ---------------------------------------------------------------------
  // The breadth-first visiting order, as a function

  /** No vertex visited yet: `vec![false; num]`. */
  function NoneVisited(n: nat): (r: seq<bool>)
    ensures |r| == n && forall v :: 0 <= v < n ==> !r[v]
  {
    seq(n, _ => false)
  }

  /** `visited` with every vertex of `ns` marked. */
  function MarkAll(visited: seq<bool>, ns: seq<nat>): (r: seq<bool>)
    ensures |r| == |visited| && forall v :: 0 <= v < |r| ==> (r[v] <==> visited[v] || v in ns)
  {
    seq(|visited|, v requires 0 <= v < |visited| => visited[v] || v in ns)
  }

  /** Marking one more vertex of `ns`. */
  lemma {:induction false} MarkOneMore(visited: seq<bool>, ns: seq<nat>, t: nat)
    requires t < |ns| && ns[t] < |visited|
    ensures MarkAll(visited, ns[..t + 1]) == MarkAll(visited, ns[..t])[ns[t] := true]
  {
    assert ns[..t + 1] == ns[..t] + [ns[t]];
  }

  /** The vertices not visited yet; a sweep only ever shrinks this set. */
  function UnvisitedSet(visited: seq<bool>): set<nat> {
    set v: nat | v < |visited| && !visited[v]
  }

  /** The unvisited neighbours of `vertex`, fewest neighbours first: the
      vertices one step of the sweep queues. */
  function Discovered(adj: seq<seq<nat>>, visited: seq<bool>, vertex: nat): (r: seq<nat>)
    requires IsAdjacency(adj) && |visited| == |adj| && vertex < |adj|
    ensures Distinct(r) && forall k :: 0 <= k < |r| ==> r[k] < |adj| && !visited[r[k]]
    ensures forall k :: 0 <= k < |adj[vertex]| && !visited[adj[vertex][k]] ==> adj[vertex][k] in r
  {
    var reached := Unvisited(adj[vertex], visited);
    assert forall k :: 0 <= k < |reached| ==> reached[k] in reached;
    var r := SortByDegree(adj, reached);
    assert forall k :: 0 <= k < |r| ==> r[k] in reached;
    assert forall k :: 0 <= k < |adj[vertex]| && !visited[adj[vertex][k]] ==> adj[vertex][k] in reached by {
      forall k | 0 <= k < |adj[vertex]| && !visited[adj[vertex][k]]
        ensures adj[vertex][k] in reached
      {
        assert adj[vertex][k] in adj[vertex];
      }
    }
    r
  }

  /** The order in which the `while let Some(vertex) = queue.pop_front()`
      loop pushes vertices to `mapping`, from the state `(visited, queue)`:
      the front vertex, then the order from the state in which its
      unvisited neighbours are marked and queued. */
  function BfsFrom(adj: seq<seq<nat>>, visited: seq<bool>, queue: seq<nat>): seq<nat>
    requires IsAdjacency(adj) && |visited| == |adj| && forall k :: 0 <= k < |queue| ==> queue[k] < |adj|
    decreases UnvisitedSet(visited), |queue|
  {
    if |queue| == 0 then []
    else
      StepShrinks(adj, visited, queue);
      [queue[0]] + BfsFrom(adj, NextVisited(adj, visited, queue), NextQueue(adj, visited, queue))
  }

  /** The marks after the front vertex's neighbours are discovered. */
  function NextVisited(adj: seq<seq<nat>>, visited: seq<bool>, queue: seq<nat>): (r: seq<bool>)
    requires IsAdjacency(adj) && |visited| == |adj| && 0 < |queue| && queue[0] < |adj|
    ensures |r| == |adj|
  {
    MarkAll(visited, Discovered(adj, visited, queue[0]))
  }

  /** The queue after the front vertex is popped and its neighbours pushed. */
  function NextQueue(adj: seq<seq<nat>>, visited: seq<bool>, queue: seq<nat>): (r: seq<nat>)
    requires IsAdjacency(adj) && |visited| == |adj| && 0 < |queue| && forall k :: 0 <= k < |queue| ==> queue[k] < |adj|
    ensures forall k :: 0 <= k < |r| ==> r[k] < |adj|
  {
    queue[1..] + Discovered(adj, visited, queue[0])
  }

  /** One step of the sweep visits a new vertex or shortens the queue. */
  lemma {:induction false} StepShrinks(adj: seq<seq<nat>>, visited: seq<bool>, queue: seq<nat>)
    requires IsAdjacency(adj) && |visited| == |adj| && 0 < |queue| && forall k :: 0 <= k < |queue| ==> queue[k] < |adj|
    ensures var visited' := NextVisited(adj, visited, queue);
      UnvisitedSet(visited') < UnvisitedSet(visited)
      || (UnvisitedSet(visited') == UnvisitedSet(visited) && |NextQueue(adj, visited, queue)| < |queue|)
  {
    var neighbors := Discovered(adj, visited, queue[0]);
    var visited' := MarkAll(visited, neighbors);
    assert UnvisitedSet(visited') <= UnvisitedSet(visited);
    if |neighbors| > 0 {
      assert neighbors[0] in UnvisitedSet(visited) - UnvisitedSet(visited');
    } else {
      assert visited' == visited;
    }
  }

  /** The order of one sweep from the unvisited vertex `start`. */
  function BreadthFirst(adj: seq<seq<nat>>, visited: seq<bool>, start: nat): (r: seq<nat>)
    requires IsAdjacency(adj) && |visited| == |adj| && start < |adj|
    ensures |r| > 0 && r[0] == start
  {
    BfsFrom(adj, visited[start := true], [start])
  }

  /** Sweeps from the least-connected unvisited vertex, one after another,
      until every vertex is visited. */
  function Sweeps(adj: seq<seq<nat>>, visited: seq<bool>): seq<nat>
    requires IsAdjacency(adj) && |visited| == |adj|
    decreases UnvisitedSet(visited)
  {
    match FirstMinDegree(adj, visited, |adj|)
    case None => []
    case Some(start) =>
      var order := BreadthFirst(adj, visited, start);
      var visited' := MarkAll(visited, order);
      assert UnvisitedSet(visited') <= UnvisitedSet(visited);
      assert start in UnvisitedSet(visited) - UnvisitedSet(visited');
      order + Sweeps(adj, visited')
  }

  /** The adjacency lists of a structure. */
  function Adjacency(s: seq<seq<bool>>): (adj: seq<seq<nat>>)
    requires IsStructure(s)
    ensures |adj| == |s| && IsAdjacency(adj)
    ensures forall i, j :: 0 <= i < |s| && 0 <= j < |s| ==> (j in adj[i] <==> s[i][j] && i != j)
  {
    var adj := seq(|s|, i requires 0 <= i < |s| => Neighbors(s, i));
    assert forall i :: 0 <= i < |s| ==> adj[i] == NeighborsBelow(s, i, |s|);
    assert IsAdjacency(adj) && forall i, j :: 0 <= i < |s| && 0 <= j < |s| ==> (j in adj[i] <==> s[i][j] && i != j) by {
      forall i | 0 <= i < |s|
        ensures Distinct(adj[i]) && forall k :: 0 <= k < |adj[i]| ==> adj[i][k] < |s|
        ensures forall j :: 0 <= j < |s| ==> (j in adj[i] <==> s[i][j] && i != j)
      {
        NeighborsBelowFacts(s, i, |s|);
      }
    }
    adj
  }

  /** The vertex `Banded::from` starts from: the first of least degree. */
  function StartVertex(s: seq<seq<bool>>): (v: nat)
    requires IsStructure(s) && |s| > 0
    ensures v < |s|
  {
    var first := FirstMinDegree(Adjacency(s), NoneVisited(|s|), |s|);
    assert first.Some?;
    first.value
  }

  /** The Cuthill–McKee order of a structure: one breadth-first sweep from
      the start vertex. `Banded::from` reverses it. */
  function CuthillMcKee(s: seq<seq<bool>>): seq<nat>
    requires IsStructure(s) && |s| > 0
  {
    BreadthFirst(Adjacency(s), NoneVisited(|s|), StartVertex(s))
  }

  /** The Cuthill–McKee order with a new sweep from each component left. */
  function RestartedCuthillMcKee(s: seq<seq<bool>>): seq<nat>
    requires IsStructure(s)
  {
    Sweeps(Adjacency(s), NoneVisited(|s|))
  }

  /** No link of `s` leaves `vs`. */
  ghost predicate Closed(s: seq<seq<bool>>, vs: set<nat>)
    requires IsStructure(s)
  {
    forall i, j :: 0 <= i < |s| && 0 <= j < |s| && i in vs && s[i][j] ==> j in vs
  }

  /** Every set of vertices closed under the links and holding a vertex holds
      every vertex. */
  ghost predicate Connected(s: seq<seq<bool>>)
    requires IsStructure(s)
  {
    forall vs: set<nat> :: Closed(s, vs) && HasVertex(s, vs) ==> forall v :: 0 <= v < |s| ==> v in vs
  }

  predicate HasVertex(s: seq<seq<bool>>, vs: set<nat>) {
    exists v :: 0 <= v < |s| && v in vs
  }

  /** No adjacency list leads out of `vs`. */
  ghost predicate AdjClosed(adj: seq<seq<nat>>, vs: set<nat>) {
    forall u, k :: 0 <= u < |adj| && u in vs && 0 <= k < |adj[u]| ==> adj[u][k] in vs
  }

  /** A sweep whose queue lies in a closed set never leaves it. */
  lemma {:induction false} BfsStays(adj: seq<seq<nat>>, visited: seq<bool>, queue: seq<nat>, vs: set<nat>)
    requires IsAdjacency(adj) && |visited| == |adj| && forall k :: 0 <= k < |queue| ==> queue[k] < |adj|
    requires AdjClosed(adj, vs) && forall k :: 0 <= k < |queue| ==> queue[k] in vs
    ensures forall v :: v in BfsFrom(adj, visited, queue) ==> v in vs
    decreases UnvisitedSet(visited), |queue|
  {
    if |queue| > 0 {
      StepShrinks(adj, visited, queue);
      var neighbors := Discovered(adj, visited, queue[0]);
      var visited' := NextVisited(adj, visited, queue);
      var queue' := NextQueue(adj, visited, queue);
      forall k | 0 <= k < |queue'|
        ensures queue'[k] in vs
      {
        if k >= |queue| - 1 {
          assert queue'[k] in adj[queue[0]] by {
            assert queue'[k] in neighbors;
          }
        }
      }
      BfsStays(adj, visited', queue', vs);
    }
  }

  /** Every queued vertex is visited by the sweep. */
  lemma {:induction false} BfsQueued(adj: seq<seq<nat>>, visited: seq<bool>, queue: seq<nat>)
    requires IsAdjacency(adj) && |visited| == |adj| && forall k :: 0 <= k < |queue| ==> queue[k] < |adj|
    ensures forall k :: 0 <= k < |queue| ==> queue[k] in BfsFrom(adj, visited, queue)
    decreases UnvisitedSet(visited), |queue|
  {
    if |queue| > 0 {
      StepShrinks(adj, visited, queue);
      var neighbors := Discovered(adj, visited, queue[0]);
      var visited' := NextVisited(adj, visited, queue);
      var queue' := NextQueue(adj, visited, queue);
      BfsQueued(adj, visited', queue');
      forall k | 1 <= k < |queue|
        ensures queue[k] in BfsFrom(adj, visited', queue')
      {
        assert queue[k] == queue'[k - 1];
      }
    }
  }

  /** Every neighbour of a vertex the sweep visits was visited before the
      sweep or is visited by it. */
  lemma {:induction false} BfsClosed(adj: seq<seq<nat>>, visited: seq<bool>, queue: seq<nat>)
    requires IsAdjacency(adj) && |visited| == |adj| && forall k :: 0 <= k < |queue| ==> queue[k] < |adj|
    ensures var out := BfsFrom(adj, visited, queue);
      forall u, k :: u in out && 0 <= u < |adj| && 0 <= k < |adj[u]| ==> visited[adj[u][k]] || adj[u][k] in out
    decreases UnvisitedSet(visited), |queue|
  {
    if |queue| > 0 {
      StepShrinks(adj, visited, queue);
      var neighbors := Discovered(adj, visited, queue[0]);
      var visited' := NextVisited(adj, visited, queue);
      var queue' := NextQueue(adj, visited, queue);
      var rest := BfsFrom(adj, visited', queue');
      var out := BfsFrom(adj, visited, queue);
      assert out == [queue[0]] + rest;
      BfsClosed(adj, visited', queue');
      BfsQueued(adj, visited', queue');
      assert forall w :: w in neighbors ==> w in rest by {
        forall w | w in neighbors
          ensures w in rest
        {
          var t :| 0 <= t < |neighbors| && neighbors[t] == w;
          assert queue'[|queue| - 1 + t] == w;
        }
      }
      forall u, k | u in out && 0 <= u < |adj| && 0 <= k < |adj[u]|
        ensures visited[adj[u][k]] || adj[u][k] in out
      {
      }
    }
  }

  /** Links of a structure and its adjacency lists close the same sets. */
  lemma {:induction false} ClosedAdj(s: seq<seq<bool>>, vs: set<nat>)
    requires IsStructure(s)
    ensures Closed(s, vs) <==> AdjClosed(Adjacency(s), vs)
  {
    var adj := Adjacency(s);
    if AdjClosed(adj, vs) {
      forall i, j | 0 <= i < |s| && 0 <= j < |s| && i in vs && s[i][j] && i != j
        ensures j in vs
      {
        var k :| 0 <= k < |adj[i]| && adj[i][k] == j;
      }
    }
    if Closed(s, vs) {
      forall u, k | 0 <= u < |adj| && u in vs && 0 <= k < |adj[u]|
        ensures adj[u][k] in vs
      {
        assert adj[u][k] in adj[u];
      }
    }
  }

  /** In a symmetric structure, the vertices outside a closed set are closed. */
  lemma {:induction false} ClosedComplement(s: seq<seq<bool>>, vs: set<nat>)
    requires IsSymmetricStructure(s) && Closed(s, vs)
    ensures Closed(s, set v: nat | v < |s| && v !in vs)
  {
  }

  /** `Banded::from` labels every vertex exactly when the structure is
      connected: the sweep from the start vertex reaches just its
      component. */
  lemma {:induction false} ConnectedIffCovered(s: seq<seq<bool>>)
    requires IsSymmetricStructure(s) && |s| > 0
    ensures Connected(s) <==> forall v :: 0 <= v < |s| ==> v in CuthillMcKee(s)
  {
    if Connected(s) {
      ConnectedCovered(s);
    }
    if forall v :: 0 <= v < |s| ==> v in CuthillMcKee(s) {
      forall vs: set<nat> | Closed(s, vs) && HasVertex(s, vs)
        ensures forall v :: 0 <= v < |s| ==> v in vs
      {
        CoveredInClosed(s, vs);
      }
    }
  }

  /** The vertices the sweep visits form a closed set, so on a connected
      structure they are all the vertices. */
  lemma {:induction false} ConnectedCovered(s: seq<seq<bool>>)
    requires IsSymmetricStructure(s) && |s| > 0 && Connected(s)
    ensures forall v :: 0 <= v < |s| ==> v in CuthillMcKee(s)
  {
    var vs := SweptSet(Adjacency(s), StartVertex(s));
    ClosedAdj(s, vs);
    assert HasVertex(s, vs) by {
      assert StartVertex(s) in vs;
    }
  }

  /** The vertices a first sweep from `start` visits. */
  ghost function SweptSet(adj: seq<seq<nat>>, start: nat): (vs: set<nat>)
    requires IsAdjacency(adj) && start < |adj|
    ensures start in vs && AdjClosed(adj, vs)
    ensures forall v :: v in vs ==> v in BreadthFirst(adj, NoneVisited(|adj|), start)
  {
    var visited := NoneVisited(|adj|)[start := true];
    var out := BfsFrom(adj, visited, [start]);
    BfsQueued(adj, visited, [start]);
    BfsClosed(adj, visited, [start]);
    set v: nat | v < |adj| && v in out
  }

  /** When the sweep visits every vertex, a closed set holding some vertex
      holds them all: the sweep cannot leave it, or its complement. */
  lemma {:induction false} CoveredInClosed(s: seq<seq<bool>>, vs: set<nat>)
    requires IsSymmetricStructure(s) && |s| > 0 && forall v :: 0 <= v < |s| ==> v in CuthillMcKee(s)
    requires Closed(s, vs) && HasVertex(s, vs)
    ensures forall v :: 0 <= v < |s| ==> v in vs
  {
    var adj := Adjacency(s);
    var start := StartVertex(s);
    var visited := NoneVisited(|s|)[start := true];
    assert CuthillMcKee(s) == BfsFrom(adj, visited, [start]);
    if start in vs {
      ClosedAdj(s, vs);
      BfsStays(adj, visited, [start], vs);
    } else {
      var rest := set v: nat | v < |s| && v !in vs;
      ClosedComplement(s, vs);
      ClosedAdj(s, rest);
      BfsStays(adj, visited, [start], rest);
      forall v | 0 <= v < |s|
        ensures v !in vs
      {
        assert v in CuthillMcKee(s);
      }
      assert false;
    }
  }

  /** On a connected structure the restarted sweeps are the single sweep. */
  lemma {:induction false} RestartConnected(s: seq<seq<bool>>)
    requires IsSymmetricStructure(s) && |s| > 0 && Connected(s)
    ensures RestartedCuthillMcKee(s) == CuthillMcKee(s)
  {
    var adj := Adjacency(s);
    var none := NoneVisited(|s|);
    var out := CuthillMcKee(s);
    ConnectedIffCovered(s);
    var all := MarkAll(none, out);
    assert FirstMinDegree(adj, all, |s|).None?;
    assert Sweeps(adj, all) == [];
    assert out + [] == out;
  }

  // ---------------------------------------------------------------------
  // Breadth-first sweep

  /** The bookkeeping of the sweep: `done` (the vertices already pushed to
      `mapping`) and `queue` together hold each visited vertex exactly once. */
  predicate SweepState(n: nat, visited: seq<bool>, done: seq<nat>, queue: seq<nat>) {
    |visited| == n && Distinct(done + queue)
    && (forall k :: 0 <= k < |done + queue| ==> (done + queue)[k] < n)
    && (forall k :: 0 <= k < |queue| ==> queue[k] < n)
    && (forall v :: 0 <= v < n ==> (visited[v] <==> v in done + queue))
    && CountTrue(visited) == |done + queue|
  }

  /** `for neighbor in neighbors { visited[neighbor] = true; queue.push_back(neighbor) }` */
  method Enqueue(n: nat, visited: seq<bool>, done: seq<nat>, queue: seq<nat>, neighbors: seq<nat>)
    returns (visited': seq<bool>, queue': seq<nat>)
    requires SweepState(n, visited, done, queue) && Distinct(neighbors)
    requires forall k :: 0 <= k < |neighbors| ==> neighbors[k] < n && !visited[neighbors[k]]
    ensures SweepState(n, visited', done, queue') && queue' == queue + neighbors
    ensures visited' == MarkAll(visited, neighbors)
  {
    visited', queue' := visited, queue;
    for t := 0 to |neighbors|
      invariant SweepState(n, visited', done, queue') && queue' == queue + neighbors[..t]
      invariant visited' == MarkAll(visited, neighbors[..t])
      invariant forall k :: t <= k < |neighbors| ==> !visited'[neighbors[k]]
    {
      var v := neighbors[t];
      CountTrueRaise(visited', v);
      visited' := visited'[v := true];
      assert (done + queue') + [v] == done + (queue' + [v]);
      assert neighbors[..t + 1] == neighbors[..t] + [v];
      MarkOneMore(visited, neighbors, t);
      queue' := queue' + [v];
    }
    assert neighbors[..|neighbors|] == neighbors;
  }

  /** The body of the `while let Some(vertex) = queue.pop_front()` loop:
      `vertex` joins `mapping`, and its unvisited neighbours, fewest
      neighbours first, join the queue. */
  method Visit(adj: seq<seq<nat>>, visited: seq<bool>, done: seq<nat>, queue: seq<nat>)
    returns (visited': seq<bool>, done': seq<nat>, queue': seq<nat>)
    requires IsAdjacency(adj) && SweepState(|adj|, visited, done, queue) && |queue| > 0
    ensures SweepState(|adj|, visited', done', queue')
    ensures queue[0] < |adj| && done' == done + [queue[0]]
    ensures visited' == NextVisited(adj, visited, queue) && queue' == NextQueue(adj, visited, queue)
    ensures done' + BfsFrom(adj, visited', queue') == done + BfsFrom(adj, visited, queue)
    ensures |adj[queue[0]]| == 0 ==> queue' == queue[1..]
  {
    var vertex := queue[0];
    assert (done + queue)[|done|] == vertex;
    assert vertex < |adj|;
    assert done + queue == (done + [vertex]) + queue[1..];
    done' := done + [vertex];
    var neighbors := Discovered(adj, visited, vertex);
    visited', queue' := Enqueue(|adj|, visited, done', queue[1..], neighbors);
    VisitOrder(adj, visited, done, queue);
  }

  /** One run of the `while let Some(vertex) = queue.pop_front()` loop
      started from `start`: appends the vertices it reaches, in visiting
      order, to `order` and marks them visited. */
  method Sweep(adj: seq<seq<nat>>, visited: seq<bool>, order: seq<nat>, start: nat)
    returns (visited': seq<bool>, order': seq<nat>)
    requires IsAdjacency(adj) && start < |adj| && SweepState(|adj|, visited, order, []) && !visited[start]
    ensures SweepState(|adj|, visited', order', [])
    ensures |order'| > |order| && order'[..|order|] == order && order'[|order|] == start
    ensures order' == order + BreadthFirst(adj, visited, start)
    ensures visited' == MarkAll(visited, BreadthFirst(adj, visited, start))
    ensures |adj[start]| == 0 ==> order' == order + [start]
  {
    var n := |adj|;
    assert order + [] == order;
    CountTrueRaise(visited, start);
    visited' := visited[start := true];
    order' := order;
    visited', order' := Drain(adj, visited', order, [start]);
    if |adj[start]| == 0 {
      IsolatedSweep(adj, visited, start);
    }
    SweptMarks(n, visited, order, visited', order', BreadthFirst(adj, visited, start));
  }

  /** The `while let Some(vertex) = queue.pop_front()` loop itself: visits
      until the queue is empty, appending the breadth-first order from the
      state `(visited, queue)`. */
  method Drain(adj: seq<seq<nat>>, visited: seq<bool>, done: seq<nat>, queue: seq<nat>)
    returns (visited': seq<bool>, done': seq<nat>)
    requires IsAdjacency(adj) && SweepState(|adj|, visited, done, queue)
    ensures SweepState(|adj|, visited', done', [])
    ensures done' == done + BfsFrom(adj, visited, queue)
  {
    visited', done' := visited, done;
    var queue' := queue;
    while |queue'| > 0
      invariant SweepState(|adj|, visited', done', queue')
      invariant done' + BfsFrom(adj, visited', queue') == done + BfsFrom(adj, visited, queue)
      decreases |adj| - |done'|
    {
      CountTrueBound(visited');
      assert |done' + queue'| <= |adj|;
      visited', done', queue' := Visit(adj, visited', done', queue');
    }
    assert done' + [] == done';
  }

  /** One turn of the loop: the front vertex, then the rest of the order. */
  lemma {:induction false} BfsUnfold(adj: seq<seq<nat>>, visited: seq<bool>, queue: seq<nat>)
    requires IsAdjacency(adj) && |visited| == |adj| && 0 < |queue| && forall k :: 0 <= k < |queue| ==> queue[k] < |adj|
    ensures BfsFrom(adj, visited, queue)
      == [queue[0]] + BfsFrom(adj, NextVisited(adj, visited, queue), NextQueue(adj, visited, queue))
  {
  }

  /** A sweep from a vertex without neighbours visits just that vertex. */
  lemma {:induction false} IsolatedSweep(adj: seq<seq<nat>>, visited: seq<bool>, start: nat)
    requires IsAdjacency(adj) && |visited| == |adj| && start < |adj| && |adj[start]| == 0
    ensures BreadthFirst(adj, visited, start) == [start]
  {
    var marked := visited[start := true];
    BfsUnfold(adj, marked, [start]);
    assert Discovered(adj, marked, start) == [];
    assert NextQueue(adj, marked, [start]) == [];
  }

  /** Moving the front vertex from the queue to the visited order keeps the
      whole order. */
  lemma {:induction false} VisitOrder(adj: seq<seq<nat>>, visited: seq<bool>, done: seq<nat>, queue: seq<nat>)
    requires IsAdjacency(adj) && |visited| == |adj| && 0 < |queue| && forall k :: 0 <= k < |queue| ==> queue[k] < |adj|
    ensures (done + [queue[0]]) + BfsFrom(adj, NextVisited(adj, visited, queue), NextQueue(adj, visited, queue))
      == done + BfsFrom(adj, visited, queue)
  {
    BfsUnfold(adj, visited, queue);
  }

  /** After a sweep the marks are those before it plus the vertices it
      visited. */
  lemma {:induction false} SweptMarks(n: nat, visited: seq<bool>, order: seq<nat>, visited': seq<bool>, order': seq<nat>, swept: seq<nat>)
    requires SweepState(n, visited, order, []) && SweepState(n, visited', order', []) && order' == order + swept
    ensures visited' == MarkAll(visited, swept)
  {
    assert order + [] == order && order' + [] == order';
    forall v | 0 <= v < n
      ensures visited'[v] == MarkAll(visited, swept)[v]
    {
      assert v in order' <==> v in order || v in swept;
    }
  }

  // ---------------------------------------------------------------------
  // The relabelling

  /** `Banded`: `mapping[new] == old`, `inverse[old] == new`, and the
      bandwidth of the relabelled structure. */
  datatype Banded = Banded(bandwidth: nat, inverse: seq<nat>, mapping: seq<nat>) {
    /** `mapping` and `inverse` are mutually inverse permutations of `0..n`. */
    predicate Valid(n: nat) {
      IsPermutation(mapping, n) && |inverse| == n
      && (forall k :: 0 <= k < n ==> inverse[mapping[k]] == k)
      && (forall o :: 0 <= o < n ==> inverse[o] < n && mapping[inverse[o]] == o)
    }

    /** `map`: the new index of an old one. */
    function Map(o: nat): (k: nat)
      requires Valid(|mapping|) && o < |mapping|
      ensures k < |mapping| && mapping[k] == o
    {
      inverse[o]
    }

    /** `old`: the old index of a new one. */
    function Old(k: nat): (o: nat)
      requires Valid(|mapping|) && k < |mapping|
      ensures o < |mapping| && Map(o) == k
    {
      mapping[k]
    }

    /** `width`. */
    function Width(): nat {
      bandwidth
    }
  }

  /** Vertices `i` and `j` of the relabelled structure share an entry. */
  predicate Linked(s: seq<seq<bool>>, mapping: seq<nat>, i: nat, j: nat)
    requires IsStructure(s) && IsPermutation(mapping, |s|) && i < |s| && j < |s|
  {
    s[mapping[i]][mapping[j]]
  }

  /** The largest `j − i` over `i < j` with `Linked(i, j)` (zero if there
      is none). */
  ghost predicate IsBandwidth(s: seq<seq<bool>>, mapping: seq<nat>, w: nat)
    requires IsStructure(s) && IsPermutation(mapping, |s|)
  {
    (forall i, j :: 0 <= i < j < |s| && Linked(s, mapping, i, j) ==> j - i <= w)
    && (w == 0 || exists i, j :: 0 <= i < j < |s| && Linked(s, mapping, i, j) && j - i == w)
  }

  /** `inverse[old] = new` for every `(new, old)` of `mapping`. */
  method InverseOf(mapping: seq<nat>, n: nat) returns (inverse: seq<nat>)
    requires IsPermutation(mapping, n)
    ensures |inverse| == n && forall k :: 0 <= k < n ==> inverse[mapping[k]] == k
    ensures forall o :: 0 <= o < n ==> inverse[o] < n && mapping[inverse[o]] == o
  {
    inverse := seq(n, _ => 0);
    for k := 0 to n
      invariant |inverse| == n
      invariant forall k' :: 0 <= k' < k ==> inverse[mapping[k']] == k'
    {
      inverse := inverse[mapping[k] := k];
    }
    forall o | 0 <= o < n
      ensures inverse[o] < n && mapping[inverse[o]] == o
    {
      assert o in mapping;
      var k :| 0 <= k < |mapping| && mapping[k] == o;
    }
  }

  /** The bandwidth loops: `bandwidth = bandwidth.max(j - i)` over the
      linked pairs `i < j`. */
  method Bandwidth(s: seq<seq<bool>>, mapping: seq<nat>) returns (bandwidth: nat)
    requires IsStructure(s) && IsPermutation(mapping, |s|)
    ensures IsBandwidth(s, mapping, bandwidth)
  {
    var num := |s|;
    bandwidth := 0;
    for i := 0 to num
      invariant forall i', j :: 0 <= i' < i && i' < j < num && Linked(s, mapping, i', j) ==> j - i' <= bandwidth
      invariant bandwidth == 0
        || exists i', j :: 0 <= i' < j < num && Linked(s, mapping, i', j) && j - i' == bandwidth
    {
      for j := i + 1 to num
        invariant forall i', j' :: 0 <= i' < i && i' < j' < num && Linked(s, mapping, i', j') ==> j' - i' <= bandwidth
        invariant forall j' :: i < j' < j && Linked(s, mapping, i, j') ==> j' - i <= bandwidth
        invariant bandwidth == 0
          || exists i', j' :: 0 <= i' < j' < num && Linked(s, mapping, i', j') && j' - i' == bandwidth
      {
        if Linked(s, mapping, i, j) {
          bandwidth := if bandwidth < j - i then j - i else bandwidth;
        }
      }
    }
  }

  /** The tail of `Banded::from`: reverse the visiting order, invert it, and
      measure the bandwidth. */
  method Relabel(s: seq<seq<bool>>, order: seq<nat>) returns (b: Banded)
    requires IsStructure(s) && IsPermutation(order, |s|)
    ensures b.mapping == Reverse(order) && b.Valid(|s|)
    ensures IsBandwidth(s, b.mapping, b.bandwidth)
    ensures |s| > 0 ==> b.mapping[|s| - 1] == order[0]
  {
    var mapping := Reverse(order);
    ReversePermutation(order, |s|);
    var inverse := InverseOf(mapping, |s|);
    var bandwidth := Bandwidth(s, mapping);
    b := Banded(bandwidth, inverse, mapping);
  }

  /** `0, 1, ..., n - 1`. */
  function IdentityPermutation(n: nat): (p: seq<nat>)
    ensures IsPermutation(p, n) && forall i :: 0 <= i < n ==> p[i] == i
  {
    var p: seq<nat> := seq(n, i requires 0 <= i => i);
    assert forall v :: 0 <= v < n ==> p[v] == v;
    assert forall v :: 0 <= v < n ==> v in p by {
      forall v | 0 <= v < n
        ensures v in p
      {
        assert p[v] == v;
      }
    }
    p
  }

  /** The ways `Banded::from` can fail: a structure that is not square and
      symmetric (the `assert_eq!`s), an empty one (`expect`), and, as
      written, one whose graph the single sweep does not cover (the index
      `mapping[j]` past the end of `mapping`). */
  datatype StructureError = NotSquareSymmetric | Empty | Disconnected

  /** `Banded::from` as written: one breadth-first sweep from the first
      vertex of least degree. An isolated vertex in a structure of two or
      more vertices makes the sweep stop short, and the bandwidth loop then
      indexes past the end of `mapping`. */
  method BandedFromAsWritten(s: seq<seq<bool>>) returns (r: Result<Banded, StructureError>)
    ensures r == Err(NotSquareSymmetric) <==> !IsSymmetricStructure(s)
    ensures r == Err(Empty) <==> IsSymmetricStructure(s) && |s| == 0
    ensures r.Ok? <==> IsSymmetricStructure(s) && |s| > 0 && Connected(s)
    ensures r == Err(Disconnected) <==> IsSymmetricStructure(s) && |s| > 0 && !Connected(s)
    ensures r.Ok? ==> r.value.mapping == Reverse(CuthillMcKee(s))
    ensures r.Ok? ==> r.value.Valid(|s|) && IsBandwidth(s, r.value.mapping, r.value.bandwidth)
    ensures r.Ok? ==>
      var last := r.value.mapping[|s| - 1];
      forall v :: 0 <= v < |s| ==> |Neighbors(s, last)| <= |Neighbors(s, v)|
    ensures (IsSymmetricStructure(s) && |s| >= 2
             && exists v :: 0 <= v < |s| && |Neighbors(s, v)| == 0) ==> r == Err(Disconnected)
  {
    var ok := CheckStructure(s);
    if !ok {
      return Err(NotSquareSymmetric);
    }
    var num := |s|;
    var adj := AdjacencyLists(s);
    var start := FirstMinDegree(adj, NoneVisited(num), num);
    if start.None? {
      return Err(Empty);
    }
    LeastDegree(s, adj, start.value);
    var order := SweepOnce(adj, start.value);
    assert order == CuthillMcKee(s) by {
      assert start.value == StartVertex(s);
    }
    ConnectedIffCovered(s);
    if |order| < num {
      assert !Connected(s);
      return Err(Disconnected);
    }
    assert Connected(s);
    var b := Relabel(s, order);
    r := Ok(b);
  }

  /** The start vertex has the fewest neighbours, so none when some vertex
      has none. */
  lemma LeastDegree(s: seq<seq<bool>>, adj: seq<seq<nat>>, start: nat)
    requires IsStructure(s) && |adj| == |s| && forall i :: 0 <= i < |s| ==> adj[i] == Neighbors(s, i)
    requires FirstMinDegree(adj, NoneVisited(|s|), |s|) == Some(start)
    ensures forall v :: 0 <= v < |s| ==> |Neighbors(s, start)| <= |Neighbors(s, v)|
    ensures (exists v :: 0 <= v < |s| && |Neighbors(s, v)| == 0) ==> |adj[start]| == 0
  {
    forall v | 0 <= v < |s|
      ensures |Neighbors(s, start)| <= |Neighbors(s, v)|
    {
      assert adj[start] == Neighbors(s, start) && adj[v] == Neighbors(s, v);
    }
  }

  /** `Banded::from` with the sweep restarted from the least-connected
      unvisited vertex until every vertex is labelled, so that any square
      symmetric structure with at least one row is accepted. */
  method BandedFrom(s: seq<seq<bool>>) returns (r: Result<Banded, StructureError>)
    ensures r == Err(NotSquareSymmetric) <==> !IsSymmetricStructure(s)
    ensures r == Err(Empty) <==> IsSymmetricStructure(s) && |s| == 0
    ensures r.Ok? <==> IsSymmetricStructure(s) && |s| > 0
    ensures r.Ok? ==> r.value.mapping == Reverse(RestartedCuthillMcKee(s))
    ensures r.Ok? && Connected(s) ==> r.value.mapping == Reverse(CuthillMcKee(s))
    ensures r.Ok? ==> r.value.Valid(|s|) && IsBandwidth(s, r.value.mapping, r.value.bandwidth)
    ensures r.Ok? ==>
      var last := r.value.mapping[|s| - 1];
      forall v :: 0 <= v < |s| ==> |Neighbors(s, last)| <= |Neighbors(s, v)|
  {
    var ok := CheckStructure(s);
    if !ok {
      return Err(NotSquareSymmetric);
    }
    var num := |s|;
    var adj := AdjacencyLists(s);
    var start := FirstMinDegree(adj, NoneVisited(num), num);
    if start.None? {
      return Err(Empty);
    }
    var order := SweepAll(adj, start.value);
    if Connected(s) {
      RestartConnected(s);
    }
    var b := Relabel(s, order);
    assert b.mapping[num - 1] == order[0];
    r := Ok(b);
  }

  /** A single sweep from `start` over the unvisited structure. */
  method SweepOnce(adj: seq<seq<nat>>, start: nat) returns (order: seq<nat>)
    requires IsAdjacency(adj) && start < |adj|
    ensures order == BreadthFirst(adj, NoneVisited(|adj|), start)
    ensures 0 < |order| <= |adj| && order[0] == start
    ensures |order| == |adj| <==> forall v :: 0 <= v < |adj| ==> v in order
    ensures |order| == |adj| ==> IsPermutation(order, |adj|)
    ensures |adj[start]| == 0 ==> order == [start]
  {
    var none := NoneVisited(|adj|);
    CountTrueZero(none);
    assert SweepState(|adj|, none, [], []);
    var visited;
    visited, order := Sweep(adj, none, [], start);
    CoveredIffFull(visited, order, |adj|);
  }

  /** A finished sweep state lists every vertex exactly when it is full. */
  lemma {:induction false} CoveredIffFull(visited: seq<bool>, order: seq<nat>, n: nat)
    requires SweepState(n, visited, order, [])
    ensures |order| <= n
    ensures |order| == n <==> forall v :: 0 <= v < n ==> v in order
    ensures |order| == n ==> IsPermutation(order, n)
  {
    assert order + [] == order;
    CountTrueBound(visited);
    if |order| == n {
      Covered(visited, order, n);
    }
  }

  /** Sweeps again from the least-connected unvisited vertex while one is
      left; the first sweep starts from `start`. */
  method SweepAll(adj: seq<seq<nat>>, start: nat) returns (order: seq<nat>)
    requires IsAdjacency(adj) && start < |adj|
    requires FirstMinDegree(adj, NoneVisited(|adj|), |adj|) == Some(start)
    ensures order == Sweeps(adj, NoneVisited(|adj|))
    ensures IsPermutation(order, |adj|) && order[0] == start
  {
    var num := |adj|;
    var visited := NoneVisited(num);
    CountTrueZero(visited);
    order := [];
    assert order + [] == order;
    var next := Some(start);
    while next.Some?
      invariant SweepState(num, visited, order, [])
      invariant next == FirstMinDegree(adj, visited, num)
      invariant order + Sweeps(adj, visited) == Sweeps(adj, NoneVisited(num))
      invariant |order| > 0 ==> order[0] == start
      invariant |order| == 0 ==> next == Some(start)
      decreases num - |order|
    {
      CountTrueBound(visited);
      var order0, visited0 := order, visited;
      visited, order := Sweep(adj, visited, order, next.value);
      assert |order0| > 0 ==> order[0] == order0[0];
      SweepsUnfold(adj, visited0, order0, next.value);
      next := FirstMinDegree(adj, visited, num);
    }
    assert order + [] == order;
    CountTrueBound(visited);
    Covered(visited, order, num);
  }

  /** One restart: the sweep from the chosen vertex, then the rest. */
  lemma {:induction false} SweepsUnfold(adj: seq<seq<nat>>, visited: seq<bool>, done: seq<nat>, start: nat)
    requires IsAdjacency(adj) && |visited| == |adj| && FirstMinDegree(adj, visited, |adj|) == Some(start)
    ensures done + Sweeps(adj, visited)
      == (done + BreadthFirst(adj, visited, start)) + Sweeps(adj, MarkAll(visited, BreadthFirst(adj, visited, start)))
  {
  }

  /** Once every vertex has been visited, the visiting order is a
      permutation. */
  lemma Covered(visited: seq<bool>, order: seq<nat>, n: nat)
    requires SweepState(n, visited, order, []) && CountTrue(visited) == n
    ensures IsPermutation(order, n)
  {
    assert order + [] == order;
    CountTrueBound(visited);
    forall v | 0 <= v < n
      ensures v in order
    {
      assert visited[v];
    }
  }

  lemma {:induction false} CountTrueZero(flags: seq<bool>)
    requires forall i :: 0 <= i < |flags| ==> !flags[i]
    ensures CountTrue(flags) == 0
  {
    if |flags| > 0 {
      CountTrueZero(flags[..|flags| - 1]);
    }
  }

  /** The structure `[[true, false], [false, true]]` (two unconnected
      vertices) is square and symmetric, yet the source's single sweep
      rejects it while the restarted sweep labels both vertices. */
  method DisconnectedStructureCounterexample() returns (asWritten: Result<Banded, StructureError>, corrected: Result<Banded, StructureError>)
    ensures asWritten == Err(Disconnected)
    ensures corrected.Ok? && corrected.value.Valid(2)
  {
    var s := [[true, false], [false, true]];
    assert IsSymmetricStructure(s);
    assert Neighbors(s, 0) == [] by {
      assert NeighborsBelow(s, 0, 1) == [];
    }
    asWritten := BandedFromAsWritten(s);
    corrected := BandedFrom(s);
  }

  // ---------------------------------------------------------------------
  // The pivoted LU solve

  datatype SquareMatrixError = Singular

  /** `sum_{lo <= c < hi} row[c] * v[c]`. */
  function RowDot(row: seq<real>, v: seq<real>, lo: nat, hi: nat): real
    requires hi <= |row| && hi <= |v|
    decreases hi - lo
  {
    if lo >= hi then 0.0 else row[lo] * v[lo] + RowDot(row, v, lo + 1, hi)
  }

  /** `RowDot` reads only the entries `lo..hi` of `v`. */
  lemma {:induction false} RowDotFrame(row: seq<real>, v: seq<real>, w: seq<real>, lo: nat, hi: nat)
    requires hi <= |row| && hi <= |v| && hi <= |w|
    requires forall c :: lo <= c < hi ==> v[c] == w[c]
    ensures RowDot(row, v, lo, hi) == RowDot(row, w, lo, hi)
    decreases hi - lo
  {
    if lo < hi {
      RowDotFrame(row, v, w, lo + 1, hi);
    }
  }

  /** `L·v` for the unit lower-triangular factor stored below the diagonal
      of `lu`. */
  function LowerTimes(lu: Matrix, v: seq<real>): (r: seq<real>)
    requires IsSquare(lu, |lu|) && |v| == |lu|
    ensures |r| == |lu|
  {
    seq(|lu|, i requires 0 <= i < |lu| => v[i] + RowDot(lu[i], v, 0, i))
  }

  /** `U·v` for the upper-triangular factor stored on and above the
      diagonal of `lu`. */
  function UpperTimes(lu: Matrix, v: seq<real>): (r: seq<real>)
    requires IsSquare(lu, |lu|) && |v| == |lu|
    ensures |r| == |lu|
  {
    seq(|lu|, i requires 0 <= i < |lu| => RowDot(lu[i], v, i, |lu|))
  }

  /** `p.into_iter().map(|p_i| b[p_i])`. */
  function Permute(b: seq<real>, p: seq<nat>): (r: seq<real>)
    requires forall i :: 0 <= i < |p| ==> p[i] < |b|
    ensures |r| == |p| && forall i :: 0 <= i < |p| ==> r[i] == b[p[i]]
  {
    seq(|p|, i requires 0 <= i < |p| => b[p[i]])
  }

  /** `A·v`. */
  function MatVec(a: Matrix, v: seq<real>): (r: seq<real>)
    requires IsSquare(a, |a|) && |v| == |a|
    ensures |r| == |a|
  {
    seq(|a|, i requires 0 <= i < |a| => RowDot(a[i], v, 0, |a|))
  }

  /** The product `L·(U·v)` of the two factors held in `m` after `i`
      elimination steps: row `r` holds multipliers in its columns before
      `min(r, i)`, which act on the finished rows of `U·v`, and its upper
      or still active part from there on, which acts on `v`. With no step
      taken this is `m·v`; after all of them it is `L·(U·v)`. */
  function Staged(m: Matrix, v: seq<real>, i: nat): (r: seq<real>)
    requires IsSquare(m, |m|) && |v| == |m| && i <= |m|
    ensures |r| == |m|
  {
    seq(|m|, r requires 0 <= r < |m| => StagedAt(m, v, i, r))
  }

  /** Row `r` of `Staged(m, v, i)`. */
  function StagedAt(m: Matrix, v: seq<real>, i: nat, r: nat): real
    requires IsSquare(m, |m|) && |v| == |m| && i <= |m| && r < |m|
  {
    var d := if r < i then r else i;
    RowDot(m[r], UpperTimes(m, v), 0, d) + RowDot(m[r], v, d, |m|)
  }

  /** The first `i` steps of the pivoted factorisation of `a` held in `m`
      are exact: `L·U = P·A` as maps of vectors, where row `k` of `P·A` is
      row `p[k]` of `a`. */
  ghost predicate FactoredUpTo(m: Matrix, a: Matrix, p: seq<nat>, i: nat)
    requires IsSquare(m, |m|) && IsSquare(a, |a|) && |a| == |m| && i <= |m|
    requires |p| == |m| && forall k :: 0 <= k < |p| ==> p[k] < |m|
  {
    forall v, r :: |v| == |m| && 0 <= r < |m| ==> StagedAt(m, v, i, r) == RowDot(a[p[r]], v, 0, |m|)
  }

  /** `FactoredUpTo` as an equation of vectors. */
  lemma {:induction false} FactoredProduct(m: Matrix, a: Matrix, p: seq<nat>, i: nat, v: seq<real>)
    requires IsSquare(m, |m|) && IsSquare(a, |a|) && |a| == |m| && i <= |m|
    requires IsPermutation(p, |m|) && FactoredUpTo(m, a, p, i) && |v| == |m|
    ensures Staged(m, v, i) == Permute(MatVec(a, v), p)
  {
  }

  /** Before the first step the factors are `I` and `A`, and `p` is the
      identity. */
  lemma {:induction false} FactoredStart(a: Matrix)
    requires IsSquare(a, |a|)
    ensures FactoredUpTo(a, a, IdentityPermutation(|a|), 0)
  {
  }

  /** After the last step the stored factors multiply to `L·(U·v)`. */
  lemma {:induction false} StagedEnd(m: Matrix, v: seq<real>)
    requires IsSquare(m, |m|) && |v| == |m|
    ensures Staged(m, v, |m|) == LowerTimes(m, UpperTimes(m, v))
  {
  }

  /** Exchanging two rows at or below step `i`, and the same two entries of
      `p`, keeps the factorisation exact. */
  lemma {:induction false} FactoredSwap(m: Matrix, a: Matrix, p: seq<nat>, i: nat, k: nat)
    requires IsSquare(m, |m|) && IsSquare(a, |a|) && |a| == |m| && i <= k < |m|
    requires IsPermutation(p, |m|) && FactoredUpTo(m, a, p, i)
    ensures FactoredUpTo(Swap(m, i, k), a, Swap(p, i, k), i)
  {
    var n := |m|;
    var m' := Swap(m, i, k);
    var p' := Swap(p, i, k);
    forall v, r | |v| == n && 0 <= r < n
      ensures StagedAt(m', v, i, r) == RowDot(a[p'[r]], v, 0, n)
    {
      var w := UpperTimes(m, v);
      var w' := UpperTimes(m', v);
      assert forall c :: 0 <= c < i ==> w'[c] == w[c] by {
        assert forall c :: 0 <= c < i ==> m'[c] == m[c];
      }
      var q := if r == i then k else if r == k then i else r;
      assert m'[r] == m[q] && p'[r] == p[q];
      var d := if r < i then r else i;
      RowDotFrame(m[q], w', w, 0, d);
      assert StagedAt(m', v, i, r) == StagedAt(m, v, i, q);
    }
  }

  /** `RowDot` reads only the entries `lo..hi` of `row`. */
  lemma {:induction false} RowDotRows(x: seq<real>, x': seq<real>, v: seq<real>, lo: nat, hi: nat)
    requires hi <= |x| && hi <= |x'| && hi <= |v|
    requires forall c :: lo <= c < hi ==> x[c] == x'[c]
    ensures RowDot(x, v, lo, hi) == RowDot(x', v, lo, hi)
    decreases hi - lo
  {
    if lo < hi {
      RowDotRows(x, x', v, lo + 1, hi);
    }
  }

  /** Splitting off the last term of `RowDot`. */
  lemma {:induction false} RowDotLast(x: seq<real>, v: seq<real>, lo: nat, hi: nat)
    requires lo <= hi < |x| && hi < |v|
    ensures RowDot(x, v, lo, hi + 1) == RowDot(x, v, lo, hi) + x[hi] * v[hi]
    decreases hi - lo
  {
    if lo < hi {
      RowDotLast(x, v, lo + 1, hi);
    }
  }

  /** `x'[c] = x[c] − f·z[c]` on `lo..hi`. */
  predicate Combination(x': seq<real>, x: seq<real>, z: seq<real>, f: real, lo: nat, hi: nat)
    requires hi <= |x| && hi <= |z| && hi <= |x'|
  {
    forall c :: lo <= c < hi ==> x'[c] == x[c] - f * z[c]
  }

  /** `RowDot` is linear in the row: `x' = x − f·z` gives
      `x'·v = x·v − f·(z·v)`. */
  lemma {:induction false} RowDotCombine(x: seq<real>, z: seq<real>, x': seq<real>, v: seq<real>, f: real, lo: nat, hi: nat)
    requires hi <= |x| && hi <= |z| && hi <= |x'| && hi <= |v|
    requires Combination(x', x, z, f, lo, hi)
    ensures RowDot(x', v, lo, hi) == RowDot(x, v, lo, hi) - f * RowDot(z, v, lo, hi)
    decreases hi - lo
  {
    if lo < hi {
      RowDotCombine(x, z, x', v, f, lo + 1, hi);
      assert x'[lo] * v[lo] == x[lo] * v[lo] - f * (z[lo] * v[lo]);
    }
  }

  /** The rows `m'` left by one elimination step below the pivot `m[i][i]`. */
  predicate EliminatedFrom(m: Matrix, m': Matrix, i: nat)
    requires IsSquare(m, |m|) && i < |m| && m[i][i] != 0.0
  {
    |m'| == |m| && IsSquare(m', |m|)
    && (forall j :: 0 <= j <= i ==> m'[j] == m[j])
    && (forall j, c :: i < j < |m| && 0 <= c < |m| ==> m'[j][c] == EliminatedEntry(m, i, j, c))
  }

  /** One elimination step moves row `j`'s entry in column `i` into the
      lower factor without changing `L·U·v`: the multiplier times the
      pivot row's `U·v` entry replaces what was subtracted. */
  lemma {:induction false} StagedEliminateRow(m: Matrix, m': Matrix, v: seq<real>, i: nat, j: nat)
    requires IsSquare(m, |m|) && i < |m| && m[i][i] != 0.0 && EliminatedFrom(m, m', i)
    requires |v| == |m| && j < |m|
    ensures StagedAt(m', v, i + 1, j) == StagedAt(m, v, i, j)
  {
    UpperTimesAgree(m, m', v, i);
    if j <= i {
      RowDotFrame(m[j], UpperTimes(m', v), UpperTimes(m, v), 0, j);
    } else {
      StagedEliminateBelow(m, m', v, i, j);
    }
  }

  /** `StagedEliminateRow` for a row below the pivot. */
  lemma {:induction false} StagedEliminateBelow(m: Matrix, m': Matrix, v: seq<real>, i: nat, j: nat)
    requires IsSquare(m, |m|) && i < j < |m| && m[i][i] != 0.0 && EliminatedFrom(m, m', i) && |v| == |m|
    requires forall c :: 0 <= c <= i ==> UpperTimes(m', v)[c] == UpperTimes(m, v)[c]
    ensures StagedAt(m', v, i + 1, j) == StagedAt(m, v, i, j)
  {
    var f := Multiplier(m, i, j);
    EliminatedRowShape(m, m', i, j);
    var w' := UpperTimes(m', v);
    var t := RowDot(m[i], v, i + 1, |m|);
    UpperEntry(m', v, i);
    MultiplierCancels(f, m[i][i], v[i], t, m[j][i], w'[i]);
    EliminatedRow(m'[j], m[j], m[i], w', UpperTimes(m, v), v, i, f, m[j][i] * v[i]);
  }

  /** Entry `i` of `U·v` splits off its diagonal term. */
  lemma {:induction false} UpperEntry(m: Matrix, v: seq<real>, i: nat)
    requires IsSquare(m, |m|) && |v| == |m| && i < |m|
    ensures UpperTimes(m, v)[i] == m[i][i] * v[i] + RowDot(m[i], v, i + 1, |m|)
  {
  }

  /** Row `j` below the pivot after the step, entry by entry. */
  lemma {:induction false} EliminatedRowShape(m: Matrix, m': Matrix, i: nat, j: nat)
    requires IsSquare(m, |m|) && i < j < |m| && m[i][i] != 0.0 && EliminatedFrom(m, m', i)
    ensures Multiplier(m, i, j) * m[i][i] == m[j][i] && m'[j][i] == Multiplier(m, i, j)
    ensures forall c :: 0 <= c < i ==> m'[j][c] == m[j][c]
    ensures Combination(m'[j], m[j], m[i], Multiplier(m, i, j), i + 1, |m|)
  {
    TimesQuotient(m[j][i], m[i][i], Multiplier(m, i, j));
    assert forall c :: 0 <= c < |m| ==> m'[j][c] == EliminatedEntry(m, i, j, c);
  }

  /** The rows `0..i` agree, so the entries `0..i` of `U·v` agree. */
  lemma {:induction false} UpperTimesAgree(m: Matrix, m': Matrix, v: seq<real>, i: nat)
    requires IsSquare(m, |m|) && IsSquare(m', |m|) && |m'| == |m| && |v| == |m| && i < |m|
    requires forall j :: 0 <= j <= i ==> m'[j] == m[j]
    ensures forall c :: 0 <= c <= i ==> UpperTimes(m', v)[c] == UpperTimes(m, v)[c]
  {
  }

  /** A row `x` below the pivot row `z`, after the step: `x'` holds the
      multiplier `f` in column `i` and `x − f·z` after it. The new lower
      part gains `f·w'[i]`, the new upper part loses `f·(z·v)` after `i`,
      and their difference `e` is the term `x[i]·v[i]` that left the
      active part. */
  lemma {:induction false} EliminatedRow(x': seq<real>, x: seq<real>, z: seq<real>, w': seq<real>, w: seq<real>, v: seq<real>, i: nat, f: real, e: real)
    requires |x'| == |x| == |z| == |w'| == |w| == |v| && i < |x|
    requires forall c :: 0 <= c < i ==> w'[c] == w[c] && x'[c] == x[c]
    requires x'[i] == f && f * w'[i] - f * RowDot(z, v, i + 1, |x|) == e
    requires Combination(x', x, z, f, i + 1, |x|)
    ensures RowDot(x', w', 0, i + 1) + RowDot(x', v, i + 1, |x|) == RowDot(x, w, 0, i) + (e + RowDot(x, v, i + 1, |x|))
  {
    LowerPartBelow(x', x, w', w, i, f);
    RowDotCombine(x, z, x', v, f, i + 1, |x|);
  }

  /** The lower part of a row after the step: the old one plus the new
      multiplier `f` times entry `i` of `U·v`. */
  lemma {:induction false} LowerPartBelow(x': seq<real>, x: seq<real>, w': seq<real>, w: seq<real>, i: nat, f: real)
    requires i < |x'| && i < |x| && i < |w'| && i < |w| && x'[i] == f
    requires forall c :: 0 <= c < i ==> w'[c] == w[c] && x'[c] == x[c]
    ensures RowDot(x', w', 0, i + 1) == RowDot(x, w, 0, i) + f * w'[i]
  {
    RowDotLast(x', w', 0, i);
    RowDotRows(x', x, w', 0, i);
    RowDotFrame(x, w', w, 0, i);
  }

  /** `f·w − f·t = entry·x` when `w = pivot·x + t` and `f·pivot = entry`. */
  lemma {:induction false} MultiplierCancels(f: real, pivot: real, x: real, t: real, entry: real, w: real)
    requires f * pivot == entry && w == pivot * x + t
    ensures f * w - f * t == entry * x
  {
    calc {
      f * w - f * t;
      f * (pivot * x + t) - f * t;
      f * (pivot * x);
      (f * pivot) * x;
    }
  }

  /** One elimination step keeps the factorisation exact, one step on. */
  lemma {:induction false} FactoredEliminate(m: Matrix, m': Matrix, a: Matrix, p: seq<nat>, i: nat)
    requires IsSquare(m, |m|) && IsSquare(a, |a|) && |a| == |m| && i < |m| && m[i][i] != 0.0
    requires EliminatedFrom(m, m', i) && IsPermutation(p, |m|) && FactoredUpTo(m, a, p, i)
    ensures FactoredUpTo(m', a, p, i + 1)
  {
    forall v, j | |v| == |m| && 0 <= j < |m|
      ensures StagedAt(m', v, i + 1, j) == RowDot(a[p[j]], v, 0, |m|)
    {
      StagedEliminateRow(m, m', v, i, j);
    }
  }

  /** The first `i` pivots are at least `ABS_TOL` in magnitude and the
      multipliers stored below them are at most one. */
  predicate Pivoted(m: Matrix, i: nat)
    requires IsSquare(m, |m|) && i <= |m|
  {
    (forall i' :: 0 <= i' < i ==> Abs(m[i'][i']) >= ABS_TOL)
    && (forall j, c :: 0 <= c < i && c < j < |m| ==> Abs(m[j][c]) <= 1.0)
  }

  /** Exchanging two rows at or below step `i` keeps the finished pivots
      and multipliers. */
  lemma {:induction false} PivotedSwap(m: Matrix, i: nat, k: nat)
    requires IsSquare(m, |m|) && i <= k < |m| && Pivoted(m, i)
    ensures Pivoted(Swap(m, i, k), i)
  {
    var m' := Swap(m, i, k);
    forall j, c | 0 <= c < i && c < j < |m|
      ensures Abs(m'[j][c]) <= 1.0
    {
      var q := if j == i then k else if j == k then i else j;
      assert m'[j] == m[q];
    }
  }

  /** An elimination step under a pivot of at least `ABS_TOL` whose
      quotients are at most one adds a finished pivot. */
  lemma {:induction false} PivotedEliminate(m: Matrix, m': Matrix, i: nat)
    requires IsSquare(m, |m|) && i < |m| && Abs(m[i][i]) >= ABS_TOL && Pivoted(m, i)
    requires EliminatedFrom(m, m', i)
    requires forall j :: i < j < |m| ==> Abs(m[j][i] / m[i][i]) <= 1.0
    ensures Pivoted(m', i + 1)
  {
    forall j, c | 0 <= c < i + 1 && c < j < |m|
      ensures Abs(m'[j][c]) <= 1.0
    {
      assert m'[j][c] == EliminatedEntry(m, i, j, c);
    }
  }

  /** Where `solve_lu` gives up: the first `k` steps are exact and
      finished, and no entry of the active column `k` reaches `ABS_TOL`. */
  ghost predicate StoppedAt(m: Matrix, a: Matrix, p: seq<nat>, k: nat)
    requires IsSquare(m, |m|) && IsSquare(a, |a|) && |a| == |m| && IsPermutation(p, |m|)
  {
    k < |m| && FactoredUpTo(m, a, p, k) && Pivoted(m, k)
    && forall j :: k <= j < |m| ==> Abs(m[j][k]) < ABS_TOL
  }

  /** Permuting by a permutation loses nothing: equal permuted vectors
      are equal. */
  lemma {:induction false} PermuteInjective(u: seq<real>, b: seq<real>, p: seq<nat>)
    requires IsPermutation(p, |u|) && |b| >= |u| && Permute(u, p) == Permute(b, p)
    ensures u == b[..|u|]
  {
    forall o | 0 <= o < |u|
      ensures u[o] == b[o]
    {
      assert o in p;
      var j :| 0 <= j < |p| && p[j] == o;
      assert Permute(u, p)[j] == Permute(b, p)[j];
    }
  }

  /** The partial-pivot search: the first row at or below `i` whose entry
      in column `i` has the largest magnitude (`track` is replaced only by
      a strictly larger one). */
  method PivotRow(m: Matrix, i: nat) returns (k: nat)
    requires IsSquare(m, |m|) && i < |m|
    ensures i <= k < |m|
    ensures forall j :: i <= j < |m| ==> Abs(m[j][i]) <= Abs(m[k][i])
    ensures forall j :: i <= j < k ==> Abs(m[j][i]) < Abs(m[k][i])
  {
    k := i;
    var track := Abs(m[k][i]);
    for j := i + 1 to |m|
      invariant i <= k < j && track == Abs(m[k][i])
      invariant forall j' :: i <= j' < j ==> Abs(m[j'][i]) <= track
      invariant forall j' :: i <= j' < k ==> Abs(m[j'][i]) < track
    {
      if Abs(m[j][i]) > track {
        k := j;
        track := Abs(m[k][i]);
      }
    }
  }

  /** `v` with entries `i` and `k` exchanged (`swap`). */
  function Swap<T>(v: seq<T>, i: nat, k: nat): (r: seq<T>)
    requires i < |v| && k < |v|
    ensures |r| == |v| && r[i] == v[k] && r[k] == v[i]
    ensures forall j :: 0 <= j < |v| && j != i && j != k ==> r[j] == v[j]
  {
    v[i := v[k]][k := v[i]]
  }

  lemma SwapPermutation(p: seq<nat>, i: nat, k: nat)
    requires IsPermutation(p, |p|) && i < |p| && k < |p|
    ensures IsPermutation(Swap(p, i, k), |p|)
  {
    var r := Swap(p, i, k);
    forall v | 0 <= v < |p|
      ensures v in r
    {
      assert v in p;
      var j :| 0 <= j < |p| && p[j] == v;
      if j == i {
        assert r[k] == v;
      } else if j == k {
        assert r[i] == v;
      } else {
        assert r[j] == v;
      }
    }
  }

  /** A quotient by an entry of at least the numerator's magnitude has
      magnitude at most one. */
  lemma QuotientBound(x: real, d: real)
    requires d != 0.0 && Abs(x) <= Abs(d)
    ensures Abs(x / d) <= 1.0
  {
    var q := x / d;
    assert q * d == x;
    AbsOfProduct(q, d);
    FactorAtMostOne(Abs(q), Abs(d), Abs(x));
  }

  /** The magnitude of a product is the product of the magnitudes. */
  lemma AbsOfProduct(u: real, v: real)
    ensures Abs(u * v) == Abs(u) * Abs(v)
  {
  }

  /** `t · e ≤ e` with `e` positive bounds `t` by one. */
  lemma FactorAtMostOne(t: real, e: real, y: real)
    requires e > 0.0 && t * e == y && y <= e
    ensures t <= 1.0
  {
  }

  /** `self[j][i] /= pivot`: the multiplier of row `i` removed from row `j`. */
  function Multiplier(m: Matrix, i: nat, j: nat): real
    requires IsSquare(m, |m|) && i < |m| && j < |m| && m[i][i] != 0.0
  {
    m[j][i] / m[i][i]
  }

  /** Row `j` after the elimination step below the pivot `m[i][i]`. */
  function EliminatedEntry(m: Matrix, i: nat, j: nat, c: nat): real
    requires IsSquare(m, |m|) && i < |m| && j < |m| && c < |m| && m[i][i] != 0.0
  {
    if c < i then m[j][c]
    else if c == i then Multiplier(m, i, j)
    else m[j][c] - Multiplier(m, i, j) * m[i][c]
  }

  /** One elimination step below the pivot `m[i][i]`: each later row keeps
      its multiplier in column `i` and has that multiple of row `i`
      subtracted from its columns after `i`. */
  method Eliminate(m: Matrix, i: nat) returns (m': Matrix)
    requires IsSquare(m, |m|) && i < |m| && m[i][i] != 0.0
    ensures |m'| == |m| && IsSquare(m', |m|)
    ensures forall j :: 0 <= j <= i ==> m'[j] == m[j]
    ensures forall j, c :: i < j < |m| && 0 <= c < |m| ==> m'[j][c] == EliminatedEntry(m, i, j, c)
  {
    var n := |m|;
    var pivot := m[i][i];
    m' := m;
    for j := i + 1 to n
      invariant |m'| == n && IsSquare(m', n)
      invariant forall j' :: 0 <= j' < n && (j' <= i || j <= j') ==> m'[j'] == m[j']
      invariant forall j', c :: i < j' < j && 0 <= c < n ==> m'[j'][c] == EliminatedEntry(m, i, j', c)
    {
      var row := m'[j];
      row := row[i := row[i] / pivot];
      var factor := row[i];
      assert factor == Multiplier(m, i, j);
      for k := i + 1 to n
        invariant |row| == n && row[i] == factor
        invariant forall c :: 0 <= c < k ==> row[c] == EliminatedEntry(m, i, j, c)
        invariant forall c :: k <= c < n ==> row[c] == m[j][c]
      {
        row := row[k := row[k] - factor * m'[i][k]];
      }
      m' := m'[j := row];
    }
  }

  /** The forward substitution: `xy[i] -= sum_{j < i} lu[i][j] * xy[j]`,
      which solves `L·y = pb`. */
  method ForwardSubstitute(lu: Matrix, pb: seq<real>) returns (y: seq<real>)
    requires IsSquare(lu, |lu|) && |pb| == |lu|
    ensures |y| == |lu| && LowerTimes(lu, y) == pb
  {
    var n := |lu|;
    y := pb;
    for i := 0 to n
      invariant |y| == n
      invariant forall i' :: 0 <= i' < i ==> y[i'] + RowDot(lu[i'], y, 0, i') == pb[i']
      invariant forall i' :: i <= i' < n ==> y[i'] == pb[i']
    {
      var y0 := y;
      y := y[i := y[i] - RowDot(lu[i], y, 0, i)];
      forall i' | 0 <= i' <= i
        ensures RowDot(lu[i'], y, 0, i') == RowDot(lu[i'], y0, 0, i')
      {
        RowDotFrame(lu[i'], y, y0, 0, i');
      }
    }
  }

  /** The backward substitution: `xy[i] = (xy[i] - sum_{j > i} lu[i][j] *
      xy[j]) / lu[i][i]` from the last row up, which solves `U·x = y`. */
  method BackSubstitute(lu: Matrix, y: seq<real>) returns (x: seq<real>)
    requires IsSquare(lu, |lu|) && |y| == |lu|
    requires forall i :: 0 <= i < |lu| ==> lu[i][i] != 0.0
    ensures |x| == |lu| && UpperTimes(lu, x) == y
  {
    var n := |lu|;
    x := y;
    var i := n;
    while i > 0
      invariant 0 <= i <= n && |x| == n
      invariant forall i' :: i <= i' < n ==> RowDot(lu[i'], x, i', n) == y[i']
      invariant forall i' :: 0 <= i' < i ==> x[i'] == y[i']
    {
      i := i - 1;
      var x0 := x;
      var s := RowDot(lu[i], x, i + 1, n);
      var xi := (x[i] - s) / lu[i][i];
      TimesQuotient(x[i] - s, lu[i][i], xi);
      x := x[i := xi];
      RowDotFrame(lu[i], x, x0, i + 1, n);
      assert RowDot(lu[i], x, i, n) == lu[i][i] * xi + RowDot(lu[i], x, i + 1, n);
      forall i' | i < i' < n
        ensures RowDot(lu[i'], x, i', n) == RowDot(lu[i'], x0, i', n)
      {
        RowDotFrame(lu[i'], x, x0, i', n);
      }
    }
  }

  /** One pass of the elimination loop of `solve_lu` at column `i`: the
      row with the largest entry in column `i` is swapped into place (and
      so are the entries of `p`); a pivot below `ABS_TOL` stops the loop,
      and otherwise the rows below are eliminated. Either way the
      factorisation of `a` stays exact. */
  method PivotStep(ghost a: Matrix, m: Matrix, p: seq<nat>, i: nat)
    returns (m': Matrix, p': seq<nat>, stop: bool)
    requires IsSquare(m, |m|) && IsSquare(a, |a|) && |a| == |m| && i < |m| && IsPermutation(p, |m|)
    requires FactoredUpTo(m, a, p, i) && Pivoted(m, i)
    ensures |m'| == |m| && IsSquare(m', |m|) && IsPermutation(p', |m|)
    ensures stop ==> StoppedAt(m', a, p', i)
    ensures !stop ==> FactoredUpTo(m', a, p', i + 1) && Pivoted(m', i + 1)
  {
    m', p' := m, p;
    var maxRow := PivotRow(m, i);
    if maxRow != i {
      FactoredSwap(m, a, p, i, maxRow);
      PivotedSwap(m, i, maxRow);
      m' := Swap(m, i, maxRow);
      SwapPermutation(p, i, maxRow);
      p' := Swap(p, i, maxRow);
    }
    assert forall j :: i <= j < |m| ==> Abs(m'[j][i]) <= Abs(m'[i][i]) by {
      forall j | i <= j < |m|
        ensures Abs(m'[j][i]) <= Abs(m'[i][i])
      {
        var q := if j == i then maxRow else if j == maxRow then i else j;
        assert m'[j] == m[q];
      }
    }
    var pivot := m'[i][i];
    if Abs(pivot) < ABS_TOL {
      return m', p', true;
    }
    forall j | i < j < |m|
      ensures Abs(m'[j][i] / pivot) <= 1.0
    {
      QuotientBound(m'[j][i], pivot);
    }
    var m'' := Eliminate(m', i);
    FactoredEliminate(m', m'', a, p', i);
    PivotedEliminate(m', m'', i);
    m' := m'';
    stop := false;
  }

  /** A dense square matrix whose rows `solve_lu` overwrites in place. */
  class SquareMatrix {
    var rows: Matrix

    constructor(rows: Matrix)
      ensures this.rows == rows
    {
      this.rows := rows;
    }

    /** The elimination loop of `solve_lu`: for each column, the pivot row
        is swapped into place, a pivot below `ABS_TOL` ends the loop, and
        the rows below are eliminated. `p` records the row swaps, and the
        rows left behind hold `L` and `U` with `L·U = P·A` for the input
        `A`, or, when the loop ends early at step `k`, the first `k` steps
        of that factorisation and an active column below `ABS_TOL`. */
    method Factorize() returns (p: seq<nat>, singular: bool)
      modifies this
      requires IsSquare(rows, |rows|)
      ensures |rows| == old(|rows|) && IsSquare(rows, |rows|) && IsPermutation(p, |rows|)
      ensures !singular ==> FactoredUpTo(rows, old(rows), p, |rows|)
      ensures !singular ==> forall i :: 0 <= i < |rows| ==> Abs(rows[i][i]) >= ABS_TOL
      ensures !singular ==> forall j, c :: 0 <= c < j < |rows| ==> Abs(rows[j][c]) <= 1.0
      ensures singular ==> exists k :: StoppedAt(rows, old(rows), p, k)
    {
      var n := |rows|;
      ghost var a := rows;
      p := IdentityPermutation(n);
      FactoredStart(a);
      for i := 0 to n
        invariant |rows| == n && IsSquare(rows, n) && IsPermutation(p, n)
        invariant FactoredUpTo(rows, a, p, i) && Pivoted(rows, i)
      {
        var stop;
        rows, p, stop := PivotStep(a, rows, p, i);
        if stop {
          return p, true;
        }
      }
      singular := false;
    }

    /** `solve_lu`: LU factorisation with partial pivoting, stored in
        place, then forward and backward substitution of the permuted
        right-hand side. A solution solves the input system; a failure
        comes with an exact partial factorisation whose active column is
        below `ABS_TOL`. */
    method SolveLu(b: seq<real>) returns (r: Result<seq<real>, SquareMatrixError>)
      modifies this
      requires IsSquare(rows, |rows|) && |b| >= |rows|
      ensures |rows| == old(|rows|) && IsSquare(rows, |rows|)
      ensures r.Ok? ==> |r.value| == |rows| && MatVec(old(rows), r.value) == b[..|rows|]
      ensures r.Err? ==> exists p, k :: IsPermutation(p, |rows|) && StoppedAt(rows, old(rows), p, k)
      ensures r.Err? ==> exists i :: 0 <= i < |rows| && Abs(rows[i][i]) < ABS_TOL
      ensures r.Ok? ==> forall i :: 0 <= i < |rows| ==> Abs(rows[i][i]) >= ABS_TOL
      ensures r.Ok? ==> forall j, c :: 0 <= c < j < |rows| ==> Abs(rows[j][c]) <= 1.0
      ensures r.Ok? ==> exists p :: IsPermutation(p, |rows|) && FactoredUpTo(rows, old(rows), p, |rows|)
                                   && LowerTimes(rows, UpperTimes(rows, r.value)) == Permute(b, p)
    {
      var p, singular := Factorize();
      if singular {
        ghost var k: nat :| StoppedAt(rows, old(rows), p, k);
        assert Abs(rows[k][k]) < ABS_TOL;
        return Err(Singular);
      }
      var pb := Permute(b, p);
      var y := ForwardSubstitute(rows, pb);
      var x := BackSubstitute(rows, y);
      StagedEnd(rows, x);
      FactoredProduct(rows, old(rows), p, |rows|, x);
      PermuteInjective(MatVec(old(rows), x), b, p);
      return Ok(x);
    }
  }
}
