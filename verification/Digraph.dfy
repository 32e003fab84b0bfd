/** Directed graphs as sets of node pairs: walks, reachability, the descendants
    closure and shortest paths that `app/analysis/graph.py` takes from networkx. */
module Digraph {
  import opened Ordering

  ghost predicate Walk<T>(edges: set<(T, T)>, p: seq<T>) {
    && p != []
    && forall i :: 0 <= i < |p| - 1 ==> (p[i], p[i + 1]) in edges
  }

  /** `p` lists the nodes of a walk from `u` to `v`. */
  ghost predicate WalkFromTo<T>(edges: set<(T, T)>, p: seq<T>, u: T, v: T) {
    Walk(edges, p) && p[0] == u && p[|p| - 1] == v
  }

  ghost predicate Reaches<T(!new)>(edges: set<(T, T)>, u: T, v: T) {
    exists p :: WalkFromTo(edges, p, u, v)
  }

  /** A set that no edge leaves. */
  ghost predicate Closed<T(!new)>(edges: set<(T, T)>, s: set<T>) {
    forall u, v :: (u, v) in edges && u in s ==> v in s
  }

  lemma ReachesSelf<T(!new)>(edges: set<(T, T)>, u: T)
    ensures Reaches(edges, u, u)
  {
    assert WalkFromTo(edges, [u], u, u);
  }

  lemma WalkStep<T(!new)>(edges: set<(T, T)>, p: seq<T>, u: T, v: T, w: T)
    requires WalkFromTo(edges, p, u, v) && (v, w) in edges
    ensures WalkFromTo(edges, p + [w], u, w)
  {
  }

  lemma ReachesStep<T(!new)>(edges: set<(T, T)>, u: T, v: T, w: T)
    requires Reaches(edges, u, v) && (v, w) in edges
    ensures Reaches(edges, u, w)
  {
    var p :| WalkFromTo(edges, p, u, v);
    WalkStep(edges, p, u, v, w);
  }

  lemma {:induction false} WalkStaysIn<T(!new)>(edges: set<(T, T)>, p: seq<T>, s: set<T>)
    requires Walk(edges, p) && p[0] in s && Closed(edges, s)
    ensures p[|p| - 1] in s
    decreases |p|
  {
    if |p| > 1 {
      var q := p[..|p| - 1];
      WalkStaysIn(edges, q, s);
      assert (p[|p| - 2], p[|p| - 1]) in edges;
    }
  }

  lemma ReachesStaysIn<T(!new)>(edges: set<(T, T)>, u: T, v: T, s: set<T>)
    requires Reaches(edges, u, v) && u in s && Closed(edges, s)
    ensures v in s
  {
    var p :| WalkFromTo(edges, p, u, v);
    WalkStaysIn(edges, p, s);
  }

  lemma ReachesMonotone<T(!new)>(small: set<(T, T)>, large: set<(T, T)>, u: T, v: T)
    requires small <= large && Reaches(small, u, v)
    ensures Reaches(large, u, v)
  {
    var p :| WalkFromTo(small, p, u, v);
    assert WalkFromTo(large, p, u, v);
  }

  /** Without edges out of `u` nothing but `u` is reached from it. */
  lemma ReachesStuck<T(!new)>(edges: set<(T, T)>, u: T, v: T)
    requires Reaches(edges, u, v)
    requires forall w :: (u, w) !in edges
    ensures v == u
  {
    ReachesStaysIn(edges, u, v, {u});
  }

  function Successors<T(==,!new)>(edges: set<(T, T)>, u: T): (r: set<T>)
    ensures forall v :: v in r <==> (u, v) in edges
  {
    set e | e in edges && e.0 == u :: e.1
  }

  ghost function Heads<T>(edges: set<(T, T)>): set<T> {
    set e | e in edges :: e.1
  }

  /** Nodes other than `source` that a walk from `source` reaches. */
  method Descendants<T(!new,==)>(edges: set<(T, T)>, source: T) returns (r: set<T>)
    ensures forall v :: v in r <==> v != source && Reaches(edges, source, v)
  {
    var seen := {source};
    var queue := [source];
    ReachesSelf(edges, source);
    while queue != []
      invariant source in seen
      invariant forall q :: q in queue ==> q in seen
      invariant seen <= Heads(edges) + {source}
      invariant forall v :: v in seen ==> Reaches(edges, source, v)
      invariant forall u, v :: (u, v) in edges && u in seen && u !in queue ==> v in seen
      decreases Heads(edges) + {source} - seen, |queue|
    {
      var u := queue[0];
      var unseen := Successors(edges, u) - seen;
      forall v | v in unseen ensures Reaches(edges, source, v) {
        ReachesStep(edges, source, u, v);
      }
      ghost var before := seen;
      seen := seen + unseen;
      var rest := queue[1..];
      assert forall q :: q in queue ==> q == u || q in rest;
      var todo := unseen;
      while todo != {}
        invariant todo <= unseen
        invariant forall q :: q in rest ==> q in seen
        invariant forall q :: q in queue ==> q == u || q in rest
        invariant forall v :: v in unseen ==> v in todo || v in rest
        invariant unseen == {} ==> rest == queue[1..]
        decreases todo
      {
        var v :| v in todo;
        rest := rest + [v];
        todo := todo - {v};
      }
      if unseen != {} {
        var v :| v in unseen;
        assert v in Heads(edges) by {
          assert (u, v) in edges;
        }
        assert v in Heads(edges) + {source} - before;
        assert Heads(edges) + {source} - seen < Heads(edges) + {source} - before;
      } else {
        assert seen == before;
      }
      queue := rest;
    }
    assert Closed(edges, seen);
    forall v | Reaches(edges, source, v) ensures v in seen {
      ReachesStaysIn(edges, source, v, seen);
    }
    r := seen - {source};
  }

  ghost predicate IsShortest<T(!new)>(edges: set<(T, T)>, p: seq<T>, u: T, v: T) {
    && WalkFromTo(edges, p, u, v)
    && forall q :: WalkFromTo(edges, q, u, v) ==> |p| <= |q|
  }

  /** Every walk of at most `d + 1` nodes ends in a recorded node, with a
      recorded path that is no longer. */
  ghost predicate CoversWalks<T(!new)>(edges: set<(T, T)>, source: T, d: nat, paths: map<T, seq<T>>) {
    forall q, v :: WalkFromTo(edges, q, source, v) && |q| <= d + 1 ==> v in paths && |paths[v]| <= |q|
  }

  ghost predicate RecordsWalks<T(!new)>(edges: set<(T, T)>, source: T, paths: map<T, seq<T>>) {
    forall v :: v in paths ==> WalkFromTo(edges, paths[v], source, v)
  }

  lemma {:induction false} NextLayer<T(!new)>(edges: set<(T, T)>, source: T, d: nat,
                                              paths: map<T, seq<T>>, grown: map<T, seq<T>>)
    requires RecordsWalks(edges, source, paths) && CoversWalks(edges, source, d, paths)
    requires forall v :: v in paths ==> v in grown && grown[v] == paths[v]
    requires forall v :: v in grown ==> |grown[v]| <= d + 2
    requires forall v :: v in paths ==> |paths[v]| <= d + 1
    requires forall u, w :: u in paths && |paths[u]| == d + 1 && (u, w) in edges ==> w in grown
    ensures CoversWalks(edges, source, d + 1, grown)
  {
    forall q, v | WalkFromTo(edges, q, source, v) && |q| <= d + 2
      ensures v in grown && |grown[v]| <= |q|
    {
      if |q| == d + 2 {
        var u := q[d];
        var q' := q[..d + 1];
        assert WalkFromTo(edges, q', source, u);
        assert (u, v) in edges;
        assert u in paths && |paths[u]| <= d + 1;
        if |paths[u]| < d + 1 {
          WalkStep(edges, paths[u], source, u, v);
          assert v in paths && |paths[v]| <= |paths[u] + [v]|;
        }
      }
    }
  }

  lemma {:induction false} NoFrontier<T(!new)>(edges: set<(T, T)>, source: T, d: nat,
                                               paths: map<T, seq<T>>, n: nat)
    requires RecordsWalks(edges, source, paths) && CoversWalks(edges, source, d, paths)
    requires forall v :: v in paths ==> |paths[v]| < d + 1
    ensures CoversWalks(edges, source, d + n, paths)
    decreases n
  {
    if n > 0 {
      NextLayer(edges, source, d, paths, paths);
      NoFrontier(edges, source, d + 1, paths, n - 1);
    }
  }

  /** Extends the walks to the frontier by one edge each, to every node that has
      none yet. */
  method GrowLayer<T(!new,==)>(edges: set<(T, T)>, source: T, d: nat, paths: map<T, seq<T>>, frontier: set<T>)
      returns (grown: map<T, seq<T>>, unseen: set<T>)
    requires RecordsWalks(edges, source, paths)
    requires forall v :: v in frontier ==> v in paths && |paths[v]| == d + 1
    ensures unseen !! paths.Keys && unseen <= Heads(edges)
    ensures forall u, w :: u in frontier && (u, w) in edges ==> w in unseen || w in paths
    ensures grown.Keys == paths.Keys + unseen
    ensures forall v :: v in paths ==> grown[v] == paths[v]
    ensures forall v :: v in unseen ==> WalkFromTo(edges, grown[v], source, v) && |grown[v]| == d + 2
  {
    unseen := (set e | e in edges && e.0 in frontier :: e.1) - paths.Keys;
    grown := paths;
    var todo := unseen;
    while todo != {}
      invariant todo <= unseen
      invariant grown.Keys == paths.Keys + (unseen - todo)
      invariant forall v :: v in paths ==> grown[v] == paths[v]
      invariant forall v :: v in unseen - todo ==> WalkFromTo(edges, grown[v], source, v) && |grown[v]| == d + 2
      decreases todo
    {
      var w :| w in todo;
      assert exists e :: e in edges && e.0 in frontier && e.1 == w;
      var e :| e in edges && e.0 in frontier && e.1 == w;
      WalkStep(edges, paths[e.0], source, e.0, w);
      grown := grown[w := paths[e.0] + [w]];
      todo := todo - {w};
    }
    forall u, w | u in frontier && (u, w) in edges ensures w in unseen || w in paths {
      assert (u, w) in edges && (u, w).0 in frontier;
    }
  }

  /** Breadth-first search, layer by layer. */
  method ShortestPath<T(!new,==)>(edges: set<(T, T)>, source: T, target: T) returns (r: Option<seq<T>>)
    ensures r.None? <==> !Reaches(edges, source, target)
    ensures r.Some? ==> IsShortest(edges, r.value, source, target)
  {
    var paths := map[source := [source]];
    var frontier := {source};
    var d := 0;
    assert CoversWalks(edges, source, 0, paths);
    while target !in paths && frontier != {}
      invariant source in paths
      invariant paths.Keys <= Heads(edges) + {source}
      invariant RecordsWalks(edges, source, paths) && CoversWalks(edges, source, d, paths)
      invariant forall v :: v in paths ==> |paths[v]| <= d + 1
      invariant forall v :: v in frontier <==> v in paths && |paths[v]| == d + 1
      invariant target in paths ==> |paths[target]| == d + 1
      decreases Heads(edges) + {source} - paths.Keys, frontier
    {
      var grown, unseen := GrowLayer(edges, source, d, paths, frontier);
      NextLayer(edges, source, d, paths, grown);
      if unseen != {} {
        var w :| w in unseen;
        assert w in grown.Keys && w !in paths.Keys && w in Heads(edges);
        assert Heads(edges) + {source} - grown.Keys < Heads(edges) + {source} - paths.Keys;
      }
      paths, frontier, d := grown, unseen, d + 1;
    }
    if target in paths {
      r := Some(paths[target]);
      assert forall q :: WalkFromTo(edges, q, source, target) && |q| <= d + 1 ==> |paths[target]| <= |q|;
    } else {
      forall q ensures !WalkFromTo(edges, q, source, target) {
        NoFrontier(edges, source, d, paths, |q|);
      }
      r := None;
    }
  }
}
