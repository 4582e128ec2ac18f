/** `Flow._build_dependency_graph`: starting at the start node, walk the
    successor tables and record, for every node met, which nodes it depends on
    (`dependencies`) and which depend on it (`reverse_deps`). The start node
    follows only the edges of the action it returned; every other node met
    follows the edges of all its labels. There is no visited guard: a node
    reached along two paths is expanded twice (with the same effect on the
    sets), and a reachable cycle makes the recursion exceed Python's
    recursion limit and raise `RecursionError`. The model therefore requires
    the expanded part of the graph to be acyclic, witnessed by a rank that
    strictly decreases along every followed edge. */
module DependencyGraph {
  import opened Outcomes
  import opened Wiring

  /** `(a, b)`: `a` must complete before `b`, because `b` is a successor of `a`. */
  type Edge = (Handle, Handle)

  /** The labels `add_dependency` walks: only the given action when it is a
      non-empty string, otherwise every label of the table. */
  function Labels(t: Table, action: Option<string>): set<string>
  {
    if action.Some? && action.value != "" then {action.value} else t.Keys
  }

  /** The nodes listed under any of `labels` (a missing label lists none). */
  function LabelTargets(t: Table, labels: set<string>): set<Handle>
  {
    set l, v | l in labels && l in t && v in t[l] :: v
  }

  /** The successors `add_dependency(node, action)` records for a node. */
  function Out(t: Table, action: Option<string>): set<Handle>
  {
    LabelTargets(t, Labels(t, action))
  }

  /** Node `u`'s successor table; a handle outside the arena has none. */
  function TableOf(g: seq<Table>, u: Handle): Table
  {
    if u < |g| then g[u] else map[]
  }

  /** Every successor of node `u`, under any label. */
  function Successors(g: seq<Table>, u: Handle): set<Handle>
  {
    Out(TableOf(g, u), None)
  }

  /** Acyclicity witness: every successor of a ranked node is ranked strictly
      lower. */
  ghost predicate Ranked(g: seq<Table>, rank: map<Handle, nat>)
  {
    forall u, v :: u in rank && v in Successors(g, u) ==> v in rank && rank[v] < rank[u]
  }

  /** The source's recursion is well-founded: the start node's followed successors
      lie in the ranked (acyclic) part. */
  ghost predicate Explorable(g: seq<Table>, rank: map<Handle, nat>, start: Handle, action: Option<string>)
  {
    Ranked(g, rank) && Out(TableOf(g, start), action) <= rank.Keys
  }

  /** The nodes `add_dependency(u)` registers, all labels followed. */
  ghost function Reach(g: seq<Table>, rank: map<Handle, nat>, u: Handle): set<Handle>
    requires Ranked(g, rank) && u in rank
    decreases rank[u]
  {
    {u} + (set v, w | v in Successors(g, u) && w in Reach(g, rank, v) :: w)
  }

  ghost function EdgesFrom(u: Handle, s: set<Handle>): set<Edge>
  {
    set v | v in s :: (u, v)
  }

  /** The edges `add_dependency(u)` records, all labels followed. */
  ghost function ReachEdges(g: seq<Table>, rank: map<Handle, nat>, u: Handle): set<Edge>
    requires Ranked(g, rank) && u in rank
    decreases rank[u]
  {
    EdgesFrom(u, Successors(g, u)) + (set v, e | v in Successors(g, u) && e in ReachEdges(g, rank, v) :: e)
  }

  ghost function ReachAll(g: seq<Table>, rank: map<Handle, nat>, s: set<Handle>): set<Handle>
    requires Ranked(g, rank) && s <= rank.Keys
  {
    set v, w | v in s && w in Reach(g, rank, v) :: w
  }

  ghost function ReachEdgesAll(g: seq<Table>, rank: map<Handle, nat>, s: set<Handle>): set<Edge>
    requires Ranked(g, rank) && s <= rank.Keys
  {
    set v, e | v in s && e in ReachEdges(g, rank, v) :: e
  }

  /** The key set of both maps after `add_dependency(start, action)`. */
  ghost function GraphNodes(g: seq<Table>, rank: map<Handle, nat>, start: Handle, action: Option<string>): set<Handle>
    requires Explorable(g, rank, start, action)
  {
    {start} + ReachAll(g, rank, Out(TableOf(g, start), action))
  }

  /** The dependency edges after `add_dependency(start, action)`. */
  ghost function GraphEdges(g: seq<Table>, rank: map<Handle, nat>, start: Handle, action: Option<string>): set<Edge>
    requires Explorable(g, rank, start, action)
  {
    EdgesFrom(start, Out(TableOf(g, start), action)) + ReachEdgesAll(g, rank, Out(TableOf(g, start), action))
  }

  /** The successors a node of the graph contributes: the start node those of
      its action, every other node those of all labels. */
  function Expansion(g: seq<Table>, start: Handle, action: Option<string>, u: Handle): set<Handle>
  {
    if u == start then Out(TableOf(g, start), action) else Successors(g, u)
  }

  // ---------------------------------------------------------------------
  // Properties of the reference definitions

  /** One label's targets are among all the targets. */
  lemma OutWithinAll(t: Table, action: Option<string>)
    ensures Out(t, action) <= Out(t, None)
  {
  }

  lemma ReachUnfold(g: seq<Table>, rank: map<Handle, nat>, u: Handle)
    requires Ranked(g, rank) && u in rank
    ensures forall w :: w in Reach(g, rank, u) <==> w == u || exists v :: v in Successors(g, u) && w in Reach(g, rank, v)
    ensures forall e :: e in ReachEdges(g, rank, u) <==>
              e in EdgesFrom(u, Successors(g, u)) || exists v :: v in Successors(g, u) && e in ReachEdges(g, rank, v)
  {
  }

  lemma ReachAllUnfold(g: seq<Table>, rank: map<Handle, nat>, s: set<Handle>)
    requires Ranked(g, rank) && s <= rank.Keys
    ensures forall w :: w in ReachAll(g, rank, s) <==> exists v :: v in s && w in Reach(g, rank, v)
    ensures forall e :: e in ReachEdgesAll(g, rank, s) <==> exists v :: v in s && e in ReachEdges(g, rank, v)
  {
  }

  /** A node registered below `u` other than `u` is registered below one of
      `u`'s successors. */
  lemma ReachVia(g: seq<Table>, rank: map<Handle, nat>, u: Handle, w: Handle) returns (v: Handle)
    requires Ranked(g, rank) && u in rank && w in Reach(g, rank, u) && w != u
    ensures v in Successors(g, u) && v in rank && w in Reach(g, rank, v)
  {
    ReachUnfold(g, rank, u);
    v :| v in Successors(g, u) && v in rank && w in Reach(g, rank, v);
  }

  lemma {:induction false} ReachRanked(g: seq<Table>, rank: map<Handle, nat>, u: Handle)
    requires Ranked(g, rank) && u in rank
    ensures forall w :: w in Reach(g, rank, u) ==> w in rank && rank[w] <= rank[u]
    decreases rank[u]
  {
    ReachUnfold(g, rank, u);
    forall w | w in Reach(g, rank, u)
      ensures w in rank && rank[w] <= rank[u]
    {
      if w != u {
        var v :| v in Successors(g, u) && w in Reach(g, rank, v);
        ReachRanked(g, rank, v);
      }
    }
  }

  /** `Reach(u)` is closed under following every label. */
  lemma {:induction false} ReachClosed(g: seq<Table>, rank: map<Handle, nat>, u: Handle)
    requires Ranked(g, rank) && u in rank
    ensures forall a, b :: a in Reach(g, rank, u) && b in Successors(g, a) ==> b in Reach(g, rank, u)
    decreases rank[u]
  {
    ReachUnfold(g, rank, u);
    forall a, b | a in Reach(g, rank, u) && b in Successors(g, a)
      ensures b in Reach(g, rank, u)
    {
      if a == u {
        ReachUnfold(g, rank, b);
        assert b in Reach(g, rank, b);
      } else {
        var v :| v in Successors(g, u) && a in Reach(g, rank, v);
        ReachClosed(g, rank, v);
      }
    }
  }

  /** The edges recorded below `u` are exactly the out-edges of the nodes
      registered below `u`. */
  lemma {:induction false} ReachEdgesShape(g: seq<Table>, rank: map<Handle, nat>, u: Handle)
    requires Ranked(g, rank) && u in rank
    ensures forall a, b :: (a, b) in ReachEdges(g, rank, u) <==> a in Reach(g, rank, u) && b in Successors(g, a)
    decreases rank[u]
  {
    ReachUnfold(g, rank, u);
    forall a, b | (a, b) in ReachEdges(g, rank, u)
      ensures a in Reach(g, rank, u) && b in Successors(g, a)
    {
      if (a, b) !in EdgesFrom(u, Successors(g, u)) {
        var v :| v in Successors(g, u) && (a, b) in ReachEdges(g, rank, v);
        ReachEdgesShape(g, rank, v);
      }
    }
    forall a, b | a in Reach(g, rank, u) && b in Successors(g, a)
      ensures (a, b) in ReachEdges(g, rank, u)
    {
      if a != u {
        var v := ReachVia(g, rank, u, a);
        ReachEdgesShape(g, rank, v);
      }
    }
  }

  /** Every node registered below `u` other than `u` has a recorded edge into it. */
  lemma {:induction false} ReachHasEntry(g: seq<Table>, rank: map<Handle, nat>, u: Handle, w: Handle)
    requires Ranked(g, rank) && u in rank
    requires w in Reach(g, rank, u) && w != u
    ensures exists a :: (a, w) in ReachEdges(g, rank, u)
    decreases rank[u]
  {
    ReachUnfold(g, rank, u);
    var v :| v in Successors(g, u) && w in Reach(g, rank, v);
    if w == v {
      assert (u, w) in EdgesFrom(u, Successors(g, u));
    } else {
      ReachHasEntry(g, rank, v, w);
      var a :| (a, w) in ReachEdges(g, rank, v);
      assert (a, w) in ReachEdges(g, rank, u);
    }
  }

  /** Because the followed part is acyclic, the start node is never met again. */
  lemma StartNotRevisited(g: seq<Table>, rank: map<Handle, nat>, start: Handle, action: Option<string>)
    requires Explorable(g, rank, start, action)
    ensures start !in ReachAll(g, rank, Out(TableOf(g, start), action))
  {
    var o := Out(TableOf(g, start), action);
    ReachAllUnfold(g, rank, o);
    OutWithinAll(TableOf(g, start), action);
    forall v | v in o
      ensures start !in Reach(g, rank, v)
    {
      ReachRanked(g, rank, v);
      assert v in Successors(g, start);
    }
  }

  /** Every node of the graph other than the start node is ranked. */
  lemma NodesRanked(g: seq<Table>, rank: map<Handle, nat>, start: Handle, action: Option<string>)
    requires Explorable(g, rank, start, action)
    ensures forall w :: w in GraphNodes(g, rank, start, action) && w != start ==> w in rank
  {
    ReachAllUnfold(g, rank, Out(TableOf(g, start), action));
    forall w | w in GraphNodes(g, rank, start, action) && w != start
      ensures w in rank
    {
      var v :| v in Out(TableOf(g, start), action) && w in Reach(g, rank, v);
      ReachRanked(g, rank, v);
    }
  }
  /** A node registered from `v` is in the graph: the graph is closed under
      the expansion of its nodes. */
  lemma NodesClosed(g: seq<Table>, rank: map<Handle, nat>, start: Handle, action: Option<string>, a: Handle, b: Handle)
    requires Explorable(g, rank, start, action)
    requires a in GraphNodes(g, rank, start, action) && b in Expansion(g, start, action, a)
    ensures b in GraphNodes(g, rank, start, action) && b != start && b in rank
  {
    var o := Out(TableOf(g, start), action);
    ReachAllUnfold(g, rank, o);
    if a == start {
      ReachUnfold(g, rank, b);
      assert b in Reach(g, rank, b);
    } else {
      var v :| v in o && a in Reach(g, rank, v);
      ReachClosed(g, rank, v);
      assert b in Reach(g, rank, v);
    }
    StartNotRevisited(g, rank, start, action);
    NodesRanked(g, rank, start, action);
  }

  /** The recorded edges are exactly the expansion of the graph's nodes: the
      start node towards the successors of its action, every other node
      towards all its successors. */
  lemma EdgeShape(g: seq<Table>, rank: map<Handle, nat>, start: Handle, action: Option<string>)
    requires Explorable(g, rank, start, action)
    ensures forall a, b :: (a, b) in GraphEdges(g, rank, start, action)
              <==> a in GraphNodes(g, rank, start, action) && b in Expansion(g, start, action, a)
  {
    var o := Out(TableOf(g, start), action);
    ReachAllUnfold(g, rank, o);
    StartNotRevisited(g, rank, start, action);
    forall a, b
      ensures (a, b) in GraphEdges(g, rank, start, action)
              <==> a in GraphNodes(g, rank, start, action) && b in Expansion(g, start, action, a)
    {
      if (a, b) in ReachEdgesAll(g, rank, o) {
        var v :| v in o && (a, b) in ReachEdges(g, rank, v);
        ReachEdgesShape(g, rank, v);
        assert a in ReachAll(g, rank, o);
      }
      if a in ReachAll(g, rank, o) && b in Successors(g, a) {
        var v :| v in o && a in Reach(g, rank, v);
        ReachEdgesShape(g, rank, v);
        assert (a, b) in ReachEdgesAll(g, rank, o);
      }
      if a == start && b in o {
        assert (a, b) in EdgesFrom(start, o);
      }
    }
  }

  /** The facts the wave scheduler relies on: an edge joins two nodes of the
      graph and never enters the start node; it lowers the rank unless it
      leaves the start node; and every node but the start node has an edge
      into it. */
  lemma DependencyStructure(g: seq<Table>, rank: map<Handle, nat>, start: Handle, action: Option<string>)
    requires Explorable(g, rank, start, action)
    ensures start in GraphNodes(g, rank, start, action)
    ensures forall a, b :: (a, b) in GraphEdges(g, rank, start, action) ==>
              && a in GraphNodes(g, rank, start, action)
              && b in GraphNodes(g, rank, start, action)
              && b != start && b in rank
              && (a != start ==> a in rank && rank[b] < rank[a])
    ensures forall b :: b in GraphNodes(g, rank, start, action) && b != start ==>
              exists a :: (a, b) in GraphEdges(g, rank, start, action)
  {
    EdgeShape(g, rank, start, action);
    NodesRanked(g, rank, start, action);
    forall a, b | (a, b) in GraphEdges(g, rank, start, action)
      ensures && b in GraphNodes(g, rank, start, action)
              && b != start && b in rank
              && (a != start ==> a in rank && rank[b] < rank[a])
    {
      NodesClosed(g, rank, start, action, a, b);
    }
    forall b | b in GraphNodes(g, rank, start, action) && b != start
      ensures exists a :: (a, b) in GraphEdges(g, rank, start, action)
    {
      var o := Out(TableOf(g, start), action);
      ReachAllUnfold(g, rank, o);
      var v :| v in o && b in Reach(g, rank, v);
      if b == v {
        assert (start, b) in GraphEdges(g, rank, start, action);
      } else {
        ReachHasEntry(g, rank, v, b);
        var a :| (a, b) in ReachEdges(g, rank, v);
        assert (a, b) in GraphEdges(g, rank, start, action);
      }
    }
  }

  /** The nodes listed under a non-empty action are exactly those
      `get_next_nodes` returns for it. */
  lemma OutIsNextNodes(t: Table, a: string)
    requires a != ""
    ensures Out(t, Some(a)) == set i | 0 <= i < |GetNextNodes(t, Some(a)).nodes| :: GetNextNodes(t, Some(a)).nodes[i]
  {
    var nodes := GetNextNodes(t, Some(a)).nodes;
    forall v
      ensures v in Out(t, Some(a)) <==> exists i :: 0 <= i < |nodes| && nodes[i] == v
    {
      if v in Out(t, Some(a)) {
        assert v in t[a];
        var i :| 0 <= i < |t[a]| && t[a][i] == v;
      }
      if exists i :: 0 <= i < |nodes| && nodes[i] == v {
        var i :| 0 <= i < |nodes| && nodes[i] == v;
        assert a in t && v in t[a];
      }
    }
  }

  /** Expanding one more node adds what it reaches. */
  lemma ReachAllInsert(g: seq<Table>, rank: map<Handle, nat>, done: set<Handle>, v: Handle)
    requires Ranked(g, rank) && v in rank && done <= rank.Keys
    ensures ReachAll(g, rank, done + {v}) == ReachAll(g, rank, done) + Reach(g, rank, v)
  {
    var s, s' := ReachAll(g, rank, done), ReachAll(g, rank, done + {v});
    forall w | w in s'
      ensures w in s || w in Reach(g, rank, v)
    {
      var x :| x in done + {v} && w in Reach(g, rank, x);
      if x != v {
        assert w in s;
      }
    }
    forall w | w in s
      ensures w in s'
    {
      var x :| x in done && w in Reach(g, rank, x);
      assert x in done + {v};
    }
    forall w | w in Reach(g, rank, v)
      ensures w in s'
    {
      assert v in done + {v};
    }
  }

  /** Expanding one more node adds the edges it records. */
  lemma ReachEdgesAllInsert(g: seq<Table>, rank: map<Handle, nat>, done: set<Handle>, v: Handle)
    requires Ranked(g, rank) && v in rank && done <= rank.Keys
    ensures ReachEdgesAll(g, rank, done + {v}) == ReachEdgesAll(g, rank, done) + ReachEdges(g, rank, v)
  {
    var s, s' := ReachEdgesAll(g, rank, done), ReachEdgesAll(g, rank, done + {v});
    forall e | e in s'
      ensures e in s || e in ReachEdges(g, rank, v)
    {
      var x :| x in done + {v} && e in ReachEdges(g, rank, x);
      if x != v {
        assert e in s;
      }
    }
    forall e | e in s
      ensures e in s'
    {
      var x :| x in done && e in ReachEdges(g, rank, x);
      assert x in done + {v};
    }
    forall e | e in ReachEdges(g, rank, v)
      ensures e in s'
    {
      assert v in done + {v};
    }
  }

  /** The sets after adding `a`, then `b` and `c`, regrouped. */
  lemma VisitRegroup<T>(s0: set<T>, s1: set<T>, s2: set<T>, a: set<T>, b: set<T>, c: set<T>, whole: set<T>)
    requires s1 == s0 + a && s2 == s1 + b + c && whole == b + c
    ensures s2 == s0 + a + whole
    ensures a <= whole ==> s2 == s0 + whole
  {
  }

  lemma ReachSplit(g: seq<Table>, rank: map<Handle, nat>, v: Handle)
    requires Ranked(g, rank) && v in rank
    ensures Successors(g, v) <= rank.Keys
    ensures Reach(g, rank, v) == {v} + ReachAll(g, rank, Successors(g, v))
    ensures ReachEdges(g, rank, v) == EdgesFrom(v, Successors(g, v)) + ReachEdgesAll(g, rank, Successors(g, v))
  {
    ReachUnfold(g, rank, v);
    ReachAllUnfold(g, rank, Successors(g, v));
  }

  lemma EdgesFromInsert(u: Handle, done: set<Handle>, v: Handle)
    ensures EdgesFrom(u, done + {v}) == EdgesFrom(u, done) + {(u, v)}
  {
  }

  /** The bookkeeping of one step of the inner loop of `add_dependency(u)`:
      once `v` is linked and expanded, the nodes and edges recorded so far are
      those that expanding `done + {v}` records. */
  lemma ExpandOne(g: seq<Table>, rank: map<Handle, nat>, u: Handle, done: set<Handle>, v: Handle,
                  keys0: set<Handle>, edges0: set<Edge>, keys: set<Handle>, edges: set<Edge>)
    requires Ranked(g, rank) && v in rank && done <= rank.Keys
    requires keys == keys0 + ReachAll(g, rank, done) + Reach(g, rank, v)
    requires edges == edges0 + EdgesFrom(u, done) + ReachEdgesAll(g, rank, done) + {(u, v)} + ReachEdges(g, rank, v)
    ensures keys == keys0 + ReachAll(g, rank, done + {v})
    ensures edges == edges0 + EdgesFrom(u, done + {v}) + ReachEdgesAll(g, rank, done + {v})
  {
    ReachAllInsert(g, rank, done, v);
    ReachEdgesAllInsert(g, rank, done, v);
    EdgesFromInsert(u, done, v);
    UnionRegroup(edges0, EdgesFrom(u, done), ReachEdgesAll(g, rank, done), {(u, v)}, ReachEdges(g, rank, v), edges);
  }

  /** Expanding two sets of successors records what expanding each records. */
  lemma ReachAllUnion(g: seq<Table>, rank: map<Handle, nat>, a: set<Handle>, b: set<Handle>)
    requires Ranked(g, rank) && a <= rank.Keys && b <= rank.Keys
    ensures ReachAll(g, rank, a + b) == ReachAll(g, rank, a) + ReachAll(g, rank, b)
    ensures ReachEdgesAll(g, rank, a + b) == ReachEdgesAll(g, rank, a) + ReachEdgesAll(g, rank, b)
  {
    forall w | w in ReachAll(g, rank, a + b)
      ensures w in ReachAll(g, rank, a) || w in ReachAll(g, rank, b)
    {
      var x :| x in a + b && w in Reach(g, rank, x);
    }
    forall e | e in ReachEdgesAll(g, rank, a + b)
      ensures e in ReachEdgesAll(g, rank, a) || e in ReachEdgesAll(g, rank, b)
    {
      var x :| x in a + b && e in ReachEdges(g, rank, x);
    }
  }

  /** The bookkeeping of one label of `add_dependency(u)`: once the nodes
      listed under it are linked and expanded, the nodes and edges recorded so
      far are those that expanding `done + listed` records. */
  lemma ExpandLabel(g: seq<Table>, rank: map<Handle, nat>, u: Handle, done: set<Handle>, listed: set<Handle>,
                    keys0: set<Handle>, edges0: set<Edge>, keys: set<Handle>, edges: set<Edge>)
    requires Ranked(g, rank) && listed <= rank.Keys && done <= rank.Keys
    requires keys == keys0 + ReachAll(g, rank, done) + ReachAll(g, rank, listed)
    requires edges == edges0 + EdgesFrom(u, done) + ReachEdgesAll(g, rank, done)
                     + EdgesFrom(u, listed) + ReachEdgesAll(g, rank, listed)
    ensures keys == keys0 + ReachAll(g, rank, done + listed)
    ensures edges == edges0 + EdgesFrom(u, done + listed) + ReachEdgesAll(g, rank, done + listed)
  {
    ReachAllUnion(g, rank, done, listed);
    assert EdgesFrom(u, done + listed) == EdgesFrom(u, done) + EdgesFrom(u, listed);
    UnionRegroup(edges0, EdgesFrom(u, done), ReachEdgesAll(g, rank, done), EdgesFrom(u, listed),
                 ReachEdgesAll(g, rank, listed), edges);
  }

  lemma UnionRegroup<T>(a: set<T>, b: set<T>, c: set<T>, d: set<T>, e: set<T>, r: set<T>)
    requires r == a + b + c + d + e
    ensures r == a + (b + d) + (c + e)
  {
  }

  /** The elements of a successor list. */
  function Elems(s: seq<Handle>): (r: set<Handle>)
    ensures forall i :: 0 <= i < |s| ==> s[i] in r
    ensures forall v :: v in r ==> v in s
  {
    set v | v in s
  }

  lemma ElemsSnoc(s: seq<Handle>, i: nat)
    requires i < |s|
    ensures Elems(s[..i + 1]) == Elems(s[..i]) + {s[i]}
  {
    assert s[..i + 1] == s[..i] + [s[i]];
  }

  /** One label of the loop of `add_dependency` moves from the pending labels
      to the walked ones, and its listed nodes are among the followed ones. */
  lemma LabelStep(t: Table, action: Option<string>, pending: set<string>, l: string)
    requires pending <= Labels(t, action) && l in pending
    ensures LabelTargets(t, Labels(t, action) - (pending - {l}))
         == LabelTargets(t, Labels(t, action) - pending) + Elems(Lookup(t, l))
    ensures Elems(Lookup(t, l)) <= Out(t, action) <= Out(t, None)
  {
    var all := Labels(t, action);
    LabelTargetsInsert(t, all - pending, l);
    assert all - pending + {l} == all - (pending - {l});
    forall v | v in Elems(Lookup(t, l))
      ensures v in Out(t, action)
    {
      assert l in all && l in t && v in t[l];
    }
    OutWithinAll(t, action);
  }

  /** Walking one more label adds the nodes listed under it. */
  lemma LabelTargetsInsert(t: Table, labels: set<string>, l: string)
    ensures LabelTargets(t, labels + {l}) == LabelTargets(t, labels) + Elems(Lookup(t, l))
  {
    var listed := Elems(Lookup(t, l));
    forall v | v in LabelTargets(t, labels + {l})
      ensures v in LabelTargets(t, labels) || v in listed
    {
      var m :| m in labels + {l} && m in t && v in t[m];
      if m !in labels {
        var i :| 0 <= i < |t[m]| && t[m][i] == v;
        assert Lookup(t, l)[i] == v;
      }
    }
    forall v | v in listed
      ensures v in LabelTargets(t, labels + {l})
    {
      var i :| 0 <= i < |Lookup(t, l)| && Lookup(t, l)[i] == v;
      assert l in t && v in t[l];
    }
  }

  // ---------------------------------------------------------------------
  // The builder: `add_dependency` filling both maps in place

  /** The two maps `_build_dependency_graph` fills, with the closure's
      environment (the arena and the ghost rank). `edges` is the abstract
      content of both maps. */
  class Builder {
    const g: seq<Table>
    ghost const rank: map<Handle, nat>
    var dependencies: map<Handle, set<Handle>>
    var reverseDeps: map<Handle, set<Handle>>
    ghost var edges: set<Edge>

    /** Both maps have the same keys and hold the same edges, each from its
        own side. */
    ghost predicate Valid()
      reads this
    {
      && Ranked(g, rank)
      && dependencies.Keys == reverseDeps.Keys
      && (forall a, b :: (a, b) in edges <==> b in dependencies && a in dependencies[b])
      && (forall a, b :: (a, b) in edges <==> a in reverseDeps && b in reverseDeps[a])
    }

    constructor (g: seq<Table>, ghost rank: map<Handle, nat>)
      requires Ranked(g, rank)
      ensures Valid() && this.g == g && this.rank == rank
      ensures dependencies == map[] && reverseDeps == map[] && edges == {}
    {
      this.g := g;
      this.rank := rank;
      dependencies := map[];
      reverseDeps := map[];
      edges := {};
    }

    /** Registers `u` with empty sets if it is not yet a key. */
    method Register(u: Handle)
      requires Valid()
      modifies this
      ensures Valid() && edges == old(edges)
      ensures dependencies.Keys == old(dependencies.Keys) + {u}
    {
      if u !in dependencies {
        dependencies := dependencies[u := {}];
      }
      if u !in reverseDeps {
        reverseDeps := reverseDeps[u := {}];
      }
    }

    /** Records that `v` depends on `u` in both maps; both are keys already. */
    method Link(u: Handle, v: Handle)
      requires Valid() && u in dependencies && v in dependencies
      modifies this
      ensures Valid() && edges == old(edges) + {(u, v)}
      ensures dependencies.Keys == old(dependencies.Keys)
    {
      dependencies := dependencies[v := dependencies[v] + {u}];
      reverseDeps := reverseDeps[u := reverseDeps[u] + {v}];
      edges := edges + {(u, v)};
    }

    /** `add_dependency(u, action)`: register `u`, then for each followed label
        and each listed successor `v`, link `v` to `u` and expand `v` with all
        labels, whether or not `v` was met before. */
    method AddDependency(u: Handle, action: Option<string>)
      requires Valid() && Out(TableOf(g, u), action) <= rank.Keys
      modifies this
      ensures Valid()
      ensures dependencies.Keys == old(dependencies.Keys) + {u} + ReachAll(g, rank, Out(TableOf(g, u), action))
      ensures edges == old(edges) + EdgesFrom(u, Out(TableOf(g, u), action)) + ReachEdgesAll(g, rank, Out(TableOf(g, u), action))
      decreases if u in rank then 0 else 1, if u in rank then rank[u] else 0, 2
    {
      ghost var keys0, edges0 := dependencies.Keys, edges;
      Register(u);
      var table := TableOf(g, u);
      ghost var all := Labels(table, action);
      var labels := Labels(table, action);
      ghost var done: set<Handle> := {};
      OutWithinAll(table, action);
      while labels != {}
        invariant Valid()
        invariant labels <= all && done == LabelTargets(table, all - labels)
        invariant done <= Out(table, action)
        invariant dependencies.Keys == keys0 + {u} + ReachAll(g, rank, done)
        invariant edges == edges0 + EdgesFrom(u, done) + ReachEdgesAll(g, rank, done)
        decreases labels
      {
        var l :| l in labels;
        var succs := Lookup(table, l);
        LabelStep(table, action, labels, l);
        labels := labels - {l};
        LinkAll(u, succs);
        ExpandLabel(g, rank, u, done, Elems(succs), keys0 + {u}, edges0, dependencies.Keys, edges);
        done := done + Elems(succs);
      }
      assert all - labels == all;
    }

    /** The inner loop of `add_dependency(u)` over the list `succs` of one
        label: each listed node is linked to `u` and expanded in turn. */
    method LinkAll(u: Handle, succs: seq<Handle>)
      requires Valid() && u in dependencies && Elems(succs) <= rank.Keys
      requires u in rank ==> Elems(succs) <= Successors(g, u)
      modifies this
      ensures Valid()
      ensures dependencies.Keys == old(dependencies.Keys) + ReachAll(g, rank, Elems(succs))
      ensures edges == old(edges) + EdgesFrom(u, Elems(succs)) + ReachEdgesAll(g, rank, Elems(succs))
      decreases if u in rank then 0 else 1, if u in rank then rank[u] else 0, 1
    {
      ghost var keys0, edges0 := dependencies.Keys, edges;
      var i := 0;
      while i < |succs|
        invariant Valid() && 0 <= i <= |succs| && u in dependencies
        invariant dependencies.Keys == keys0 + ReachAll(g, rank, Elems(succs[..i]))
        invariant edges == edges0 + EdgesFrom(u, Elems(succs[..i])) + ReachEdgesAll(g, rank, Elems(succs[..i]))
      {
        LinkNext(u, succs, i, keys0, edges0);
        i := i + 1;
      }
      assert succs[..i] == succs;
    }

    /** One pass of the inner loop of `add_dependency(u)`: the `i`-th listed
        node is visited, extending what the first `i` had reached. */
    method LinkNext(u: Handle, succs: seq<Handle>, i: nat, ghost keys0: set<Handle>, ghost edges0: set<Edge>)
      requires Valid() && u in dependencies && i < |succs| && Elems(succs) <= rank.Keys
      requires u in rank ==> Elems(succs) <= Successors(g, u)
      requires dependencies.Keys == keys0 + ReachAll(g, rank, Elems(succs[..i]))
      requires edges == edges0 + EdgesFrom(u, Elems(succs[..i])) + ReachEdgesAll(g, rank, Elems(succs[..i]))
      modifies this
      ensures Valid() && u in dependencies
      ensures dependencies.Keys == keys0 + ReachAll(g, rank, Elems(succs[..i + 1]))
      ensures edges == edges0 + EdgesFrom(u, Elems(succs[..i + 1])) + ReachEdgesAll(g, rank, Elems(succs[..i + 1]))
      decreases if u in rank then 0 else 1, if u in rank then rank[u] else 0, 0
    {
      var v := succs[i];
      ElemsSnoc(succs, i);
      Visit(u, v);
      ExpandOne(g, rank, u, Elems(succs[..i]), v, keys0, edges0, dependencies.Keys, edges);
    }

    /** The body of the inner loop of `add_dependency(u)` for one successor
        `v`: register `v`, record the edge from `u` to `v` in both maps, then
        `add_dependency(v)` with every label. */
    method Visit(u: Handle, v: Handle)
      requires Valid() && v in rank && (u in rank ==> v in Successors(g, u))
      requires u in dependencies
      modifies this
      ensures Valid()
      ensures dependencies.Keys == old(dependencies.Keys) + Reach(g, rank, v)
      ensures edges == old(edges) + {(u, v)} + ReachEdges(g, rank, v)
      decreases 0, rank[v], 3
    {
      ghost var keys0, edges0 := dependencies.Keys, edges;
      Register(v);
      Link(u, v);
      ghost var keys1, edges1 := dependencies.Keys, edges;
      ReachSplit(g, rank, v);
      AddDependency(v, None);
      VisitRegroup(keys0, keys1, dependencies.Keys, {v}, {v}, ReachAll(g, rank, Successors(g, v)), Reach(g, rank, v));
      VisitRegroup(edges0, edges1, edges, {(u, v)}, EdgesFrom(v, Successors(g, v)), ReachEdgesAll(g, rank, Successors(g, v)),
                   ReachEdges(g, rank, v));
    }
  }

  /** `_build_dependency_graph(action_map)`: expand the start node with the
      action recorded for it (all labels when none is recorded). Both maps have
      the graph's nodes as keys and hold exactly the graph's edges, so
      `a in dependencies[b]` exactly when `b in reverse_deps[a]`. */
  method Build(g: seq<Table>, start: Handle, actionMap: map<Handle, string>, ghost rank: map<Handle, nat>)
    returns (dependencies: map<Handle, set<Handle>>, reverseDeps: map<Handle, set<Handle>>)
    requires Explorable(g, rank, start, if start in actionMap then Some(actionMap[start]) else None)
    ensures var action := if start in actionMap then Some(actionMap[start]) else None;
      && dependencies.Keys == reverseDeps.Keys == GraphNodes(g, rank, start, action)
      && (forall a, b :: b in dependencies && a in dependencies[b] <==> (a, b) in GraphEdges(g, rank, start, action))
      && (forall a, b :: a in reverseDeps && b in reverseDeps[a] <==> (a, b) in GraphEdges(g, rank, start, action))
  {
    var action := if start in actionMap then Some(actionMap[start]) else None;
    var builder := new Builder(g, rank);
    builder.AddDependency(start, action);
    dependencies, reverseDeps := builder.dependencies, builder.reverseDeps;
  }
}
