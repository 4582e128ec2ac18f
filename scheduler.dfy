/** The wave scheduler of `Flow`: run the start node, build the dependency
    graph from the action it returned, then run, wave after wave, every node
    whose dependencies have all run, until no node is ready.

    A node's work (`prep`, `_exec` and `post` of a fresh copy carrying the
    run's parameters) is a `Step` oracle: given the node, the parameters and
    the shared store as it is when the node starts, it returns the node's
    action or raises. The shared store is modelled as the log of the node
    executions completed so far, so the oracle may depend on everything that
    ran before it. */
module Scheduler {
  import opened Outcomes
  import opened Wiring
  import opened DependencyGraph

  /** A node's or a flow's parameter dictionary. */
  type Params = map<string, PyValue>

  /** One completed node execution: the node and the parameters it ran with. */
  datatype Execution = Execution(node: Handle, params: Params)

  /** The shared store, as the executions that have written to it so far. */
  type Shared = seq<Execution>

  /** prep -> _exec -> post of one node copy: its (un-normalized) action, or
      the exception it raised. */
  type Step = (Handle, Params, Shared) -> Outcome<Option<string>>

  /** What `_orch` (and `_run`) returns, or raises, and the store afterwards. */
  datatype RunResult = RunResult(result: Outcome<string>, shared: Shared)

  /** What `BatchFlow._run` returns, or raises, and the store afterwards. */
  datatype BatchResult = BatchResult(result: Outcome<Option<string>>, shared: Shared)

  // ---------------------------------------------------------------------
  // Parameters

  /** `params or {**self.params}`: an explicit, non-empty dictionary wins;
      a missing or empty one falls back to the flow's own parameters. */
  function EffectiveParams(own: Params, params: Option<Params>): (r: Params)
    ensures params.Some? && params.value != map[] ==> r == params.value
    ensures params.None? || params.value == map[] ==> r == own
  {
    if params.Some? && params.value != map[] then params.value else own
  }

  /** `{**base, **overrides}`: every key of either, an override winning. */
  function MergedParams(base: Params, overrides: Params): (r: Params)
    ensures r.Keys == base.Keys + overrides.Keys
    ensures forall k :: k in overrides ==> r[k] == overrides[k]
    ensures forall k :: k in base && k !in overrides ==> r[k] == base[k]
  {
    base + overrides
  }

  /** A batch run's merged parameters are the ones its nodes see: the `or`
      fallback of `_orch` never replaces them, because a merge is empty only
      when the flow's own parameters are empty too. */
  lemma BatchParamsUsed(own: Params, overrides: Params)
    ensures EffectiveParams(own, Some(MergedParams(own, overrides))) == MergedParams(own, overrides)
  {
    if MergedParams(own, overrides) == map[] {
      assert own.Keys <= MergedParams(own, overrides).Keys;
    }
  }

  // ---------------------------------------------------------------------
  // The specification of one orchestration

  /** The nodes that ran in `trace`. */
  function Nodes(trace: seq<Execution>): set<Handle>
  {
    if trace == [] then {} else Nodes(trace[..|trace| - 1]) + {trace[|trace| - 1].node}
  }

  /** A node ran in `trace` exactly when some execution of `trace` is of it. */
  lemma {:induction false} NodesIndex(trace: seq<Execution>)
    ensures forall i :: 0 <= i < |trace| ==> trace[i].node in Nodes(trace)
    ensures forall x :: x in Nodes(trace) ==> exists i :: 0 <= i < |trace| && trace[i].node == x
  {
    if trace != [] {
      var prefix := trace[..|trace| - 1];
      NodesIndex(prefix);
      forall x | x in Nodes(trace)
        ensures exists i :: 0 <= i < |trace| && trace[i].node == x
      {
        if x in Nodes(prefix) {
          var i :| 0 <= i < |prefix| && prefix[i].node == x;
          assert trace[i].node == x;
        } else {
          assert trace[|trace| - 1].node == x;
        }
      }
      forall i | 0 <= i < |trace|
        ensures trace[i].node in Nodes(trace)
      {
        if i < |prefix| {
          assert prefix[i] == trace[i];
        }
      }
    }
  }

  /** A trace of executions as `_orch` produces it for the graph with
      `nodes` and dependency `edges` grown from `start`: it begins with the
      start node, runs nothing twice and nothing outside the graph, runs every
      node after all the nodes it depends on, gives every node the parameters
      `p`, and every node it lists returned (given the store as it was when
      the node started). */
  ghost predicate WaveOrder(nodes: set<Handle>, edges: set<Edge>, start: Handle,
                            step: Step, p: Params, shared0: Shared, trace: seq<Execution>)
  {
    && |trace| > 0 && trace[0].node == start
    && (forall i :: 0 <= i < |trace| ==> trace[i].params == p)
    && (forall i :: 0 <= i < |trace| ==> trace[i].node in nodes)
    && (forall i, j :: 0 <= i < j < |trace| ==> trace[i].node != trace[j].node)
    && (forall i, a :: 0 <= i < |trace| && (a, trace[i].node) in edges ==> a in Nodes(trace[..i]))
    && (forall i :: 0 <= i < |trace| ==> step(trace[i].node, p, shared0 + trace[..i]).Returned?)
  }

  /** The source's recursion in `_build_dependency_graph` is well-founded for the
      action the start node returns (with parameters `p` on store `shared0`). */
  ghost predicate StartFollowable(g: seq<Table>, rank: map<Handle, nat>, start: Handle, p: Params,
                                  step: Step, shared0: Shared)
  {
    && Ranked(g, rank)
    && (step(start, p, shared0).Returned? ==>
          Out(TableOf(g, start), Some(Normalize(step(start, p, shared0).value))) <= rank.Keys)
  }

  /** The dependencies of each node of a graph, read off its edges. */
  ghost function DepsOf(nodes: set<Handle>, edges: set<Edge>): map<Handle, set<Handle>>
  {
    map n | n in nodes :: (set e | e in edges && e.1 == n :: e.0)
  }

  /** The outcome of `_orch` from `start` with parameters `p` on store
      `shared0`. If the start node raises, so does the run, and the store is
      untouched. Otherwise the executions appended to the store follow
      `WaveOrder` over the graph grown with the start node's action, and run
      wave by wave over that graph's dependencies; a run
      that returns has run every node of that graph and returns the start
      node's action; a run that raises stopped at a node of the wave in
      progress that had not run yet, whose dependencies had all run, and that
      raised exactly that exception on the final store. */
  ghost predicate Scheduled(g: seq<Table>, rank: map<Handle, nat>, start: Handle, p: Params,
                            step: Step, shared0: Shared, r: RunResult)
  {
    var first := step(start, p, shared0);
    if first.Raised? then
      r == RunResult(Raised(first.error), shared0)
    else
      var action := Some(Normalize(first.value));
      && Explorable(g, rank, start, action)
      && |shared0| < |r.shared| && r.shared[..|shared0|] == shared0
      && var trace := r.shared[|shared0|..];
      && WaveOrder(GraphNodes(g, rank, start, action), GraphEdges(g, rank, start, action), start, step, p, shared0, trace)
      && (exists cuts :: && ByWaves(DepsOf(GraphNodes(g, rank, start, action), GraphEdges(g, rank, start, action)), trace, cuts)
                         && (r.result.Raised? ==>
                               RaisedInWave(DepsOf(GraphNodes(g, rank, start, action), GraphEdges(g, rank, start, action)),
                                            trace, cuts, step, p, r.shared, r.result.error)))
      && (r.result.Returned? ==>
            r.result.value == Normalize(first.value) && Nodes(trace) == GraphNodes(g, rank, start, action))
  }

  /** The two maps `_build_dependency_graph` returns for the graph grown from
      `start` with `action`. */
  ghost predicate Built(g: seq<Table>, rank: map<Handle, nat>, start: Handle, action: Option<string>,
                        deps: map<Handle, set<Handle>>, rdeps: map<Handle, set<Handle>>)
  {
    && Explorable(g, rank, start, action)
    && deps.Keys == rdeps.Keys == GraphNodes(g, rank, start, action)
    && (forall a, b :: b in deps && a in deps[b] <==> (a, b) in GraphEdges(g, rank, start, action))
    && (forall a, b :: a in rdeps && b in rdeps[a] <==> (a, b) in GraphEdges(g, rank, start, action))
  }

  // ---------------------------------------------------------------------
  // The wave loop, in terms of the two maps

  /** What the wave loop relies on in the two maps: the start node is a key
      and depends on nothing; both maps hold the same edges; every dependency
      is a key; every other key depends on something, and a dependency other
      than the start node is ranked above its dependent. */
  ghost predicate WellFormedDeps(deps: map<Handle, set<Handle>>, rdeps: map<Handle, set<Handle>>,
                                 start: Handle, rank: map<Handle, nat>)
  {
    && start in deps && deps[start] == {}
    && rdeps.Keys == deps.Keys
    && (forall a, b :: b in deps && a in deps[b] <==> a in rdeps && b in rdeps[a])
    && (forall a, b :: b in deps && a in deps[b] ==> a in deps)
    && (forall b {:trigger deps[b]} :: b in deps && b != start ==> b in rank && deps[b] != {})
    && (forall a, b :: b in deps && a in deps[b] && a != start ==> a in rank && b in rank && rank[b] < rank[a])
  }

  /** A trace of executions in dependency order over the maps: it begins
      with the start node, which depends on nothing; each later execution
      runs, with the parameters `p`, a key that has not run yet and whose
      dependencies have all run; and every node it lists returned (given the
      store as it was when the node started). */
  ghost predicate DepOrder(deps: map<Handle, set<Handle>>, start: Handle, step: Step, p: Params,
                           shared0: Shared, trace: seq<Execution>)
    decreases |trace|
  {
    if |trace| <= 1 then
      && trace == [Execution(start, p)]
      && start in deps && deps[start] == {}
      && step(start, p, shared0).Returned?
    else
      var prefix, last := trace[..|trace| - 1], trace[|trace| - 1];
      && DepOrder(deps, start, step, p, shared0, prefix)
      && last.params == p && last.node in deps && last.node !in Nodes(prefix)
      && deps[last.node] <= Nodes(prefix)
      && step(last.node, p, shared0 + prefix).Returned?
  }

  /** The keys that have not run and whose dependencies have all run, once
      the nodes `done` have run: the nodes of the next wave. */
  function Frontier(deps: map<Handle, set<Handle>>, done: set<Handle>): set<Handle>
  {
    set n | n in deps && n !in done && deps[n] <= done
  }

  /** `cuts[j]` is the length of the trace when wave `j` had ended, wave 0
      being the start node alone: the nodes run by the end of each wave are
      those run by the end of the wave before it together with the frontier
      of those. */
  ghost predicate WaveCuts(deps: map<Handle, set<Handle>>, trace: seq<Execution>, cuts: seq<nat>)
    decreases |cuts|
  {
    if |cuts| <= 1 then
      cuts == [1] && |trace| >= 1
    else
      var k := |cuts| - 1;
      && WaveCuts(deps, trace, cuts[..k])
      && cuts[k - 1] <= cuts[k] <= |trace|
      && Nodes(trace[..cuts[k]]) == Nodes(trace[..cuts[k - 1]]) + Frontier(deps, Nodes(trace[..cuts[k - 1]]))
  }

  /** The trace ran wave by wave: the cuts mark the finished waves, and the
      nodes that ran after the last cut all belong to the wave after it. So
      a node never runs before a node of an earlier wave. */
  ghost predicate ByWaves(deps: map<Handle, set<Handle>>, trace: seq<Execution>, cuts: seq<nat>)
  {
    && WaveCuts(deps, trace, cuts)
    && |cuts| > 0 && cuts[|cuts| - 1] <= |trace|
    && var last := cuts[|cuts| - 1];
       Nodes(trace) <= Nodes(trace[..last]) + Frontier(deps, Nodes(trace[..last]))
  }

  /** A raise inside the wave after the last cut: some node of that wave's
      frontier had not run yet and raised `e` on the store `shared`. */
  ghost predicate RaisedInWave(deps: map<Handle, set<Handle>>, trace: seq<Execution>, cuts: seq<nat>,
                               step: Step, p: Params, shared: Shared, e: Exception)
  {
    && |cuts| > 0 && cuts[|cuts| - 1] <= |trace|
    && exists n :: && n in Frontier(deps, Nodes(trace[..cuts[|cuts| - 1]])) && n !in Nodes(trace)
                   && step(n, p, shared) == Raised(e)
  }

  /** The nodes that have run once wave `j` has ended, defined from the maps
      alone: the start node, then each wave adds the frontier. */
  function Layer(deps: map<Handle, set<Handle>>, start: Handle, j: nat): set<Handle>
  {
    if j == 0 then {start} else Layer(deps, start, j - 1) + Frontier(deps, Layer(deps, start, j - 1))
  }

  /** Whatever the order inside each wave, the nodes that have run at the
      end of wave `j` are exactly `Layer(j)`. */
  lemma {:induction false} CutsAreLayers(deps: map<Handle, set<Handle>>, start: Handle,
                                         trace: seq<Execution>, cuts: seq<nat>)
    requires WaveCuts(deps, trace, cuts) && |trace| > 0 && trace[0].node == start
    ensures forall j :: 0 <= j < |cuts| ==> cuts[j] <= |trace| && Nodes(trace[..cuts[j]]) == Layer(deps, start, j)
    decreases |cuts|
  {
    if |cuts| <= 1 {
      assert trace[..1][..0] == [] && trace[..1][0] == trace[0];
    } else {
      var k := |cuts| - 1;
      CutsAreLayers(deps, start, trace, cuts[..k]);
      forall j | 0 <= j < k
        ensures cuts[j] <= |trace| && Nodes(trace[..cuts[j]]) == Layer(deps, start, j)
      {
        assert cuts[..k][j] == cuts[j];
      }
      assert cuts[..k][k - 1] == cuts[k - 1];
    }
  }

  /** A raise inside the wave after the last cut comes from the wave
      numbered by that cut: a node of the frontier of `Layer(|cuts| - 1)`
      that had not run. */
  lemma RaiserInLayer(deps: map<Handle, set<Handle>>, start: Handle, trace: seq<Execution>, cuts: seq<nat>,
                      step: Step, p: Params, shared: Shared, e: Exception) returns (n: Handle)
    requires ByWaves(deps, trace, cuts) && |trace| > 0 && trace[0].node == start
    requires RaisedInWave(deps, trace, cuts, step, p, shared, e)
    ensures n in Frontier(deps, Layer(deps, start, |cuts| - 1)) && n !in Nodes(trace)
    ensures step(n, p, shared) == Raised(e)
  {
    CutsAreLayers(deps, start, trace, cuts);
    n :| && n in Frontier(deps, Nodes(trace[..cuts[|cuts| - 1]])) && n !in Nodes(trace)
         && step(n, p, shared) == Raised(e);
  }

  /** A node of the frontier over the dependencies read off a graph is a
      node of that graph that has not run and all of whose incoming edges
      come from nodes that have. */
  lemma FrontierOfGraph(nodes: set<Handle>, edges: set<Edge>, done: set<Handle>, n: Handle)
    requires n in Frontier(DepsOf(nodes, edges), done)
    ensures n in nodes && n !in done && forall a :: (a, n) in edges ==> a in done
  {
    assert DepsOf(nodes, edges)[n] <= done;
  }

  /** Extending the trace keeps the cuts of the waves already run. */
  lemma {:induction false} WaveCutsExtend(deps: map<Handle, set<Handle>>, trace: seq<Execution>,
                                          trace': seq<Execution>, cuts: seq<nat>)
    requires WaveCuts(deps, trace, cuts) && trace <= trace'
    ensures WaveCuts(deps, trace', cuts)
    decreases |cuts|
  {
    if |cuts| > 1 {
      var k := |cuts| - 1;
      WaveCutsExtend(deps, trace, trace', cuts[..k]);
      assert trace'[..cuts[k]] == trace[..cuts[k]];
      assert trace'[..cuts[k - 1]] == trace[..cuts[k - 1]];
    }
  }

  /** A loop that stops, normally or at an exception, after the last cut at
      `trace0` has run only nodes of the wave after that cut. */
  lemma ByWavesStop(deps: map<Handle, set<Handle>>, trace0: seq<Execution>, trace: seq<Execution>, cuts: seq<nat>,
                    c0: set<Handle>, c: set<Handle>)
    requires WaveCuts(deps, trace, cuts) && |cuts| > 0 && cuts[|cuts| - 1] == |trace0| && trace0 <= trace
    requires Nodes(trace0) == c0 && Nodes(trace) == c && c <= c0 + Frontier(deps, c0)
    ensures ByWaves(deps, trace, cuts)
  {
    assert trace[..|trace0|] == trace0;
  }

  /** A finished wave adds its cut. */
  lemma WaveCutsSnoc(deps: map<Handle, set<Handle>>, trace: seq<Execution>, cuts: seq<nat>, c: nat)
    requires WaveCuts(deps, trace, cuts) && |cuts| > 0 && cuts[|cuts| - 1] <= c <= |trace|
    requires Nodes(trace[..c]) == Nodes(trace[..cuts[|cuts| - 1]]) + Frontier(deps, Nodes(trace[..cuts[|cuts| - 1]]))
    ensures WaveCuts(deps, trace, cuts + [c])
  {
    assert (cuts + [c])[..|cuts|] == cuts;
  }

  /** The built `dependencies` map is the graph's dependencies. */
  lemma BuiltDeps(g: seq<Table>, rank: map<Handle, nat>, start: Handle, action: Option<string>,
                  deps: map<Handle, set<Handle>>, rdeps: map<Handle, set<Handle>>)
    requires Built(g, rank, start, action, deps, rdeps)
    ensures deps == DepsOf(GraphNodes(g, rank, start, action), GraphEdges(g, rank, start, action))
  {
    var edges := GraphEdges(g, rank, start, action);
    var d := DepsOf(GraphNodes(g, rank, start, action), edges);
    forall b | b in deps
      ensures deps[b] == d[b]
    {
      forall a | a in d[b]
        ensures a in deps[b]
      {
        var e :| e in edges && e.1 == b && e.0 == a;
        assert (a, b) == e;
      }
      forall a | a in deps[b]
        ensures a in d[b]
      {
        assert (a, b) in edges;
      }
    }
  }

  /** The maps `_build_dependency_graph` returns are well formed. */
  lemma BuiltWellFormed(g: seq<Table>, rank: map<Handle, nat>, start: Handle, action: Option<string>,
                        deps: map<Handle, set<Handle>>, rdeps: map<Handle, set<Handle>>)
    requires Built(g, rank, start, action, deps, rdeps)
    ensures WellFormedDeps(deps, rdeps, start, rank)
  {
    DependencyStructure(g, rank, start, action);
    forall b | b in deps && b != start
      ensures deps[b] != {}
    {
      var a :| (a, b) in GraphEdges(g, rank, start, action);
      assert a in deps[b];
    }
    assert forall a :: a !in deps[start];
  }

  /** The ready list recomputed after a wave: every dependent of a completed
      node whose dependencies have all completed, less the completed nodes. */
  function ReadyAfter(deps: map<Handle, set<Handle>>, rdeps: map<Handle, set<Handle>>, done: set<Handle>): (r: set<Handle>)
    ensures forall n :: n in r ==> n in deps && n !in done && deps[n] <= done
  {
    (set c, d | c in done && c in rdeps && d in rdeps[c] && d in deps && deps[d] <= done :: d) - done
  }

  /** The recomputed ready list misses no pending key whose dependencies have
      all completed. */
  lemma ReadyAfterComplete(deps: map<Handle, set<Handle>>, rdeps: map<Handle, set<Handle>>,
                           start: Handle, rank: map<Handle, nat>, done: set<Handle>)
    requires WellFormedDeps(deps, rdeps, start, rank) && start in done
    ensures forall n :: n in deps && n !in done && deps[n] <= done ==> n in ReadyAfter(deps, rdeps, done)
  {
    forall n | n in deps && n !in done && deps[n] <= done
      ensures n in ReadyAfter(deps, rdeps, done)
    {
      var a :| a in deps[n];
      assert a in rdeps && n in rdeps[a];
    }
  }

  /** The recomputed ready list is exactly the frontier of the completed
      nodes. */
  lemma ReadyIsFrontier(deps: map<Handle, set<Handle>>, rdeps: map<Handle, set<Handle>>,
                        start: Handle, rank: map<Handle, nat>, done: set<Handle>)
    requires WellFormedDeps(deps, rdeps, start, rank) && start in done
    ensures ReadyAfter(deps, rdeps, done) == Frontier(deps, done)
  {
    ReadyAfterComplete(deps, rdeps, start, rank, done);
  }

  /** A pass over a ready list whose pending part is the frontier `f`
      completes at most the frontier, and all of it when it completes the
      whole list. */
  lemma FrontierPass(c0: set<Handle>, ready: set<Handle>, f: set<Handle>, c: set<Handle>)
    requires ready - c0 == f && c0 <= c <= c0 + ready
    ensures c <= c0 + f
    ensures c == c0 + ready ==> c == c0 + f
  {
  }

  /** The ranked nodes ranked above `k`. */
  function Above(rank: map<Handle, nat>, k: Handle): set<Handle>
  {
    set x | x in rank && k in rank && rank[x] > rank[k]
  }

  /** Progress: while some key has not run, some key that has not run has all
      its dependencies run. Found by climbing from any pending key to a
      pending dependency, which the rank bounds. */
  lemma ReadyNodeExists(deps: map<Handle, set<Handle>>, rdeps: map<Handle, set<Handle>>,
                        start: Handle, rank: map<Handle, nat>, done: set<Handle>, k: Handle) returns (d: Handle)
    requires WellFormedDeps(deps, rdeps, start, rank)
    requires start in done && k in deps && k !in done
    ensures d in deps && d !in done && deps[d] <= done
    decreases Above(rank, k)
  {
    if a :| a in deps[k] && a !in done {
      assert a in Above(rank, k) && a !in Above(rank, a);
      assert Above(rank, a) <= Above(rank, k);
      d := ReadyNodeExists(deps, rdeps, start, rank, done, a);
    } else {
      d := k;
    }
  }

  /** When no pending key has all its dependencies run, every key has run. */
  lemma AllRun(deps: map<Handle, set<Handle>>, rdeps: map<Handle, set<Handle>>,
               start: Handle, rank: map<Handle, nat>, done: set<Handle>)
    requires WellFormedDeps(deps, rdeps, start, rank)
    requires start in done && done <= deps.Keys
    requires forall n :: n in deps && deps[n] <= done ==> n in done
    ensures done == deps.Keys
  {
    if k :| k in deps && k !in done {
      var d := ReadyNodeExists(deps, rdeps, start, rank, done, k);
      assert false;
    }
  }

  /** The trace holding only the start node's execution is in order. */
  lemma DepOrderStart(deps: map<Handle, set<Handle>>, start: Handle, step: Step, p: Params, shared0: Shared)
    requires start in deps && deps[start] == {} && step(start, p, shared0).Returned?
    ensures DepOrder(deps, start, step, p, shared0, [Execution(start, p)])
    ensures Nodes([Execution(start, p)]) == {start}
  {
    assert [Execution(start, p)][..0] == [];
  }

  /** Appending a pending key whose dependencies have all run, and which
      returned, keeps a trace in order. */
  lemma DepOrderExtend(deps: map<Handle, set<Handle>>, start: Handle, step: Step, p: Params,
                       shared0: Shared, trace: seq<Execution>, n: Handle)
    requires DepOrder(deps, start, step, p, shared0, trace)
    requires n in deps && n !in Nodes(trace) && deps[n] <= Nodes(trace)
    requires step(n, p, shared0 + trace).Returned?
    ensures DepOrder(deps, start, step, p, shared0, trace + [Execution(n, p)])
    ensures Nodes(trace + [Execution(n, p)]) == Nodes(trace) + {n}
  {
    var t := trace + [Execution(n, p)];
    assert t[..|t| - 1] == trace;
    if |trace| == 0 {
      assert false;
    }
  }

  /** The bookkeeping of one step of a wave: taking `n` off the nodes still
      to visit and completing it keeps `completed` equal to the nodes completed
      before the wave plus the ready nodes visited. */
  lemma WaveStep(c0: set<Handle>, ready: set<Handle>, todo: set<Handle>, n: Handle, completed: set<Handle>)
    requires todo <= ready && n in todo && completed == c0 + (ready - todo)
    ensures completed + {n} == c0 + (ready - (todo - {n}))
    ensures n in completed ==> completed == c0 + (ready - (todo - {n}))
  {
  }

  /** Appending one execution to the store keeps it the initial store
      followed by the trace. */
  lemma LogStep(shared: Shared, shared0: Shared, trace: seq<Execution>, e: Execution)
    requires shared == shared0 + trace
    ensures shared + [e] == shared0 + (trace + [e])
  {
  }

  /** `execute_node(n)` inside `_orch`: a node already in the action map is
      skipped; otherwise the node runs with the flow's parameters on the
      current store and, unless it raises, its normalized action is recorded.
      Called on a key whose dependencies have all run, it keeps the trace in
      dependency order. */
  method ExecuteNode(deps: map<Handle, set<Handle>>, start: Handle, step: Step, p: Params, shared0: Shared,
                     n: Handle, actionMap: map<Handle, string>, shared: Shared, ghost trace: seq<Execution>)
    returns (raised: Option<Exception>, actionMap': map<Handle, string>, shared': Shared, ghost trace': seq<Execution>)
    requires DepOrder(deps, start, step, p, shared0, trace) && shared == shared0 + trace
    requires actionMap.Keys == Nodes(trace) && n in deps && deps[n] <= Nodes(trace)
    ensures n in actionMap ==> raised.None? && actionMap' == actionMap && shared' == shared && trace' == trace
    ensures n !in actionMap && step(n, p, shared).Raised? ==>
              raised == Some(step(n, p, shared).error) && actionMap' == actionMap && shared' == shared && trace' == trace
    ensures n !in actionMap && step(n, p, shared).Returned? ==>
              && raised.None?
              && actionMap' == actionMap[n := Normalize(step(n, p, shared).value)]
              && trace' == trace + [Execution(n, p)] && shared' == shared + [Execution(n, p)]
    ensures shared' == shared0 + trace' && DepOrder(deps, start, step, p, shared0, trace')
    ensures raised.None? ==> actionMap'.Keys == Nodes(trace') == Nodes(trace) + {n}
  {
    raised, actionMap', shared', trace' := None, actionMap, shared, trace;
    if n in actionMap {
      return;
    }
    var o := step(n, p, shared);
    if o.Raised? {
      raised := Some(o.error);
      return;
    }
    actionMap' := actionMap[n := Normalize(o.value)];
    var e := Execution(n, p);
    DepOrderExtend(deps, start, step, p, shared0, trace, n);
    LogStep(shared, shared0, trace, e);
    trace', shared' := trace + [e], shared + [e];
  }

  /** The state of `_orch` after the nodes `completed` ran: the action map
      has exactly those nodes as keys, they are the nodes of `trace`, which is
      in dependency order, and the store is the initial store followed by
      the trace. */
  ghost predicate Ran(deps: map<Handle, set<Handle>>, start: Handle, step: Step, p: Params, shared0: Shared,
                      completed: set<Handle>, actionMap: map<Handle, string>, shared: Shared, trace: seq<Execution>)
  {
    && actionMap.Keys == completed == Nodes(trace) && shared == shared0 + trace
    && DepOrder(deps, start, step, p, shared0, trace)
  }

  /** One pass of `for node in ready_nodes` in `_orch`: every ready node not
      yet completed is executed, in any order, and marked completed, until
      one raises. Each ready node's dependencies had completed before the
      pass. A normal pass completes exactly the ready nodes; a raising pass
      stops at a pending node whose dependencies have all run. Earlier
      actions are kept. */
  method Wave(deps: map<Handle, set<Handle>>, start: Handle, step: Step, p: Params, shared0: Shared,
              ready: set<Handle>, completed: set<Handle>, actionMap: map<Handle, string>, shared: Shared,
              ghost trace: seq<Execution>)
    returns (raised: Option<Exception>, completed': set<Handle>, actionMap': map<Handle, string>,
             shared': Shared, ghost trace': seq<Execution>)
    requires ready <= deps.Keys && forall n :: n in ready ==> deps[n] <= completed
    requires Ran(deps, start, step, p, shared0, completed, actionMap, shared, trace)
    ensures completed <= completed' <= completed + ready && trace <= trace'
    ensures Ran(deps, start, step, p, shared0, completed', actionMap', shared', trace')
    ensures forall k :: k in actionMap ==> k in actionMap' && actionMap'[k] == actionMap[k]
    ensures raised.None? ==> completed' == completed + ready
    ensures raised.Some? ==> exists n :: && n in ready && n !in completed
                                         && n in deps && n !in Nodes(trace') && deps[n] <= Nodes(trace')
                                         && step(n, p, shared') == Raised(raised.value)
  {
    raised, completed', actionMap', shared', trace' := None, completed, actionMap, shared, trace;
    var todo := ready;
    while todo != {}
      invariant raised.None? && todo <= ready && completed <= completed' && completed' == completed + (ready - todo)
      invariant trace <= trace'
      invariant Ran(deps, start, step, p, shared0, completed', actionMap', shared', trace')
      invariant forall k :: k in actionMap ==> k in actionMap' && actionMap'[k] == actionMap[k]
      decreases todo
    {
      var n :| n in todo;
      WaveStep(completed, ready, todo, n, completed');
      todo := todo - {n};
      if n !in completed' {
        raised, actionMap', shared', trace' := ExecuteNode(deps, start, step, p, shared0, n, actionMap', shared', trace');
        if raised.Some? {
          assert n in ready && n !in completed && n in deps && n !in Nodes(trace') && deps[n] <= Nodes(trace');
          assert step(n, p, shared') == Raised(raised.value);
          return;
        }
        completed' := completed' + {n};
      }
    }
  }

  /** A wave that completes its ready nodes either completes a new key or,
      when every ready node had already completed, leaves a ready list
      holding none of the completed nodes. */
  lemma WaveProgress(keys: set<Handle>, completed: set<Handle>, ready: set<Handle>,
                     completed': set<Handle>, ready': set<Handle>)
    requires ready != {} && ready <= keys && completed' == completed + ready
    requires forall n :: n in ready' ==> n !in completed'
    ensures ready' * completed' == {}
    ensures keys - completed' < keys - completed || (keys - completed' == keys - completed && ready * completed != {})
  {
    if ready <= completed {
      assert completed' == completed;
    } else {
      var n :| n in ready && n !in completed;
      assert n in keys - completed && n !in keys - completed';
    }
  }

  /** The state of the `while ready_nodes` loop of `_orch`: the nodes
      `completed` ran as `Ran` says, the start node kept its action `a`, the
      ready list holds keys whose dependencies have all completed and, less
      the completed nodes, is exactly their frontier; and the trace ran wave
      by wave up to its end. */
  ghost predicate Looping(deps: map<Handle, set<Handle>>, start: Handle, a: string, p: Params, step: Step, shared0: Shared,
                          completed: set<Handle>, ready: set<Handle>, actionMap: map<Handle, string>,
                          shared: Shared, trace: seq<Execution>, cuts: seq<nat>)
  {
    && start in completed && completed <= deps.Keys && ready <= deps.Keys
    && Ran(deps, start, step, p, shared0, completed, actionMap, shared, trace)
    && start in actionMap && actionMap[start] == a
    && (forall n :: n in ready ==> deps[n] <= completed)
    && ready - completed == Frontier(deps, completed)
    && WaveCuts(deps, trace, cuts) && |cuts| > 0 && cuts[|cuts| - 1] == |trace|
  }

  /** After a normal pass and the recomputed ready list, the loop state
      holds again and the loop has made progress. */
  lemma LoopingNext(deps: map<Handle, set<Handle>>, start: Handle, a: string, p: Params, step: Step, shared0: Shared,
                    completed0: set<Handle>, ready0: set<Handle>, completed: set<Handle>, ready: set<Handle>,
                    actionMap: map<Handle, string>, shared: Shared, trace: seq<Execution>, cuts: seq<nat>)
    requires start in completed0 && completed0 <= deps.Keys && ready0 <= deps.Keys && ready0 != {}
    requires completed == completed0 + ready0 && ready == Frontier(deps, completed)
    requires Ran(deps, start, step, p, shared0, completed, actionMap, shared, trace)
    requires start in actionMap && actionMap[start] == a
    requires WaveCuts(deps, trace, cuts) && |cuts| > 0 && cuts[|cuts| - 1] == |trace|
    ensures Looping(deps, start, a, p, step, shared0, completed, ready, actionMap, shared, trace, cuts)
    ensures ready * completed == {}
    ensures deps.Keys - completed < deps.Keys - completed0
            || (deps.Keys - completed == deps.Keys - completed0 && ready0 * completed0 != {})
  {
    WaveProgress(deps.Keys, completed0, ready0, completed, ready);
  }

  /** One pass of the `while ready_nodes` loop over the ready list, with
      the wave bookkeeping: a normal pass completes the ready list and ends
      with a cut at the end of the trace; a raising pass stops inside the
      wave after the last cut. */
  method Round(deps: map<Handle, set<Handle>>, start: Handle, a: string, p: Params, step: Step, shared0: Shared,
               completed: set<Handle>, ready: set<Handle>, actionMap: map<Handle, string>,
               shared: Shared, ghost trace: seq<Execution>, ghost cuts: seq<nat>)
    returns (raised: Option<Exception>, completed': set<Handle>, actionMap': map<Handle, string>,
             shared': Shared, ghost trace': seq<Execution>, ghost cuts': seq<nat>)
    requires Looping(deps, start, a, p, step, shared0, completed, ready, actionMap, shared, trace, cuts)
    ensures Ran(deps, start, step, p, shared0, completed', actionMap', shared', trace')
    ensures start in actionMap' && actionMap'[start] == a
    ensures raised.Some? ==>
              && ByWaves(deps, trace', cuts') && RaisedInWave(deps, trace', cuts', step, p, shared', raised.value)
              && exists n :: && n in deps && n !in Nodes(trace') && deps[n] <= Nodes(trace')
                             && step(n, p, shared') == Raised(raised.value)
    ensures raised.None? ==>
              && completed' == completed + ready
              && WaveCuts(deps, trace', cuts') && |cuts'| > 0 && cuts'[|cuts'| - 1] == |trace'|
  {
    cuts' := cuts;
    raised, completed', actionMap', shared', trace' := Wave(deps, start, step, p, shared0, ready, completed, actionMap, shared, trace);
    WaveCutsExtend(deps, trace, trace', cuts);
    if raised.Some? {
      FrontierPass(completed, ready, Frontier(deps, completed), completed');
      ByWavesStop(deps, trace, trace', cuts, completed, completed');
      assert trace'[..cuts'[|cuts'| - 1]] == trace;
      return;
    }
    cuts' := CutNext(deps, trace, trace', cuts, completed, ready, completed');
  }

  /** The ready list recomputed after a wave (`ready_nodes = ...` up to
      `list(set(ready_nodes) - completed_nodes)`): the frontier of the
      completed nodes. */
  method NextReady(deps: map<Handle, set<Handle>>, rdeps: map<Handle, set<Handle>>, start: Handle,
                   ghost rank: map<Handle, nat>, completed: set<Handle>) returns (ready: set<Handle>)
    requires WellFormedDeps(deps, rdeps, start, rank) && start in completed
    ensures ready == Frontier(deps, completed)
  {
    ready := ReadyAfter(deps, rdeps, completed);
    ReadyIsFrontier(deps, rdeps, start, rank, completed);
  }

  /** A wave that completed all its ready nodes, whose pending part was the
      frontier, ends with a cut at the end of the trace. */
  lemma CutNext(deps: map<Handle, set<Handle>>, trace: seq<Execution>, trace': seq<Execution>, cuts: seq<nat>,
                completed: set<Handle>, ready: set<Handle>, completed': set<Handle>)
    returns (cuts': seq<nat>)
    requires ready - completed == Frontier(deps, completed) && completed' == completed + ready
    requires WaveCuts(deps, trace', cuts) && |cuts| > 0 && cuts[|cuts| - 1] == |trace|
    requires trace <= trace' && Nodes(trace) == completed && Nodes(trace') == completed'
    ensures WaveCuts(deps, trace', cuts') && |cuts'| > 0 && cuts'[|cuts'| - 1] == |trace'|
  {
    FrontierPass(completed, ready, Frontier(deps, completed), completed');
    assert trace'[..|trace'|] == trace' && trace'[..|trace|] == trace;
    WaveCutsSnoc(deps, trace', cuts, |trace'|);
    cuts' := cuts + [|trace'|];
  }

  /** The `while ready_nodes` loop of `_orch`, after the start node ran with
      action `a`: each wave runs the ready nodes, then the ready list is
      recomputed from the completed nodes. It stops at the first exception.
      The trace runs wave by wave, `cuts` marking where each wave ended.
      When it returns normally every key has run; when it raises, the
      raising key belongs to the wave in progress: it had not run and all
      its dependencies had run before that wave began. */
  method Waves(deps: map<Handle, set<Handle>>, rdeps: map<Handle, set<Handle>>, start: Handle, a: string,
               p: Params, step: Step, shared0: Shared, ghost rank: map<Handle, nat>)
    returns (raised: Option<Exception>, actionMap: map<Handle, string>, shared: Shared,
             ghost trace: seq<Execution>, ghost cuts: seq<nat>)
    requires WellFormedDeps(deps, rdeps, start, rank) && step(start, p, shared0).Returned?
    ensures shared == shared0 + trace && DepOrder(deps, start, step, p, shared0, trace)
    ensures ByWaves(deps, trace, cuts)
    ensures actionMap.Keys == Nodes(trace) && start in actionMap && actionMap[start] == a
    ensures raised.None? ==> Nodes(trace) == deps.Keys
    ensures raised.Some? ==> RaisedInWave(deps, trace, cuts, step, p, shared, raised.value)
  {
    actionMap := map[start := a];
    trace := [Execution(start, p)];
    shared := shared0 + [Execution(start, p)];
    DepOrderStart(deps, start, step, p, shared0);
    var completed := {start};
    var ready := set n | n in deps && deps[n] <= completed;
    cuts := [1];
    assert ready - completed == Frontier(deps, completed);

    while ready != {}
      invariant Looping(deps, start, a, p, step, shared0, completed, ready, actionMap, shared, trace, cuts)
      decreases deps.Keys - completed, if ready * completed == {} then 0 else 1
    {
      ghost var completed0, ready0 := completed, ready;
      raised, completed, actionMap, shared, trace, cuts :=
        Round(deps, start, a, p, step, shared0, completed, ready, actionMap, shared, trace, cuts);
      if raised.Some? {
        return;
      }
      ready := NextReady(deps, rdeps, start, rank, completed);
      LoopingNext(deps, start, a, p, step, shared0, completed0, ready0, completed, ready, actionMap, shared, trace, cuts);
    }

    assert forall n :: n in deps && deps[n] <= completed ==> n in completed by {
      assert Frontier(deps, completed) == {};
    }
    AllRun(deps, rdeps, start, rank, completed);
    ByWavesStop(deps, trace, trace, cuts, completed, completed);
    raised := None;
  }

  /** A non-empty sequence is its prefix followed by its last element. */
  lemma SplitLast<T>(s: seq<T>)
    requires |s| > 0
    ensures s == s[..|s| - 1] + [s[|s| - 1]]
  {
  }

  /** The start node's execution alone is in wave order when the start
      node is a node of the graph, no edge enters it and it returned. */
  lemma WaveOrderStart(nodes: set<Handle>, edges: set<Edge>, start: Handle, step: Step, p: Params, shared0: Shared)
    requires start in nodes && forall a :: (a, start) !in edges
    requires step(start, p, shared0).Returned?
    ensures WaveOrder(nodes, edges, start, step, p, shared0, [Execution(start, p)])
  {
    var t := [Execution(start, p)];
    assert t[..0] == [] && shared0 + t[..0] == shared0;
  }

  /** Appending a node of the graph that has not run, whose predecessors
      have all run and which returned keeps a trace in wave order. */
  lemma WaveOrderExtend(nodes: set<Handle>, edges: set<Edge>, start: Handle, step: Step, p: Params,
                        shared0: Shared, trace: seq<Execution>, n: Handle)
    requires WaveOrder(nodes, edges, start, step, p, shared0, trace)
    requires n in nodes && n !in Nodes(trace)
    requires forall a :: (a, n) in edges ==> a in Nodes(trace)
    requires step(n, p, shared0 + trace).Returned?
    ensures WaveOrder(nodes, edges, start, step, p, shared0, trace + [Execution(n, p)])
  {
    var t := trace + [Execution(n, p)];
    NodesIndex(trace);
    assert t[..|trace|] == trace;
    forall i | 0 <= i < |trace|
      ensures t[i] == trace[i] && t[..i] == trace[..i]
    {
    }
    forall i, j | 0 <= i < j < |t|
      ensures t[i].node != t[j].node
    {
      if j == |trace| {
        assert trace[i].node in Nodes(trace);
      }
    }
  }

  /** A trace in dependency order over the built maps is in wave order over
      the graph, and a key pending with its dependencies run is a node of
      the graph pending with its dependencies run. */
  lemma {:induction false} DepOrderIsWaveOrder(g: seq<Table>, rank: map<Handle, nat>, start: Handle, action: Option<string>,
                            deps: map<Handle, set<Handle>>, rdeps: map<Handle, set<Handle>>,
                            step: Step, p: Params, shared0: Shared, trace: seq<Execution>)
    requires Built(g, rank, start, action, deps, rdeps)
    requires DepOrder(deps, start, step, p, shared0, trace)
    ensures WaveOrder(GraphNodes(g, rank, start, action), GraphEdges(g, rank, start, action), start, step, p, shared0, trace)
    ensures forall n :: n in deps && deps[n] <= Nodes(trace) ==>
              forall a :: (a, n) in GraphEdges(g, rank, start, action) ==> a in Nodes(trace)
    decreases |trace|
  {
    if |trace| <= 1 {
      assert forall a :: a !in deps[start];
      WaveOrderStart(deps.Keys, GraphEdges(g, rank, start, action), start, step, p, shared0);
    } else {
      var prefix, n := trace[..|trace| - 1], trace[|trace| - 1].node;
      DepOrderIsWaveOrder(g, rank, start, action, deps, rdeps, step, p, shared0, prefix);
      forall a | (a, n) in GraphEdges(g, rank, start, action)
        ensures a in Nodes(prefix)
      {
        assert a in deps[n];
      }
      WaveOrderExtend(deps.Keys, GraphEdges(g, rank, start, action), start, step, p, shared0, prefix, n);
      SplitLast(trace);
    }
  }

  // ---------------------------------------------------------------------
  // Batches

  /** The store after the runs `runs`, starting from `shared0`. */
  function LastShared(shared0: Shared, runs: seq<RunResult>): Shared
  {
    if runs == [] then shared0 else runs[|runs| - 1].shared
  }

  /** `runs` ran one after the other, each on the store the runs before it
      left, and every run but the last returned; `ok(i, before, run)` says
      what the `i`-th run is, given the store `before` it ran on. */
  ghost predicate Chain(ok: (nat, Shared, RunResult) -> bool, shared0: Shared, runs: seq<RunResult>)
    decreases |runs|
  {
    runs != [] ==>
      var k := |runs| - 1;
      && Chain(ok, shared0, runs[..k])
      && (k > 0 ==> runs[k - 1].result.Returned?)
      && ok(k, LastShared(shared0, runs[..k]), runs[k])
  }

  /** Spelled out run by run: every run satisfies `ok` on the store the runs
      before it left. */
  lemma {:induction false} ChainEach(ok: (nat, Shared, RunResult) -> bool, shared0: Shared, runs: seq<RunResult>)
    requires Chain(ok, shared0, runs)
    ensures forall i :: 0 <= i < |runs| ==> ok(i, LastShared(shared0, runs[..i]), runs[i])
    decreases |runs|
  {
    if runs != [] {
      var k := |runs| - 1;
      var prefix := runs[..k];
      ChainEach(ok, shared0, prefix);
      forall i | 0 <= i < k
        ensures ok(i, LastShared(shared0, runs[..i]), runs[i])
      {
        assert runs[i] == prefix[i] && runs[..i] == prefix[..i];
      }
    }
  }

  /** Every run of a chain but the last returned. */
  lemma {:induction false} ChainReturned(ok: (nat, Shared, RunResult) -> bool, shared0: Shared, runs: seq<RunResult>)
    requires Chain(ok, shared0, runs)
    ensures forall i :: 0 <= i < |runs| - 1 ==> runs[i].result.Returned?
    decreases |runs|
  {
    if runs != [] {
      var k := |runs| - 1;
      var prefix := runs[..k];
      ChainReturned(ok, shared0, prefix);
      forall i | 0 <= i < k - 1
        ensures runs[i].result.Returned?
      {
        assert runs[i] == prefix[i];
      }
    }
  }

  /** A run that follows the runs of a chain, all of which returned, on the
      store they left, extends the chain. */
  lemma ChainSnoc(ok: (nat, Shared, RunResult) -> bool, shared0: Shared, runs: seq<RunResult>, run: RunResult)
    requires Chain(ok, shared0, runs) && (runs != [] ==> runs[|runs| - 1].result.Returned?)
    requires ok(|runs|, LastShared(shared0, runs), run)
    ensures Chain(ok, shared0, runs + [run]) && LastShared(shared0, runs + [run]) == run.shared
  {
    assert (runs + [run])[..|runs|] == runs;
  }

  /** How a batch of `n` orchestrations ended: the runs form a chain, the
      store is the one the last run left, the batch returned nothing exactly
      when all `n` runs took place and none raised, and otherwise it raised
      the last run's exception. */
  ghost predicate BatchEnded(ok: (nat, Shared, RunResult) -> bool, shared0: Shared, n: nat,
                             runs: seq<RunResult>, r: BatchResult)
  {
    && Chain(ok, shared0, runs)
    && r.shared == LastShared(shared0, runs)
    && (r.result.Returned? <==> |runs| == n && (runs == [] || runs[|runs| - 1].result.Returned?))
    && (r.result.Returned? ==> r.result.value == None)
    && (r.result.Raised? ==> runs != [] && runs[|runs| - 1].result == Raised(r.result.error))
  }

  /** A batch whose runs all returned ends returning nothing. */
  lemma BatchCompletes(ok: (nat, Shared, RunResult) -> bool, shared0: Shared, runs: seq<RunResult>)
    requires Chain(ok, shared0, runs) && (runs != [] ==> runs[|runs| - 1].result.Returned?)
    ensures BatchEnded(ok, shared0, |runs|, runs, BatchResult(Returned(None), LastShared(shared0, runs)))
  {
  }

  /** A batch whose last run raised ends raising its exception. */
  lemma BatchAborts(ok: (nat, Shared, RunResult) -> bool, shared0: Shared, n: nat, runs: seq<RunResult>)
    requires Chain(ok, shared0, runs) && runs != [] && runs[|runs| - 1].result.Raised?
    ensures BatchEnded(ok, shared0, n, runs,
                       BatchResult(Raised(runs[|runs| - 1].result.error), runs[|runs| - 1].shared))
  {
  }

  /** What the `i`-th orchestration of a batch is: `_orch` from `start` with
      the flow's parameters `own` overridden by the `i`-th dictionary. */
  ghost function BatchStep(g: seq<Table>, rank: map<Handle, nat>, start: Handle, own: Params, batch: seq<Params>,
                           step: Step): (nat, Shared, RunResult) -> bool
  {
    (i: nat, before: Shared, run: RunResult) =>
      i < |batch| && Scheduled(g, rank, start, MergedParams(own, batch[i]), step, before, run)
  }

  // ---------------------------------------------------------------------
  // The flow

  /** A flow: its start node and its own parameters. */
  class Flow {
    var startNode: Handle
    var params: Params

    /** `Flow(start)`: no parameters yet. */
    constructor (start: Handle)
      ensures startNode == start && params == map[]
    {
      startNode := start;
      params := map[];
    }

    /** `flow.start(node)`: sets the start node and returns it. */
    method Start(start: Handle) returns (r: Handle)
      modifies this
      ensures startNode == start && r == start && params == old(params)
    {
      startNode := start;
      r := start;
    }

    /** `set_params(p)`. */
    method SetParams(p: Params)
      modifies this
      ensures params == p && startNode == old(startNode)
    {
      params := p;
    }

    /** `Flow._orch(shared, params)` on the arena `g`: the `Scheduled`
        outcome, with the parameters `params or {**self.params}`. */
    method Orch(g: seq<Table>, shared0: Shared, paramsArg: Option<Params>, step: Step, ghost rank: map<Handle, nat>)
      returns (r: RunResult)
      requires StartFollowable(g, rank, startNode, EffectiveParams(params, paramsArg), step, shared0)
      ensures Scheduled(g, rank, startNode, EffectiveParams(params, paramsArg), step, shared0, r)
    {
      var p := EffectiveParams(params, paramsArg);
      var start := startNode;
      // execute_node(start)
      var first := step(start, p, shared0);
      if first.Raised? {
        return RunResult(Raised(first.error), shared0);
      }
      var a := Normalize(first.value);
      var deps, rdeps := Build(g, start, map[start := a], rank);
      BuiltWellFormed(g, rank, start, Some(a), deps, rdeps);
      var raised, actionMap, shared, trace, cuts := Waves(deps, rdeps, start, a, p, step, shared0, rank);
      BuiltDeps(g, rank, start, Some(a), deps, rdeps);
      DepOrderIsWaveOrder(g, rank, start, Some(a), deps, rdeps, step, p, shared0, trace);
      assert shared[..|shared0|] == shared0 && shared[|shared0|..] == trace;
      if raised.Some? {
        return RunResult(Raised(raised.value), shared);
      }
      r := RunResult(Returned(actionMap[start]), shared);
    }

    /** `Flow._run(shared)`: `_orch` with the flow's own parameters; the
        default `post` passes its result through. */
    method Run(g: seq<Table>, shared0: Shared, step: Step, ghost rank: map<Handle, nat>) returns (r: RunResult)
      requires StartFollowable(g, rank, startNode, params, step, shared0)
      ensures Scheduled(g, rank, startNode, params, step, shared0, r)
    {
      r := Orch(g, shared0, None, step, rank);
    }

    /** One orchestration of a batch: `_orch` with the flow's parameters
        overridden by `overrides`. */
    method BatchItem(g: seq<Table>, shared0: Shared, overrides: Params, step: Step, ghost rank: map<Handle, nat>)
      returns (r: RunResult)
      requires StartFollowable(g, rank, startNode, MergedParams(params, overrides), step, shared0)
      ensures Scheduled(g, rank, startNode, MergedParams(params, overrides), step, shared0, r)
    {
      BatchParamsUsed(params, overrides);
      r := Orch(g, shared0, Some(MergedParams(params, overrides)), step, rank);
    }

    /** `BatchFlow._run(shared)`: one `_orch` per parameter dictionary that
        `prep` prepared (none when it prepared nothing), each with the flow's
        parameters overridden by that dictionary and each on the store the
        previous one left; the first exception aborts the batch; the default
        `post` then returns nothing. `runs` lists the orchestrations that
        took place. */
    method BatchRun(g: seq<Table>, shared0: Shared, prepared: Option<seq<Params>>, step: Step, ghost rank: map<Handle, nat>)
      returns (r: BatchResult, ghost runs: seq<RunResult>)
      requires var batch := if prepared.Some? then prepared.value else [];
        forall runs: seq<RunResult> {:trigger Chain(BatchStep(g, rank, startNode, params, batch, step), shared0, runs)} ::
          && |runs| < |batch|
          && Chain(BatchStep(g, rank, startNode, params, batch, step), shared0, runs)
          && (runs != [] ==> runs[|runs| - 1].result.Returned?)
          ==> StartFollowable(g, rank, startNode, MergedParams(params, batch[|runs|]), step, LastShared(shared0, runs))
      ensures var batch := if prepared.Some? then prepared.value else [];
        && Chain(BatchStep(g, rank, startNode, params, batch, step), shared0, runs)
        && r.shared == LastShared(shared0, runs)
        && (r.result.Returned? <==> |runs| == |batch| && (runs == [] || runs[|runs| - 1].result.Returned?))
        && (r.result.Returned? ==> r.result.value == None)
        && (r.result.Raised? ==> runs != [] && runs[|runs| - 1].result == Raised(r.result.error))
    {
      var batch := if prepared.Some? then prepared.value else [];
      r, runs := BatchLoop(g, shared0, batch, step, rank);
    }

    /** The loop of `BatchFlow._run` over the prepared parameter
        dictionaries `batch`. */
    method BatchLoop(g: seq<Table>, shared0: Shared, batch: seq<Params>, step: Step, ghost rank: map<Handle, nat>)
      returns (r: BatchResult, ghost runs: seq<RunResult>)
      requires forall runs: seq<RunResult> {:trigger Chain(BatchStep(g, rank, startNode, params, batch, step), shared0, runs)} ::
                 && |runs| < |batch|
                 && Chain(BatchStep(g, rank, startNode, params, batch, step), shared0, runs)
                 && (runs != [] ==> runs[|runs| - 1].result.Returned?)
                 ==> StartFollowable(g, rank, startNode, MergedParams(params, batch[|runs|]), step, LastShared(shared0, runs))
      ensures BatchEnded(BatchStep(g, rank, startNode, params, batch, step), shared0, |batch|, runs, r)
    {
      ghost var ok := BatchStep(g, rank, startNode, params, batch, step);
      var shared := shared0;
      runs := [];
      var i := 0;
      while i < |batch|
        invariant 0 <= i <= |batch| && |runs| == i
        invariant Chain(ok, shared0, runs)
        invariant runs != [] ==> runs[|runs| - 1].result.Returned?
        invariant shared == LastShared(shared0, runs)
      {
        var run := BatchItem(g, shared, batch[i], step, rank);
        ChainSnoc(ok, shared0, runs, run);
        runs := runs + [run];
        shared := run.shared;
        if run.result.Raised? {
          BatchAborts(ok, shared0, |batch|, runs);
          return BatchResult(Raised(run.result.error), shared), runs;
        }
        i := i + 1;
      }
      BatchCompletes(ok, shared0, runs);
      r := BatchResult(Returned(None), shared);
    }
  }
}
