# packflow core, modelled in Dafny

This project models the core of `packflow`, a small in-process workflow
engine, and proves properties of that model. In `packflow`, nodes are wired into
a graph by labelled edges ("actions"). A `Flow` runs its start node, uses
the action that node returned to discover the part of the graph that
depends on it, and then runs that part wave by wave. Each node runs at most
once, and only after every node it depends on has run.

The model has five modules, one file each:

- `outcomes.dfy` (`Outcomes`): the values shared by the other modules.
  - `Option`.
  - A Python exception (class name and message).
  - `Outcome`: either a returned value or a raised exception.
  - The few Python values the engine inspects.
- `wiring.dfy` (`Wiring`): each node's successor table.
  - Nodes live in an arena and are named by integer handles, so two equal-looking nodes stay distinct, as Python object identity keeps them.
  - `next`, `>>`, `-` and `get_next_nodes` are modelled here.
- `retry.dfy` (`Retry`): `Node._exec` and `BatchNode._exec`.
  - The user's `exec` is an oracle giving the outcome of attempt `k` on an input. `exec_fallback` is an oracle taking the input and the last exception.
  - `time.sleep` becomes a `Sleep` event in a log of attempts, sleeps and fallback calls.
  - The loop in `Node.Exec` updates `curRetry` as the source does. It is proved equal to the reference function `RetryRun`, and the promised counts are proved as lemmas about `RetryRun`.
- `depgraph.dfy` (`DependencyGraph`): `_build_dependency_graph`.
  - `add_dependency` is a method of a `Builder` class that fills the two maps in place. Its recursion is kept as written, without a visited guard.
  - Each method is proved to produce the reference node and edge sets `GraphNodes` and `GraphEdges`.
  - Those sets are defined by recursion over a rank that strictly decreases along every followed edge. The rank is the acyclicity witness. On a cycle the source's recursion raises `RecursionError` instead; the model requires the rank there.
- `scheduler.dfy` (`Scheduler`): `Flow._orch`, `Flow._run`, `Flow.post` and `BatchFlow._run`.
  - A node's work (`prep`, `_exec` and `post` of a fresh copy carrying the run's parameters) is a `Step` oracle. It is given the node, the parameters and the shared store, and returns the node's action or raises.
  - The shared store is modelled as the log of completed node executions, so a node's outcome may depend on everything that ran before it.
  - The wave loop is proved against `Scheduled`, a specification over the graph:
    - the executions appended to the store begin with the start node, repeat nothing, stay inside the graph and follow every dependency edge;
    - a normal return has run every node of the graph and returns the start node's action;
    - the log splits into waves: wave 0 is the start node, and each later wave runs exactly the nodes whose dependencies all lie in the earlier waves (`ByWaves`); `CutsAreLayers` proves that wave `j` ends having run exactly `Layer(j)`, the start node grown `j` times by every node whose dependencies it already holds;
    - a raise comes from a node of the wave in progress, one that is in the frontier at the last cut and had not run yet.

The builder's recursion follows the code. There is no visited guard: the
code at `packflow/__init__.py:132-139` calls `add_dependency(succ)`
unconditionally, so a node met along two paths is expanded again.
Re-expansion leaves the sets unchanged. On a cycle the recursion goes on
until Python's recursion limit raises `RecursionError`. The model requires
acyclicity where the source raises, and shows that the result is the same
set of nodes and edges.

A wave's nodes run one after another on the same store
(`packflow/__init__.py:174-177`), so a node also sees the writes of the
nodes that ran before it in the same wave. The model follows the code:
every step is given the whole log so far.

## Model

| member | source | states |
|---|---|---|
| Wiring.Normalize | packflow/__init__.py:107 | A missing or empty action becomes `"default"`, any other action is kept, and the result is never empty. |
| Wiring.Appended | packflow/__init__.py:13-17 | After `next(node, lbl)` the label exists, its list is the old list (empty if the label was absent) with `node` at its end, and every other label keeps its list. |
| Wiring.GetNextNodes | packflow/__init__.py:105-113 | Returns the list registered under the normalized action, or `[]` when it is absent. It warns exactly when the result is empty and the node has at least one label. |
| Wiring.Sub | packflow/__init__.py:49-52 | `src - action` gives a transition carrying `src` and the label exactly when the action is a string. Otherwise it raises `TypeError("Action must be a string")`. |
| Wiring.Graph.AddNode | packflow/__init__.py:7-8 | A new node gets a fresh handle and an empty successor table. Existing nodes are unchanged. |
| Wiring.Graph.Next | packflow/__init__.py:13-17 | Returns `node`. Only the source node's table changes, and it becomes `Appended` of the old table. |
| Wiring.Graph.Shift | packflow/__init__.py:46-47 | `src >> node` is `next` under `"default"` and returns `node`. |
| Wiring.Graph.ShiftTransition | packflow/__init__.py:55-60 | `(src - a) >> tgt` is `next(tgt, a)` on `src` and returns `tgt`. |
| Wiring.NextThenGetNextNodes | packflow/__init__.py:105-113 | After `next(node, a)`, looking up `a` gives the old list plus `node` and never warns. Any other label gives the same list as before and now warns exactly when that list is empty. |
| Retry.DefaultFallback | packflow/__init__.py:68-69 | The default `exec_fallback` raises the exception it is given, unchanged. |
| Retry.RetryFrom | packflow/__init__.py:72-79 | From attempt `k` on, the model's `None` result (no attempt made) appears exactly when no attempt is left, and otherwise the first event is attempt `k`. |
| Retry.RetryRun | packflow/__init__.py:71-79 | The model's `None` result, meaning that no attempt was made and `_exec` fell off the end of its loop, appears exactly when `max_retries <= 0`; otherwise the first event is attempt 0. A Python `None` returned by `exec` or `exec_fallback` is a value, `Some(v)`. |
| Retry.Node.constructor | packflow/__init__.py:64-66 | A node stores its `max_retries` and `wait`, which default to 1 and 0. |
| Retry.Node.Exec | packflow/__init__.py:71-79 | The loop's result and event log equal the reference `RetryRun`. `cur_retry` ends at the index of the last attempt made, or is untouched when `max_retries <= 0`. |
| Retry.SuccessFrom | packflow/__init__.py:72-79 | From attempt `k` on, a first success at attempt `n` is returned after `n - k + 1` attempts and `n - k` sleeps (none when `wait <= 0`), with no fallback call. |
| Retry.SuccessAfterFailures | packflow/__init__.py:71-79 | A first success at attempt index `n` is returned at once. There were `n + 1` calls to `exec`, `n` sleeps when `wait > 0` (none otherwise), and no fallback call. |
| Retry.ExhaustedFrom | packflow/__init__.py:72-79 | From attempt `k` on, if every remaining attempt fails, the fallback runs once and last, with the final attempt's exception, and its outcome is the result. |
| Retry.AllAttemptsFail | packflow/__init__.py:71-79 | If all `max_retries >= 1` attempts fail, `exec` ran `max_retries` times and `sleep` ran `max_retries - 1` times when `wait > 0`. `exec_fallback` ran exactly once, last, with the last exception, and its outcome is the result. |
| Retry.DefaultFallbackReraises | packflow/__init__.py:68-69 | With the default `exec_fallback`, exhausting the attempts re-raises the last attempt's exception unchanged. |
| Retry.BoundsFrom | packflow/__init__.py:72-79 | From attempt `k` on, at most `max_retries - k` attempts and at most one fallback call are made, and every sleep is followed by another attempt. |
| Retry.RetryBounds | packflow/__init__.py:71-79 | In every run, `exec` is called at most `max(0, max_retries)` times and the fallback at most once. No sleep follows the final attempt. With `max_retries <= 0`, nothing runs and the result is `None`. |
| Retry.BatchItems | packflow/__init__.py:92-93 | The result is a list of the same length as the items, where element `i` is the retrying step on item `i`, exactly when every item's step returns. Otherwise it raises the exception of the first item whose step raised. |
| Retry.BatchExec | packflow/__init__.py:92-93 | `None` or an empty list of items gives `[]`. |
| DependencyGraph.OutIsNextNodes | packflow/__init__.py:125-130 | Under a non-empty action, the start node follows exactly the nodes that `get_next_nodes` returns for that action. |
| DependencyGraph.ReachClosed | packflow/__init__.py:119-139 | The nodes registered by `add_dependency(u)` (all labels) are closed under successors. |
| DependencyGraph.ReachEdgesShape | packflow/__init__.py:119-139 | The edges recorded by `add_dependency(u)` are exactly the pairs (registered node, one of its successors). |
| DependencyGraph.ReachRanked | packflow/__init__.py:119-139 | Every node registered by `add_dependency(u)` is ranked no higher than `u`, so the recursion terminates. |
| DependencyGraph.StartNotRevisited | packflow/__init__.py:141-142 | Under acyclicity, the start node is never reached again, so it is expanded only with its own action. |
| DependencyGraph.EdgeShape | packflow/__init__.py:115-143 | The recorded edges are exactly: from the start node to the successors of its action, and from every other discovered node to its successors under all labels. |
| DependencyGraph.DependencyStructure | packflow/__init__.py:115-143 | Every edge joins two discovered nodes and never enters the start node, and every node other than the start node has an edge into it. |
| DependencyGraph.Builder.constructor | packflow/__init__.py:116-117 | Both maps start empty. |
| DependencyGraph.Builder.Register | packflow/__init__.py:120-123 | Adds the node as a key of both maps with an empty set, if it is not one yet. Existing entries are kept. |
| DependencyGraph.Builder.Link | packflow/__init__.py:137-138 | `dependencies[succ]` gains `node`, `reverse_deps[node]` gains `succ`, and no key is added. |
| DependencyGraph.Builder.AddDependency | packflow/__init__.py:119-139 | `add_dependency(u, action)` adds `u` and every node reachable from the followed successors as keys, and adds exactly the corresponding edges to both maps. |
| DependencyGraph.Builder.LinkAll | packflow/__init__.py:132-139 | The loop over one label's list links and expands each listed successor in turn. |
| DependencyGraph.Builder.LinkNext | packflow/__init__.py:132-139 | One pass of that loop adds what the next listed successor reaches to what the earlier ones reached. |
| DependencyGraph.Builder.Visit | packflow/__init__.py:133-139 | One successor is registered, linked to its predecessor and expanded with all labels. This happens even when it was met before. |
| DependencyGraph.Build | packflow/__init__.py:115-143 | Both maps have the discovered nodes as keys and hold exactly the graph's edges, so `a in dependencies[b]` holds exactly when `b in reverse_deps[a]`. |
| Scheduler.EffectiveParams | packflow/__init__.py:147 | A non-empty explicit dictionary is used. A missing or empty one falls back to the flow's own parameters. |
| Scheduler.MergedParams | packflow/__init__.py:203 | `{**base, **bp}` has the keys of both, and an override wins over the base. |
| Scheduler.BatchParamsUsed | packflow/__init__.py:147 | A batch run's merged parameters are never replaced by the `or` fallback. |
| Scheduler.BuiltWellFormed | packflow/__init__.py:115-143 | In the built maps, the start node depends on nothing, both maps hold the same edges, and every other node depends on something ranked above it. |
| Scheduler.BuiltDeps | packflow/__init__.py:115-143 | The built `dependencies` map gives each discovered node exactly the sources of the graph's edges into it. |
| Scheduler.CutsAreLayers | packflow/__init__.py:166-185 | In a log run wave by wave from the start node, wave `j` ends having run exactly `Layer(j)`: the start node, then each time every node whose dependencies have all run. |
| Scheduler.RaiserInLayer | packflow/__init__.py:173-177 | A raise after the last of the `k` cuts comes from a node not yet run in the frontier of `Layer(k - 1)`, that is from the wave in progress and never from a later one. |
| Scheduler.FrontierOfGraph | packflow/__init__.py:166-185 | A frontier node over the dependencies read off the graph is a graph node that has not run and all of whose incoming edges come from nodes that have run, so a raise from the wave in progress comes from such a node. |
| Scheduler.ReadyIsFrontier | packflow/__init__.py:179-185 | The recomputed ready list is exactly the frontier of the completed nodes: the keys not yet completed whose dependencies have all completed. |
| Scheduler.ReadyAfter | packflow/__init__.py:179-185 | The recomputed ready list holds only keys that have not completed and whose dependencies have all completed. |
| Scheduler.ReadyAfterComplete | packflow/__init__.py:179-185 | The recomputed ready list misses no key that has not completed and whose dependencies have all completed. |
| Scheduler.ReadyNodeExists | packflow/__init__.py:173-185 | While some key has not run, some key that has not run has all its dependencies run. |
| Scheduler.AllRun | packflow/__init__.py:173 | When the loop stops with nothing ready, every key has run. |
| Scheduler.DepOrderExtend | packflow/__init__.py:174-177 | Running a pending key whose dependencies have all run keeps the execution log in dependency order. |
| Scheduler.ExecuteNode | packflow/__init__.py:149-160 | A node already in the action map is skipped. Otherwise it runs on the current store with the run's parameters and either raises, changing nothing, or has its normalized action recorded and its execution appended to the store. |
| Scheduler.Wave | packflow/__init__.py:174-177 | A pass over the ready nodes runs each one not yet completed, in any order. A normal pass completes exactly the ready nodes and keeps earlier actions. A raising pass stops at one of the ready nodes that had not completed before the pass, whose dependencies had all run. |
| Scheduler.Round | packflow/__init__.py:174-177 | One pass of the `while` loop keeps the log in dependency order and the start node's action. A normal pass completes the ready list and closes a wave at the end of the log. A raising pass leaves the log run wave by wave and raises from a node of the wave in progress: in the frontier at the last cut and not yet run. |
| Scheduler.CutNext | packflow/__init__.py:174-185 | A pass that ran exactly the frontier of the completed nodes closes one more wave. |
| Scheduler.NextReady | packflow/__init__.py:179-185 | The ready list recomputed after a wave is the frontier of the completed nodes. |
| Scheduler.LoopingNext | packflow/__init__.py:173-185 | After a normal pass and the recomputed ready list, the loop state holds again and the loop has made progress. |
| Scheduler.WaveProgress | packflow/__init__.py:173-185 | Each pass either completes a new key or leaves a ready list disjoint from the completed set, so the loop terminates. |
| Scheduler.Waves | packflow/__init__.py:166-185 | The loop keeps the log in dependency order with each node run at most once, runs it wave by wave (each wave is the frontier of the nodes run before it), keeps the start node's action, and either runs every key or raises from a node of the wave in progress: in the frontier at the last cut and not yet run. |
| Scheduler.DepOrderIsWaveOrder | packflow/__init__.py:164-185 | A log in dependency order over the built maps respects every edge of the graph built from the start node's action. |
| Scheduler.ChainEach | packflow/__init__.py:202-203 | Each batch run is the orchestration for its own overrides, on the store the runs before it left. |
| Scheduler.ChainReturned | packflow/__init__.py:202-203 | Every batch run but the last one returned. |
| Scheduler.ChainSnoc | packflow/__init__.py:202-203 | A further orchestration on the store the earlier runs left extends the batch, in sequence order. |
| Scheduler.Flow.constructor | packflow/__init__.py:97-99 | A flow stores its start node and has no parameters. |
| Scheduler.Flow.Start | packflow/__init__.py:101-103 | Sets the start node and returns it. The parameters are unchanged. |
| Scheduler.Flow.SetParams | packflow/__init__.py:10-11 | Replaces the parameters. The start node is unchanged. |
| Scheduler.Flow.Orch | packflow/__init__.py:145-187 | `_orch` meets `Scheduled`: the start node raising ends the run. Otherwise the log follows every dependency edge with no repeats and runs wave by wave over the graph's dependencies, a normal return ran the whole graph and returns the start node's action, and a raise comes from a node of the wave in progress (`RaisedInWave`): in the frontier of the nodes run before the last cut, not yet run, and raising that exception on the final store. |
| Scheduler.Flow.Run | packflow/__init__.py:189-196 | `_run` is `_orch` with the flow's own parameters, and the default `post` passes its result through. |
| Scheduler.Flow.BatchItem | packflow/__init__.py:202-203 | One orchestration of a batch is `_orch` with the flow's parameters overridden by the dictionary. |
| Scheduler.Flow.BatchLoop | packflow/__init__.py:202-203 | The loop runs the dictionaries in order, each on the previous run's store. It ends returning `None` exactly when all ran and returned, and otherwise raises the last run's exception. Followability is required only on the stores the earlier runs leave. |
| Scheduler.Flow.BatchRun | packflow/__init__.py:199-204 | There is one orchestration per prepared dictionary, in order, with the merged parameters, each on the previous run's store. It returns `None` exactly when every run returned; otherwise it raises the first exception. Each run's start action must lead into the acyclic part only for that run's parameters and only on a store the earlier runs of the batch can leave. |

## Left out

- `visualize.py`: diagram rendering. It only reads the graph.
- `time.sleep`: recorded as a `Sleep` event with its duration; no delay is modelled.
- `warnings.warn` in `get_next_nodes`: recorded as the `warned` flag.
- The warning of `BaseNode.run` (`packflow/__init__.py:41-44`) and the plain `BaseNode._run`: a node run outside a flow is not part of this model.
- `copy.copy` and `set_params` on each execution: each execution is a record of the node and the parameters it ran with. Shallow-copy aliasing is not modelled.
- The bodies of the nodes' `prep`, `exec` and `post`, and the content of the shared store: these are oracles. The store is the log of completed executions, so a node's partial writes before it raises are not represented.
- The `try`/`except: raise e` wrappers: they re-raise unchanged.
- Scheduler.Flow.Run and Scheduler.Flow.BatchRun use the default `prep` and `post` of `Flow`. `Run` leaves out the `self.prep(shared)` call at `packflow/__init__.py:190`, whose default does nothing, and both pass the result through `Flow.post` (`packflow/__init__.py:195-196`). A subclass that overrides the flow's own `prep` or `post` is not modelled. `BatchRun` takes what `prep` returned as its argument `prepared`.
- Nested flows used as nodes: a node's work is always a `Step` oracle call.
- A start node of `None`, and successor values that are not lists (`packflow/__init__.py:129-130`): the arena only holds handles, and `next` always builds lists.
- Cyclic graphs: on them the source's recursion in `_build_dependency_graph` raises `RecursionError`. The model requires a rank that decreases along every followed edge instead, so it does not model that exception.
- Python's recursion depth limit: the source also raises `RecursionError` on an acyclic chain of nodes deeper than about 1000. The model has no depth limit and returns normally there.
- Scheduler.ReadyAfter: it keeps only dependents that are keys of `dependencies`. In the source, a dependent that is not a key would raise `KeyError`. This cannot happen with the built maps, where both maps have the same keys.
- Scheduler.ExecuteNode: the `node in action_map` guard is modelled. In the source it is never taken by the wave loop, because `completed_nodes` already skips those nodes.
- Retry.Node.Exec: only errors that are `Exception` subclasses are modelled. The `except Exception` at `packflow/__init__.py:75` lets `KeyboardInterrupt`, `SystemExit` and other `BaseException`-only errors escape at once, without a retry or the fallback. The model retries every raised error.
- Retry.Node.Exec: the `exec` oracle is indexed by attempt number to stand for an `exec` whose outcome changes between calls. No other state of the node is modelled.
- `StartNode` and `TerminateNode` (`packflow/__init__.py:207-212`): empty subclasses of `Node`.
- Scheduler.Waves: within a wave the model allows any order. The source runs the first wave in the insertion order of `dependencies` (`packflow/__init__.py:169-171`), and later waves in the iteration order of `reverse_deps` sets and of `list(set(...))` (`packflow/__init__.py:179-185`), which depends on hashing.
- Wiring.Graph.Valid: the invariant the wiring methods keep. The builder and the scheduler do not rely on it: `TableOf` gives a handle outside the arena an empty table.
