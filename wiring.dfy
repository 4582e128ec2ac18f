/** Edge wiring: every node owns a successor table that maps an action label
    to the ordered list of nodes registered under it. Nodes live in an arena
    and are named by their index (a handle), so two structurally equal nodes
    are still distinct, as Python object identity makes them. */
module Wiring {
  import opened Outcomes

  type Handle = nat

  /** One node's successor table: action label to the ordered successor list. */
  type Table = map<string, seq<Handle>>

  /** The label used when an edge or a post result carries no label. */
  const DEFAULT_ACTION: string := "default"

  /** Python's `action or "default"`: a missing or empty label becomes "default". */
  function Normalize(action: Option<string>): (r: string)
    ensures r != ""
    ensures action.Some? && action.value != "" ==> r == action.value
    ensures action.None? || action.value == "" ==> r == DEFAULT_ACTION
  {
    if action.Some? && action.value != "" then action.value else DEFAULT_ACTION
  }

  /** `successors.get(lbl, [])`. */
  function Lookup(t: Table, lbl: string): seq<Handle>
  {
    if lbl in t then t[lbl] else []
  }

  /** The table after `next(node, lbl)`: the label's list, created empty when
      absent, gains `node` at its end; every other label keeps its list. */
  function Appended(t: Table, lbl: string, node: Handle): (r: Table)
    ensures r.Keys == t.Keys + {lbl}
    ensures r[lbl] == Lookup(t, lbl) + [node]
    ensures forall l :: l in t && l != lbl ==> r[l] == t[l]
  {
    t[lbl := Lookup(t, lbl) + [node]]
  }

  /** The result of `get_next_nodes`: the successor list and whether the
      "Flow ends" warning was emitted. */
  datatype NextNodes = NextNodes(nodes: seq<Handle>, warned: bool)

  /** `Flow.get_next_nodes(curr, action)` on the node's table `t`. */
  function GetNextNodes(t: Table, action: Option<string>): (r: NextNodes)
    ensures Normalize(action) in t ==> r.nodes == t[Normalize(action)]
    ensures Normalize(action) !in t ==> r.nodes == []
    ensures r.warned <==> r.nodes == [] && t != map[]
  {
    var nodes := Lookup(t, Normalize(action));
    NextNodes(nodes, nodes == [] && t != map[])
  }

  /** The pending edge `src - action` waiting for its target. */
  datatype Transition = Transition(src: Handle, action: string)

  /** `src - action`: only a string is accepted as a label. */
  function Sub(src: Handle, action: PyValue): (r: Outcome<Transition>)
    ensures r.Returned? <==> action.PyStr?
    ensures r.Returned? ==> r.value.src == src && r.value.action == action.s
    ensures r.Raised? ==> r.error == Exception("TypeError", "Action must be a string")
  {
    if action.PyStr? then Returned(Transition(src, action.s))
    else Raised(Exception("TypeError", "Action must be a string"))
  }

  /** The arena of nodes with their successor tables. */
  class Graph {
    var tables: seq<Table>

    /** Every registered successor is a node of the arena. */
    ghost predicate Valid()
      reads this
    {
      forall u, l, i :: 0 <= u < |tables| && l in tables[u] && 0 <= i < |tables[u][l]| ==> tables[u][l][i] < |tables|
    }

    constructor ()
      ensures Valid() && tables == []
    {
      tables := [];
    }

    /** `BaseNode.__init__`: a fresh node with an empty successor table. */
    method AddNode() returns (h: Handle)
      requires Valid()
      modifies this
      ensures Valid()
      ensures h == |old(tables)| && tables == old(tables) + [map[]]
    {
      h := |tables|;
      tables := tables + [map[]];
    }

    /** `src.next(node, action)`: appends `node` under `action` and returns it. */
    method Next(src: Handle, node: Handle, action: string := DEFAULT_ACTION) returns (r: Handle)
      requires Valid() && src < |tables| && node < |tables|
      modifies this
      ensures Valid()
      ensures r == node
      ensures tables == old(tables)[src := Appended(old(tables)[src], action, node)]
    {
      tables := tables[src := Appended(tables[src], action, node)];
      r := node;
    }

    /** `src >> node`: `next` under the default label. */
    method Shift(src: Handle, node: Handle) returns (r: Handle)
      requires Valid() && src < |tables| && node < |tables|
      modifies this
      ensures Valid()
      ensures r == node
      ensures tables == old(tables)[src := Appended(old(tables)[src], DEFAULT_ACTION, node)]
    {
      r := Next(src, node);
    }

    /** `(src - action) >> tgt`: `next` under the transition's label. */
    method ShiftTransition(tr: Transition, tgt: Handle) returns (r: Handle)
      requires Valid() && tr.src < |tables| && tgt < |tables|
      modifies this
      ensures Valid()
      ensures r == tgt
      ensures tables == old(tables)[tr.src := Appended(old(tables)[tr.src], tr.action, tgt)]
    {
      r := Next(tr.src, tgt, tr.action);
    }
  }

  /** After `next(node, a)`, looking up `a` yields the old list with `node` at
      its end and never warns; a lookup of any other label returns the same
      list as before and now warns exactly when that list is empty. */
  lemma NextThenGetNextNodes(t: Table, a: string, node: Handle)
    requires a != ""
    ensures GetNextNodes(Appended(t, a, node), Some(a))
         == NextNodes(GetNextNodes(t, Some(a)).nodes + [node], false)
    ensures forall action :: Normalize(action) != a ==>
              GetNextNodes(Appended(t, a, node), action)
              == NextNodes(GetNextNodes(t, action).nodes, GetNextNodes(t, action).nodes == [])
  {
    var r := Appended(t, a, node);
    assert Normalize(Some(a)) == a;
    assert r != map[] by { assert a in r; }
    forall action | Normalize(action) != a
      ensures GetNextNodes(r, action) == NextNodes(GetNextNodes(t, action).nodes, GetNextNodes(t, action).nodes == [])
    {
      var l := Normalize(action);
      if l in t {
        assert r[l] == t[l];
      } else {
        assert l !in r;
      }
    }
  }
}
