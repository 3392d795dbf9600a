/**
 * Flows: the components and connection lines of a flow, the fragment that
 * is copied to and pasted from the clipboard, and the operations that
 * delete and reroute connection lines. Components and lines are values
 * held in sequences; a line names its endpoints by the components' wire
 * ids.
 */
module Flows {
  import opened Wrappers
  import opened JsValues

  /** A component: its wire id, its position, and the components nested in it. */
  datatype Component = Component(wireID: string, left: int, top: int, children: seq<Component>)

  datatype ConnectionLine = ConnectionLine(source: string, output: string, target: string, input: string)

  // ---------------------------------------------------------------------------
  // wiredComponents

  /** The components `visitObjects` meets: each component, then the ones nested in it, in order. */
  function Visit(cs: seq<Component>): (r: seq<Component>)
    ensures |cs| > 0 ==> |r| > 0 && r[0] == cs[0]
    ensures forall c :: c in cs ==> c in r
    decreases cs
  {
    if |cs| == 0 then []
    else
      var rest := Visit(cs[1..]);
      assert forall c :: c in cs ==> c == cs[0] || c in cs[1..];
      [cs[0]] + Visit(cs[0].children) + rest
  }

  /** The wire id table: each id maps to the last component visited with it. */
  function WiredMap(list: seq<Component>): (m: map<string, Component>)
  {
    if |list| == 0 then map[]
    else WiredMap(list[..|list| - 1])[list[|list| - 1].wireID := list[|list| - 1]]
  }

  /** The table has an entry for exactly the ids some visited component has, and it maps each id to a component with it. */
  lemma {:induction false} WiredMapEntries(list: seq<Component>)
    ensures forall k :: k in WiredMap(list) <==> exists i :: 0 <= i < |list| && list[i].wireID == k
    ensures forall k :: k in WiredMap(list) ==> WiredMap(list)[k] in list && WiredMap(list)[k].wireID == k
  {
    if |list| > 0 {
      var front := list[..|list| - 1];
      WiredMapEntries(front);
      assert forall i :: 0 <= i < |list| - 1 ==> front[i] == list[i];
      assert forall c :: c in front ==> c in list;
    }
  }

  /** Later entries win: the component an id maps to is the last one with that id. */
  lemma {:induction false} LaterEntriesWin(list: seq<Component>, i: nat)
    requires i < |list| && forall j :: i < j < |list| ==> list[j].wireID != list[i].wireID
    ensures list[i].wireID in WiredMap(list) && WiredMap(list)[list[i].wireID] == list[i]
  {
    WiredMapEntries(list);
    if i < |list| - 1 {
      var front := list[..|list| - 1];
      assert front[i] == list[i];
      assert forall j :: i < j < |front| ==> front[j] == list[j];
      LaterEntriesWin(front, i);
    }
  }

  /** `wiredComponents`, filling the table while visiting. */
  method WiredComponents(components: seq<Component>) returns (m: map<string, Component>)
    ensures m == WiredMap(Visit(components))
  {
    var list := Visit(components);
    m := map[];
    for i := 0 to |list|
      invariant m == WiredMap(list[..i])
    {
      assert list[..i + 1][..i] == list[..i];
      m := m[list[i].wireID := list[i]];
    }
    assert list[..|list|] == list;
  }

  /** `page.wiredComponents.get(id)`. */
  function Lookup(wired: map<string, Component>, id: string): Option<Component>
  {
    if id in wired then Some(wired[id]) else None
  }

  // ---------------------------------------------------------------------------
  // Deleting and rerouting lines

  /**
   * Which lines a delete removes: those touching the component
   * (`deleteConnectionLines`), those into one of its inputs
   * (`deleteConnectionLinesToInput`) or out of one of its outputs
   * (`deleteConnectionLinesFromOutput`).
   */
  datatype LineFilter =
    | Touching(component: Component)
    | ToInput(component: Component, input: string)
    | FromOutput(component: Component, output: string)

  predicate Selected(wired: map<string, Component>, f: LineFilter, line: ConnectionLine)
  {
    match f
    case Touching(c) => Lookup(wired, line.source) == Some(c) || Lookup(wired, line.target) == Some(c)
    case ToInput(c, input) => Lookup(wired, line.target) == Some(c) && line.input == input
    case FromOutput(c, output) => Lookup(wired, line.source) == Some(c) && line.output == output
  }

  /** The lines a delete leaves, in their order. */
  function Unselected(wired: map<string, Component>, f: LineFilter, lines: seq<ConnectionLine>): (r: seq<ConnectionLine>)
    ensures |r| <= |lines|
  {
    if |lines| == 0 then []
    else
      var last := lines[|lines| - 1];
      Unselected(wired, f, lines[..|lines| - 1]) + (if Selected(wired, f, last) then [] else [last])
  }

  /** The lines left are exactly those the filter does not select. */
  lemma {:induction false} UnselectedMembers(wired: map<string, Component>, f: LineFilter, lines: seq<ConnectionLine>)
    ensures forall l :: l in Unselected(wired, f, lines) <==> l in lines && !Selected(wired, f, l)
  {
    if |lines| > 0 {
      var front := lines[..|lines| - 1];
      var last := lines[|lines| - 1];
      UnselectedMembers(wired, f, front);
      assert lines == front + [last];
    }
  }

  /** The lines a delete removes, in their order. */
  function SelectedLines(wired: map<string, Component>, f: LineFilter, lines: seq<ConnectionLine>): (r: seq<ConnectionLine>)
    ensures |r| <= |lines|
  {
    if |lines| == 0 then []
    else SelectedLines(wired, f, lines[..|lines| - 1]) + (if Selected(wired, f, lines[|lines| - 1]) then [lines[|lines| - 1]] else [])
  }

  /** A delete loses no other line: the lines left and the lines removed make up the lines before. */
  lemma {:induction false} DeletePartitions(wired: map<string, Component>, f: LineFilter, lines: seq<ConnectionLine>)
    ensures multiset(Unselected(wired, f, lines)) + multiset(SelectedLines(wired, f, lines)) == multiset(lines)
  {
    if |lines| > 0 {
      var front := lines[..|lines| - 1];
      DeletePartitions(wired, f, front);
      PartitionStep(wired, f, lines);
    }
  }

  lemma PartitionStep(wired: map<string, Component>, f: LineFilter, lines: seq<ConnectionLine>)
    requires |lines| > 0
    requires var front := lines[..|lines| - 1];
      multiset(Unselected(wired, f, front)) + multiset(SelectedLines(wired, f, front)) == multiset(front)
    ensures multiset(Unselected(wired, f, lines)) + multiset(SelectedLines(wired, f, lines)) == multiset(lines)
  {
    var front := lines[..|lines| - 1];
    var last := lines[|lines| - 1];
    assert lines == front + [last];
    SplitStep(Unselected(wired, f, front), SelectedLines(wired, f, front), front, last,
      Unselected(wired, f, lines), SelectedLines(wired, f, lines), Selected(wired, f, last));
  }

  /** One element added to a partition of `front` lands on exactly one side. */
  lemma SplitStep<T>(kept: seq<T>, removed: seq<T>, front: seq<T>, last: T, kept': seq<T>, removed': seq<T>, selected: bool)
    requires multiset(kept) + multiset(removed) == multiset(front)
    requires selected ==> kept' == kept && removed' == removed + [last]
    requires !selected ==> kept' == kept + [last] && removed' == removed
    ensures multiset(kept') + multiset(removed') == multiset(front + [last])
  {
    assert multiset(front + [last]) == multiset(front) + multiset{last};
    if selected {
      assert multiset(removed') == multiset(removed) + multiset{last};
    } else {
      assert multiset(kept') == multiset(kept) + multiset{last};
    }
  }

  /** A delete that matches no line leaves the lines as they are. */
  lemma {:induction false} DeleteNothing(wired: map<string, Component>, f: LineFilter, lines: seq<ConnectionLine>)
    requires forall l :: l in lines ==> !Selected(wired, f, l)
    ensures Unselected(wired, f, lines) == lines
  {
    if |lines| > 0 {
      var front := lines[..|lines| - 1];
      var last := lines[|lines| - 1];
      forall l | l in front ensures !Selected(wired, f, l) {
        assert l in lines;
      }
      DeleteNothing(wired, f, front);
      assert last in lines;
      assert Unselected(wired, f, lines) == Unselected(wired, f, front) + [last];
    }
  }

  /** Which end of a line a reroute renames. */
  datatype End = InputEnd | OutputEnd

  /** One line after `rerouteConnectionLinesInput` / `rerouteConnectionLinesOutput`. */
  function Reroute(wired: map<string, Component>, c: Component, end: End, before: string, after: string, line: ConnectionLine): ConnectionLine
  {
    match end
    case InputEnd =>
      if Lookup(wired, line.target) == Some(c) && line.input == before then line.(input := after) else line
    case OutputEnd =>
      if Lookup(wired, line.source) == Some(c) && line.output == before then line.(output := after) else line
  }

  /** Whether a reroute applies to a line. */
  predicate RerouteMatches(wired: map<string, Component>, c: Component, end: End, before: string, line: ConnectionLine)
  {
    match end
    case InputEnd => Lookup(wired, line.target) == Some(c) && line.input == before
    case OutputEnd => Lookup(wired, line.source) == Some(c) && line.output == before
  }

  /** A reroute renames only the chosen end, and only on the lines it applies to. */
  lemma RerouteChangesOnlyPort(wired: map<string, Component>, c: Component, end: End, before: string, after: string, line: ConnectionLine)
    ensures var r := Reroute(wired, c, end, before, after, line);
      r.source == line.source && r.target == line.target &&
      (end.InputEnd? ==> r.output == line.output) && (end.OutputEnd? ==> r.input == line.input) &&
      (!RerouteMatches(wired, c, end, before, line) ==> r == line) &&
      (RerouteMatches(wired, c, end, before, line) ==> (if end.InputEnd? then r.input else r.output) == after)
  {
  }

  /** The lines of a flow as value sequences. */
  class Flow {
    var components: seq<Component>
    var connectionLines: seq<ConnectionLine>

    constructor(components: seq<Component>, connectionLines: seq<ConnectionLine>)
      ensures this.components == components && this.connectionLines == connectionLines
    {
      this.components := components;
      this.connectionLines := connectionLines;
    }

    function Wired(): map<string, Component>
      reads this
    {
      WiredMap(Visit(components))
    }

    /** The three `deleteConnectionLines*` methods, by the filter they apply. */
    method DeleteConnectionLines(f: LineFilter)
      modifies this
      ensures components == old(components)
      ensures connectionLines == Unselected(old(Wired()), f, old(connectionLines))
    {
      var wired := WiredMap(Visit(components));
      var kept := [];
      for i := 0 to |connectionLines|
        invariant kept == Unselected(wired, f, connectionLines[..i])
      {
        assert connectionLines[..i + 1][..i] == connectionLines[..i];
        if !Selected(wired, f, connectionLines[i]) {
          kept := kept + [connectionLines[i]];
        }
      }
      assert connectionLines[..|connectionLines|] == connectionLines;
      connectionLines := kept;
    }

    /** The two `reroute*` methods: each line the reroute applies to gets the new port name. */
    method RerouteConnectionLines(c: Component, end: End, before: string, after: string)
      modifies this
      ensures components == old(components)
      ensures |connectionLines| == |old(connectionLines)|
      ensures forall i :: 0 <= i < |connectionLines| ==>
        connectionLines[i] == Reroute(old(Wired()), c, end, before, after, old(connectionLines)[i])
    {
      var wired := WiredMap(Visit(components));
      ghost var lines := connectionLines;
      for i := 0 to |connectionLines|
        invariant components == old(components) && |connectionLines| == |lines|
        invariant forall k :: 0 <= k < i ==> connectionLines[k] == Reroute(wired, c, end, before, after, lines[k])
        invariant forall k :: i <= k < |lines| ==> connectionLines[k] == lines[k]
      {
        var line := connectionLines[i];
        match end {
          case InputEnd =>
            if Lookup(wired, line.target) == Some(c) && line.input == before {
              connectionLines := connectionLines[i := line.(input := after)];
            }
          case OutputEnd =>
            if Lookup(wired, line.source) == Some(c) && line.output == before {
              connectionLines := connectionLines[i := line.(output := after)];
            }
        }
      }
    }

    /**
     * `pasteFlowFragment`: the fragment is rewired with fresh ids, its
     * components are moved 20 right and 20 down, and its lines and
     * components are appended to the flow's.
     */
    method PasteFlowFragment(fragment: FlowFragment, newIds: seq<string>) returns (widgets: seq<Component>)
      requires |newIds| >= |fragment.components|
      requires Mapped(fragment.connectionLines, fragment.components)
      modifies this, fragment
      ensures |widgets| == |old(fragment.components)|
      ensures forall i :: 0 <= i < |widgets| ==>
        widgets[i] == old(fragment.components)[i].(wireID := newIds[i], left := old(fragment.components)[i].left + 20,
                                                   top := old(fragment.components)[i].top + 20)
      ensures fragment.components == widgets
      ensures fragment.connectionLines == Relink(old(fragment.connectionLines), IdMap(old(fragment.components), newIds))
      ensures components == old(components) + widgets
      ensures connectionLines == old(connectionLines) + fragment.connectionLines
    {
      fragment.Rewire(newIds);
      ghost var rewired := fragment.components;
      for i := 0 to |fragment.components|
        invariant components == old(components) && connectionLines == old(connectionLines)
        invariant |fragment.components| == |rewired|
        invariant fragment.connectionLines == Relink(old(fragment.connectionLines), IdMap(old(fragment.components), newIds))
        invariant forall k :: 0 <= k < i ==>
          fragment.components[k] == rewired[k].(left := rewired[k].left + 20, top := rewired[k].top + 20)
        invariant forall k :: i <= k < |rewired| ==> fragment.components[k] == rewired[k]
      {
        var w := fragment.components[i];
        fragment.components := fragment.components[i := w.(left := w.left + 20, top := w.top + 20)];
      }
      connectionLines := connectionLines + fragment.connectionLines;
      widgets := fragment.components;
      components := components + widgets;
    }
  }

  // ---------------------------------------------------------------------------
  // FlowFragment

  /** The old id to new id table `rewire` builds, later components winning. */
  function IdMap(cs: seq<Component>, newIds: seq<string>): (m: map<string, string>)
    requires |newIds| >= |cs|
    ensures m.Keys == WireIDsOf(cs)
  {
    if |cs| == 0 then map[]
    else
      var n := |cs| - 1;
      assert forall i :: 0 <= i < n ==> cs[..n][i] == cs[i];
      IdMap(cs[..n], newIds)[cs[n].wireID := newIds[n]]
  }

  /** The lines with both endpoints mapped through the id table. */
  function Relink(lines: seq<ConnectionLine>, m: map<string, string>): (r: seq<ConnectionLine>)
    requires forall i :: 0 <= i < |lines| ==> lines[i].source in m && lines[i].target in m
    ensures |r| == |lines|
    ensures forall i :: 0 <= i < |lines| ==>
      r[i] == lines[i].(source := m[lines[i].source], target := m[lines[i].target])
  {
    seq(|lines|, i requires 0 <= i < |lines| => lines[i].(source := m[lines[i].source], target := m[lines[i].target]))
  }

  /** The component whose old id is `id` gives its new id, when ids are distinct. */
  lemma {:induction false} IdMapOfDistinct(cs: seq<Component>, newIds: seq<string>, j: nat)
    requires |newIds| >= |cs| && j < |cs|
    requires forall a, b :: 0 <= a < b < |cs| ==> cs[a].wireID != cs[b].wireID
    ensures IdMap(cs, newIds)[cs[j].wireID] == newIds[j]
  {
    var n := |cs| - 1;
    if j < n {
      DistinctPrefix(cs, n);
      IdMapOfDistinct(cs[..n], newIds, j);
      IdMapEarlier(cs, newIds, j);
    }
  }

  /** An id other than the last component's maps as it did without the last component. */
  lemma IdMapEarlier(cs: seq<Component>, newIds: seq<string>, j: nat)
    requires |newIds| >= |cs| && j < |cs| - 1
    requires cs[j].wireID != cs[|cs| - 1].wireID
    ensures cs[j].wireID in IdMap(cs[..|cs| - 1], newIds)
    ensures IdMap(cs, newIds)[cs[j].wireID] == IdMap(cs[..|cs| - 1], newIds)[cs[..|cs| - 1][j].wireID]
  {
    assert cs[..|cs| - 1][j] == cs[j];
  }

  lemma DistinctPrefix(cs: seq<Component>, n: nat)
    requires n <= |cs|
    requires forall a, b :: 0 <= a < b < |cs| ==> cs[a].wireID != cs[b].wireID
    ensures forall a, b :: 0 <= a < b < n ==> cs[..n][a].wireID != cs[..n][b].wireID
  {
    forall a, b | 0 <= a < b < n ensures cs[..n][a].wireID != cs[..n][b].wireID {
      assert cs[..n][a] == cs[a] && cs[..n][b] == cs[b];
    }
  }

  /**
   * `rewire` keeps connectivity: with distinct old ids, a line from
   * component `j` to component `k` runs, after the rewire, from the new id
   * of `j` to the new id of `k`.
   */
  lemma RewireKeepsConnectivity(cs: seq<Component>, newIds: seq<string>, line: ConnectionLine, j: nat, k: nat)
    requires |newIds| >= |cs| && j < |cs| && k < |cs|
    requires forall a, b :: 0 <= a < b < |cs| ==> cs[a].wireID != cs[b].wireID
    requires line.source == cs[j].wireID && line.target == cs[k].wireID
    ensures Relink([line], IdMap(cs, newIds))[0] == line.(source := newIds[j], target := newIds[k])
  {
    IdMapOfDistinct(cs, newIds, j);
    IdMapOfDistinct(cs, newIds, k);
  }

  /**
   * Every line's endpoints are ids of the components. `rewire`'s non-null
   * assertions check nothing at run time; a fragment satisfies this because
   * `addObjects` copies only lines between the selected components
   * (`InternalLinesMapped`). A line with another endpoint would be relinked
   * to an undefined id, which the model does not represent.
   */
  predicate Mapped(lines: seq<ConnectionLine>, cs: seq<Component>)
  {
    forall i :: 0 <= i < |lines| ==> lines[i].source in WireIDsOf(cs) && lines[i].target in WireIDsOf(cs)
  }

  /** The wire ids of the selected components. */
  function WireIDsOf(cs: seq<Component>): (r: set<string>)
    ensures forall id :: id in r <==> exists i :: 0 <= i < |cs| && cs[i].wireID == id
  {
    set i | 0 <= i < |cs| :: cs[i].wireID
  }

  /** A line `addObjects` copies: both endpoints are selected ids, and neither is empty (a falsy id). */
  predicate Internal(ids: set<string>, line: ConnectionLine)
  {
    line.source in ids && line.source != "" && line.target in ids && line.target != ""
  }

  /** The lines `addObjects` copies, in the flow's order. */
  function InternalLines(ids: set<string>, lines: seq<ConnectionLine>): (r: seq<ConnectionLine>)
    ensures forall l :: l in r <==> l in lines && Internal(ids, l)
  {
    if |lines| == 0 then []
    else
      var front := lines[..|lines| - 1];
      var last := lines[|lines| - 1];
      assert forall l :: l in lines <==> l in front || l == last;
      InternalLines(ids, front) + (if Internal(ids, last) then [last] else [])
  }

  /** The lines `addObjects` copies run between the selected components. */
  lemma InternalLinesMapped(objects: seq<Component>, lines: seq<ConnectionLine>)
    ensures Mapped(InternalLines(WireIDsOf(objects), lines), objects)
  {
    var r := InternalLines(WireIDsOf(objects), lines);
    forall i | 0 <= i < |r| ensures r[i].source in WireIDsOf(objects) && r[i].target in WireIDsOf(objects) {
      assert r[i] in r;
    }
  }

  class FlowFragment {
    var components: seq<Component>
    var connectionLines: seq<ConnectionLine>

    constructor()
      ensures components == [] && connectionLines == []
    {
      components := [];
      connectionLines := [];
    }

    function WireIDs(): set<string>
      reads this
    {
      WireIDsOf(components)
    }

    /**
     * `addObjects`: one copy per selected component, in order, and a copy of
     * each line of the flow that runs between two selected components.
     */
    method AddObjects(flow: Flow, objects: seq<Component>)
      modifies this
      ensures components == objects
      ensures connectionLines == InternalLines(WireIDsOf(objects), flow.connectionLines)
    {
      components := [];
      connectionLines := [];
      var ids: set<string> := {};
      for i := 0 to |objects|
        invariant components == objects[..i] && connectionLines == []
        invariant forall id :: id in ids <==> exists k :: 0 <= k < i && objects[k].wireID == id
      {
        assert objects[..i + 1] == objects[..i] + [objects[i]];
        ids := ids + {objects[i].wireID};
        components := components + [objects[i]];
      }
      assert objects[..|objects|] == objects;
      assert ids == WireIDsOf(objects);
      var lines := flow.connectionLines;
      for i := 0 to |lines|
        invariant components == objects
        invariant connectionLines == InternalLines(ids, lines[..i])
      {
        assert lines[..i + 1][..i] == lines[..i];
        var line := lines[i];
        if line.source in ids && line.source != "" && line.target in ids && line.target != "" {
          connectionLines := connectionLines + [line];
        }
      }
      assert lines[..|lines|] == lines;
    }

    /**
     * `rewire`: every component gets the next fresh id, and every line's
     * endpoints are mapped from old ids to new ones. Every endpoint is a
     * component's id for a fragment that `addObjects` filled.
     */
    method Rewire(newIds: seq<string>)
      requires |newIds| >= |components|
      requires Mapped(connectionLines, components)
      modifies this
      ensures |components| == |old(components)|
      ensures forall i :: 0 <= i < |components| ==> components[i] == old(components)[i].(wireID := newIds[i])
      ensures connectionLines == Relink(old(connectionLines), IdMap(old(components), newIds))
    {
      var m := RenewIds(newIds);
      RelinkLines(m);
    }

    /** The first half of `rewire`: new ids for the components, and the table from old ids to new. */
    method RenewIds(newIds: seq<string>) returns (m: map<string, string>)
      requires |newIds| >= |components|
      modifies this
      ensures connectionLines == old(connectionLines)
      ensures |components| == |old(components)|
      ensures forall i :: 0 <= i < |components| ==> components[i] == old(components)[i].(wireID := newIds[i])
      ensures m == IdMap(old(components), newIds)
    {
      ghost var cs := components;
      m := map[];
      for i := 0 to |components|
        invariant connectionLines == old(connectionLines)
        invariant |components| == |cs| && m == IdMap(cs[..i], newIds)
        invariant forall k :: 0 <= k < i ==> components[k] == cs[k].(wireID := newIds[k])
        invariant forall k :: i <= k < |cs| ==> components[k] == cs[k]
      {
        assert cs[..i + 1][..i] == cs[..i];
        var comp := components[i];
        m := m[comp.wireID := newIds[i]];
        components := components[i := comp.(wireID := newIds[i])];
      }
      assert cs[..|cs|] == cs;
    }

    /** The second half of `rewire`: both endpoints of every line go through the table. */
    method RelinkLines(m: map<string, string>)
      requires forall i :: 0 <= i < |connectionLines| ==> connectionLines[i].source in m && connectionLines[i].target in m
      modifies this
      ensures components == old(components)
      ensures connectionLines == Relink(old(connectionLines), m)
    {
      ghost var lines := connectionLines;
      for i := 0 to |connectionLines|
        invariant components == old(components) && |connectionLines| == |lines|
        invariant forall k :: 0 <= k < i ==> connectionLines[k] == lines[k].(source := m[lines[k].source], target := m[lines[k].target])
        invariant forall k :: i <= k < |lines| ==> connectionLines[k] == lines[k]
      {
        var line := connectionLines[i];
        connectionLines := connectionLines[i := line.(source := m[line.source], target := m[line.target])];
      }
    }
  }

  /** A copied line runs between two selected components, and every such line of the flow is copied. */
  lemma AddObjectsCopiesInternal(objects: seq<Component>, lines: seq<ConnectionLine>, line: ConnectionLine)
    requires line in lines && line.source != "" && line.target != ""
    ensures line in InternalLines(WireIDsOf(objects), lines) <==>
      (exists i :: 0 <= i < |objects| && objects[i].wireID == line.source) &&
      (exists j :: 0 <= j < |objects| && objects[j].wireID == line.target)
  {
  }

  // ---------------------------------------------------------------------------
  // Load hooks

  /** The flow's load hook: the pairs (i, j), j < i, of lines equal in all four fields, in the order it logs them. */
  function DuplicatePairs(lines: seq<ConnectionLine>, n: nat): (r: seq<(nat, nat)>)
    requires n <= |lines|
  {
    if n == 0 then [] else DuplicatePairs(lines, n - 1) + DuplicatesOf(lines, n - 1, n - 1)
  }

  /** The lines before line `i`, among the first `n`, equal to it. */
  function DuplicatesOf(lines: seq<ConnectionLine>, i: nat, n: nat): (r: seq<(nat, nat)>)
    requires i < |lines| && n <= i
  {
    if n == 0 then [] else DuplicatesOf(lines, i, n - 1) + (if lines[i] == lines[n - 1] then [(i, n - 1)] else [])
  }

  lemma {:induction false} DuplicatesOfExact(lines: seq<ConnectionLine>, i: nat, n: nat)
    requires i < |lines| && n <= i
    ensures forall p :: p in DuplicatesOf(lines, i, n) <==> p.0 == i && p.1 < n && lines[i] == lines[p.1]
  {
    if n > 0 {
      DuplicatesOfExact(lines, i, n - 1);
    }
  }

  /** Exactly the pairs of equal lines are logged, the later line first. */
  lemma {:induction false} DuplicatePairsExact(lines: seq<ConnectionLine>, n: nat)
    requires n <= |lines|
    ensures forall p :: p in DuplicatePairs(lines, n) <==> p.1 < p.0 < n && lines[p.0] == lines[p.1]
  {
    if n > 0 {
      DuplicatePairsExact(lines, n - 1);
      DuplicatesOfExact(lines, n - 1, n - 1);
    }
  }

  /** The flow's `beforeLoadHook`: it reports duplicate lines and changes nothing. */
  method ReportDuplicates(lines: seq<ConnectionLine>) returns (logged: seq<(nat, nat)>)
    ensures logged == DuplicatePairs(lines, |lines|)
  {
    logged := [];
    if |lines| == 0 {
      return;
    }
    assert DuplicatesOf(lines, 0, 0) == [];
    for i := 1 to |lines|
      invariant logged == DuplicatePairs(lines, i)
    {
      for j := 0 to i
        invariant logged == DuplicatePairs(lines, i) + DuplicatesOf(lines, i, j)
      {
        if lines[i] == lines[j] {
          logged := logged + [(i, j)];
        }
      }
    }
  }

  /** The fragment's `beforeLoadHook`: a truthy legacy `widgets` field becomes `components`. */
  method RenameWidgets(obj: JsObject)
    modifies obj
    ensures Truthy(FieldOf(old(obj.fields), "widgets")) ==>
      obj.fields == (old(obj.fields) - {"widgets"})["components" := old(obj.fields)["widgets"]]
    ensures !Truthy(FieldOf(old(obj.fields), "widgets")) ==> obj.fields == old(obj.fields)
  {
    var widgets := FieldOf(obj.fields, "widgets");
    if Truthy(widgets) {
      obj.fields := obj.fields["components" := widgets];
      obj.fields := obj.fields - {"widgets"};
    }
  }
}
