/**
 * IgxTreeComponent: the tree's id, drawn from a counter shared by every
 * tree instance, the registration of its selection set over its
 * lifecycle, and the search over its nodes.
 */
module Tree {
  import opened Base
  import opened Decimal
  import opened TreeService
  import opened SelectionApi
  import opened TreeNode

  /** The module-level counter `init_id` shared by every tree instance. */
  class TreeIdCounter {
    var next: nat

    constructor()
      ensures next == 0
    {
      next := 0;
    }
  }

  /** The id a tree gets from counter value `n`: `tree-${n}`. */
  function TreeId(n: nat): string {
    "tree-" + NatToString(n)
  }

  /** Distinct counter values give distinct tree ids. */
  lemma TreeIdsDistinct(a: nat, b: nat)
    ensures TreeId(a) == TreeId(b) ==> a == b
  {
    if TreeId(a) == TreeId(b) {
      assert NatToString(a) == TreeId(a)[5..];
      assert NatToString(b) == TreeId(b)[5..];
      NatToStringInjective(a, b);
    }
  }

  /** `a` keeps some of the elements of `b`, in their order. */
  predicate IsSubsequence<T(==)>(a: seq<T>, b: seq<T>) {
    if a == [] then true
    else if b == [] then false
    else (a[0] == b[0] && IsSubsequence(a[1..], b[1..])) || IsSubsequence(a, b[1..])
  }

  /** Whether `node` matches `searchTerm`: the comparer when given, else `node.data === searchTerm`. */
  predicate Matches(searchTerm: NodeData, comparer: Option<(NodeData, IgxTreeNodeComponent) -> bool>,
                    node: IgxTreeNodeComponent)
    reads node
  {
    if comparer.Some? then comparer.value(searchTerm, node) else node.data == searchTerm
  }

  /**
   * `nodes.filter(e => compareFunc(searchTerm, e))`: exactly the matching
   * nodes, in their order.
   */
  function FilterNodes(nodes: seq<IgxTreeNodeComponent>, searchTerm: NodeData,
                       comparer: Option<(NodeData, IgxTreeNodeComponent) -> bool>): (r: seq<IgxTreeNodeComponent>)
    reads set n | n in nodes
    ensures IsFilter(nodes, searchTerm, comparer, r)
    ensures IsSubsequence(r, nodes)
    ensures forall i :: 0 <= i < |r| ==> Matches(searchTerm, comparer, r[i])
    ensures forall i :: 0 <= i < |nodes| && Matches(searchTerm, comparer, nodes[i]) ==> nodes[i] in r
    ensures multiset(r) <= multiset(nodes)
    ensures forall n :: n in nodes ==>
      multiset(r)[n] == if Matches(searchTerm, comparer, n) then multiset(nodes)[n] else 0
  {
    if nodes == [] then []
    else
      var rest := FilterNodes(nodes[1..], searchTerm, comparer);
      if Matches(searchTerm, comparer, nodes[0]) then
        FilterKeepsHead(nodes, searchTerm, comparer, rest);
        [nodes[0]] + rest
      else
        FilterDropsHead(nodes, searchTerm, comparer, rest);
        rest
  }

  /** What `FilterNodes` promises of `r` as the filter of `nodes`. */
  ghost predicate IsFilter(nodes: seq<IgxTreeNodeComponent>, searchTerm: NodeData,
                           comparer: Option<(NodeData, IgxTreeNodeComponent) -> bool>, r: seq<IgxTreeNodeComponent>)
    reads set n | n in nodes
  {
    && IsSubsequence(r, nodes)
    && (forall i :: 0 <= i < |r| ==> r[i] in nodes && Matches(searchTerm, comparer, r[i]))
    && (forall i :: 0 <= i < |nodes| && Matches(searchTerm, comparer, nodes[i]) ==> nodes[i] in r)
    && multiset(r) <= multiset(nodes)
    && (forall n :: n in nodes ==>
          multiset(r)[n] == if Matches(searchTerm, comparer, n) then multiset(nodes)[n] else 0)
  }

  /** Filtering a sequence whose head matches: the head, then the tail's filter. */
  lemma FilterKeepsHead(nodes: seq<IgxTreeNodeComponent>, searchTerm: NodeData,
                        comparer: Option<(NodeData, IgxTreeNodeComponent) -> bool>, rest: seq<IgxTreeNodeComponent>)
    requires nodes != [] && Matches(searchTerm, comparer, nodes[0])
    requires IsFilter(nodes[1..], searchTerm, comparer, rest)
    ensures IsFilter(nodes, searchTerm, comparer, [nodes[0]] + rest)
  {
    var r := [nodes[0]] + rest;
    assert nodes == [nodes[0]] + nodes[1..];
    assert r[1..] == rest;
    forall n | n in nodes
      ensures multiset(r)[n] == if Matches(searchTerm, comparer, n) then multiset(nodes)[n] else 0
    {
      FilterStepCount(nodes[0], nodes[1..], rest, true, n, Matches(searchTerm, comparer, n));
    }
  }

  /** Filtering a sequence whose head does not match: the tail's filter. */
  lemma FilterDropsHead(nodes: seq<IgxTreeNodeComponent>, searchTerm: NodeData,
                        comparer: Option<(NodeData, IgxTreeNodeComponent) -> bool>, rest: seq<IgxTreeNodeComponent>)
    requires nodes != [] && !Matches(searchTerm, comparer, nodes[0])
    requires IsFilter(nodes[1..], searchTerm, comparer, rest)
    ensures IsFilter(nodes, searchTerm, comparer, rest)
  {
    assert nodes == [nodes[0]] + nodes[1..];
    assert forall i :: 1 <= i < |nodes| ==> nodes[i] == nodes[1..][i - 1];
    forall n | n in nodes
      ensures multiset(rest)[n] == if Matches(searchTerm, comparer, n) then multiset(nodes)[n] else 0
    {
      FilterStepCount(nodes[0], nodes[1..], rest, false, n, Matches(searchTerm, comparer, n));
    }
  }

  /**
   * One step of the filter's count: given the counts for the tail, prepending
   * `x` (kept or dropped) gives the counts for the whole sequence.
   */
  lemma FilterStepCount<T>(x: T, tail: seq<T>, rest: seq<T>, keepX: bool, n: T, keepN: bool)
    requires multiset(rest) <= multiset(tail)
    requires n in tail ==> multiset(rest)[n] == if keepN then multiset(tail)[n] else 0
    requires n == x ==> keepN == keepX
    ensures multiset(if keepX then [x] + rest else rest)[n] == if keepN then multiset([x] + tail)[n] else 0
  {
    if n !in tail {
      assert multiset(rest)[n] <= multiset(tail)[n] == 0;
    }
  }

  class IgxTreeComponent {
    const id: string
    const selectionService: IgxSelectionApiService
    const treeService: IgxTreeService
    /** The node components projected into the tree. */
    var nodes: seq<IgxTreeNodeComponent>

    /** A new tree takes the next id from the shared counter. */
    constructor(counter: TreeIdCounter, selectionService: IgxSelectionApiService, treeService: IgxTreeService)
      modifies counter
      ensures id == TreeId(old(counter.next)) && counter.next == old(counter.next) + 1
      ensures this.selectionService == selectionService && this.treeService == treeService
      ensures nodes == []
    {
      id := TreeId(counter.next);
      this.selectionService := selectionService;
      this.treeService := treeService;
      nodes := [];
      counter.next := counter.next + 1;
    }

    /** `isNodeSelected(node)`: the node's id is in the set registered under this tree's id. */
    function IsNodeSelected(node: IgxTreeNodeComponent): bool
      reads this, selectionService, node
      requires id in selectionService.selection
    {
      node.id in selectionService.selection[id]
    }

    /** `findNodes(searchTerm, comparer)`. */
    function FindNodes(searchTerm: NodeData, comparer: Option<(NodeData, IgxTreeNodeComponent) -> bool>)
      : (r: seq<IgxTreeNodeComponent>)
      reads this, set n | n in nodes
      ensures IsSubsequence(r, nodes)
      ensures forall i :: 0 <= i < |r| ==> Matches(searchTerm, comparer, r[i])
      ensures forall i :: 0 <= i < |nodes| && Matches(searchTerm, comparer, nodes[i]) ==> nodes[i] in r
      ensures multiset(r) <= multiset(nodes)
      ensures forall n :: n in nodes ==>
        multiset(r)[n] == if Matches(searchTerm, comparer, n) then multiset(nodes)[n] else 0
    {
      FilterNodes(nodes, searchTerm, comparer)
    }

    /** `ngOnInit`: registers an empty selection under the tree's id, so no node is selected. */
    method NgOnInit()
      modifies selectionService
      ensures selectionService.selection == old(selectionService.selection)[id := {}]
      ensures forall node: IgxTreeNodeComponent :: !IsNodeSelected(node)
    {
      selectionService.Set(id, {});
    }

    /** `ngOnDestroy`: clears the selection under the tree's id. */
    method NgOnDestroy()
      modifies selectionService
      ensures selectionService.selection == old(selectionService.selection)[id := {}]
    {
      selectionService.Clear(id);
    }

    /** `expandAll(nodes)`: declared with an empty body. */
    method ExpandAll(nodes: seq<IgxTreeNodeComponent>)
      ensures unchanged(this, selectionService, treeService)
    {
    }

    /** `collapseAll(nodes)`: declared with an empty body. */
    method CollapseAll(nodes: seq<IgxTreeNodeComponent>)
      ensures unchanged(this, selectionService, treeService)
    {
    }

    /** `selectAll(nodes)`: declared with an empty body. */
    method SelectAll(nodes: seq<IgxTreeNodeComponent>)
      ensures unchanged(this, selectionService, treeService)
    {
    }
  }

  /** A node's `selected` and its tree's `isNodeSelected` agree. */
  lemma SelectedAgreesWithTree(tree: IgxTreeComponent, node: IgxTreeNodeComponent)
    requires node.treeId == tree.id && node.selectionService == tree.selectionService
    requires tree.id in tree.selectionService.selection
    ensures node.Selected() == tree.IsNodeSelected(node)
  {
  }
}
