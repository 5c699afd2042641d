/**
 * IgxTreeService: the set of ids of the expanded tree nodes, updated in
 * place by `expand` and `collapse`.
 */
module TreeService {

  class IgxTreeService {
    var expandedNodes: set<string>

    /** A fresh service has no expanded node. */
    constructor()
      ensures expandedNodes == {}
    {
      expandedNodes := {};
    }

    /** `isExpanded(id)`: membership in the expanded set. */
    function IsExpanded(id: string): bool
      reads this
    {
      id in expandedNodes
    }

    /**
     * `expand(id)`: afterwards the id is expanded; no other id changes, and
     * expanding an expanded id leaves the set as it was.
     */
    method Expand(id: string)
      modifies this
      ensures expandedNodes == old(expandedNodes) + {id}
      ensures IsExpanded(id)
      ensures forall other :: other != id ==> (other in expandedNodes <==> other in old(expandedNodes))
      ensures old(IsExpanded(id)) ==> expandedNodes == old(expandedNodes)
    {
      expandedNodes := expandedNodes + {id};
    }

    /**
     * `collapse(id)`: afterwards the id is not expanded; no other id changes,
     * and collapsing a collapsed id leaves the set as it was.
     */
    method Collapse(id: string)
      modifies this
      ensures expandedNodes == old(expandedNodes) - {id}
      ensures !IsExpanded(id)
      ensures forall other :: other != id ==> (other in expandedNodes <==> other in old(expandedNodes))
      ensures !old(IsExpanded(id)) ==> expandedNodes == old(expandedNodes)
    {
      expandedNodes := expandedNodes - {id};
    }
  }
}
