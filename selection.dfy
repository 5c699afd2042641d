/**
 * The part of the shared selection service the tree relies on: one set of
 * selected node ids per component id. The service's own code is not part
 * of this model; `set`, `get` and `clear` are taken as writes and reads of
 * that map, `clear` storing an empty set.
 */
module SelectionApi {

  class IgxSelectionApiService {
    var selection: map<string, set<string>>

    constructor()
      ensures selection == map[]
    {
      selection := map[];
    }

    /** `set(componentId, ids)`. */
    method Set(componentId: string, ids: set<string>)
      modifies this
      ensures selection == old(selection)[componentId := ids]
    {
      selection := selection[componentId := ids];
    }

    /** `clear(componentId)`: the component's selection becomes empty. */
    method Clear(componentId: string)
      modifies this
      ensures selection == old(selection)[componentId := {}]
    {
      selection := selection[componentId := {}];
    }
  }
}
