/**
 * IgxTreeNodeComponent: the view state of one tree node. Its edit flag,
 * the templates its header uses, the path to it, and whether it is
 * expanded or selected, read from the tree's two shared services.
 */
module TreeNode {
  import opened Base
  import opened TreeService
  import opened SelectionApi

  /** A template reference; only its identity matters here. */
  datatype Template = Template(name: string)

  /** The object a node is bound to (`data`); `===` compares these by reference. */
  class NodeData {
    var fields: map<string, string>

    constructor(fields: map<string, string>)
      ensures this.fields == fields
    {
      this.fields := fields;
    }
  }

  /**
   * The DOM event carried by an expansion-panel toggle: its type, its key
   * code, and whether its target's parent element is the panel's icon
   * container.
   */
  datatype DomEvent = DomEvent(eventType: string, code: string, targetInIconContainer: bool)

  predicate IsEnterKeydown(e: DomEvent) {
    e.eventType == "keydown" && e.code == "Enter"
  }

  /** The cancelable arguments of a toggle: the optional DOM event and the `cancel` flag a handler may set. */
  class ToggleEventArgs {
    const event: Option<DomEvent>
    var cancel: bool

    constructor(event: Option<DomEvent>)
      ensures this.event == event && !cancel
    {
      this.event := event;
      cancel := false;
    }
  }

  /** An input template, or the node's default when the input is not given. */
  function WithDefault(input: Option<Template>, fallback: Template): (r: Template)
    ensures input.Some? ==> r == input.value
    ensures input.None? ==> r == fallback
  {
    if input.Some? then input.value else fallback
  }

  class IgxTreeNodeComponent {
    /** The owning tree, seen through its id, and its `valueKey`. */
    const treeId: string
    const valueKey: string
    const selectionService: IgxSelectionApiService
    const treeService: IgxTreeService

    var inEdit: bool
    var parentPath: string
    var id: string
    var data: NodeData

    // Template inputs, and the defaults declared in the node's own view.
    var nodeTemplate: Option<Template>
    var nodeEditTemplate: Option<Template>
    var selectMarker: Option<Template>
    var expandIndicator: Option<Template>
    const defaultNodeTemplate: Template
    const defaultNodeEdit: Template
    const defaultSelectMarker: Template
    const defaultExpandIndicator: Template

    constructor(treeId: string, valueKey: string, selectionService: IgxSelectionApiService,
                treeService: IgxTreeService, id: string, parentPath: string, data: NodeData)
      ensures this.treeId == treeId && this.valueKey == valueKey
      ensures this.selectionService == selectionService && this.treeService == treeService
      ensures this.id == id && this.parentPath == parentPath && this.data == data
      ensures !inEdit
      ensures nodeTemplate.None? && nodeEditTemplate.None? && selectMarker.None? && expandIndicator.None?
    {
      this.treeId := treeId;
      this.valueKey := valueKey;
      this.selectionService := selectionService;
      this.treeService := treeService;
      this.id := id;
      this.parentPath := parentPath;
      this.data := data;
      inEdit := false;
      nodeTemplate := None;
      nodeEditTemplate := None;
      selectMarker := None;
      expandIndicator := None;
      defaultNodeTemplate := Template("defaultTemplate");
      defaultNodeEdit := Template("defaultEdit");
      defaultSelectMarker := Template("defaultSelect");
      defaultExpandIndicator := Template("defaultIndicator");
    }

    /** `nodeTemplateRef`. */
    function NodeTemplateRef(): (r: Template)
      reads this
      ensures nodeTemplate.None? ==> r == defaultNodeTemplate
    {
      WithDefault(nodeTemplate, defaultNodeTemplate)
    }

    /** `nodeEditTemplateRef`. */
    function NodeEditTemplateRef(): (r: Template)
      reads this
      ensures nodeEditTemplate.None? ==> r == defaultNodeEdit
    {
      WithDefault(nodeEditTemplate, defaultNodeEdit)
    }

    /** `selectMarkerTemplate`. */
    function SelectMarkerTemplate(): (r: Template)
      reads this
      ensures selectMarker.None? ==> r == defaultSelectMarker
    {
      WithDefault(selectMarker, defaultSelectMarker)
    }

    /** `expandIndicatorTemplate`. */
    function ExpandIndicatorTemplate(): (r: Template)
      reads this
      ensures expandIndicator.None? ==> r == defaultExpandIndicator
    {
      WithDefault(expandIndicator, defaultExpandIndicator)
    }

    /**
     * `headerTemplate`: the edit template (with its default) while editing;
     * otherwise the `nodeTemplate` input as given, which has no default.
     */
    function HeaderTemplate(): (r: Option<Template>)
      reads this
      ensures inEdit ==> r.Some? && (nodeEditTemplate.None? ==> r.value == defaultNodeEdit)
      ensures !inEdit ==> r == nodeTemplate
    {
      if inEdit then Some(NodeEditTemplateRef()) else nodeTemplate
    }

    /** `selected`: the node's id is in the selection registered under the tree's id. */
    function Selected(): bool
      reads this, selectionService
      requires treeId in selectionService.selection
    {
      id in selectionService.selection[treeId]
    }

    /** `expanded`: the tree service reports the node's id as expanded. */
    function Expanded(): bool
      reads this, treeService
    {
      treeService.IsExpanded(id)
    }

    /**
     * `fullPath`: the spread of `parentPath`, which is a string, so one
     * entry per character, followed by the node's value under `valueKey`
     * (absent when the data has no such key).
     */
    function FullPath(): (r: seq<Option<string>>)
      reads this, data
      ensures |r| == |parentPath| + 1
      ensures forall i :: 0 <= i < |parentPath| ==> r[i] == Some([parentPath[i]])
      ensures r[|parentPath|] == if valueKey in data.fields then Some(data.fields[valueKey]) else None
    {
      var prefix := seq(|parentPath|, i requires 0 <= i < |parentPath| reads this => Some([parentPath[i]]));
      prefix + [if valueKey in data.fields then Some(data.fields[valueKey]) else None]
    }

    /** `setEditMode`. */
    method SetEditMode()
      modifies this`inEdit
      ensures inEdit
    {
      inEdit := true;
    }

    /** `exitEditMode`: leaves edit mode; a no-op outside it. */
    method ExitEditMode()
      modifies this`inEdit
      ensures !inEdit
      ensures !old(inEdit) ==> unchanged(this)
    {
      if inEdit {
        inEdit := false;
      }
    }

    /**
     * `toggle(args)`: an Enter keydown leaves edit mode; an event whose
     * target is outside the icon container is canceled; otherwise the tree
     * is asked to toggle this node, once (`toggled` carries the id passed
     * to `tree.toggleNode`).
     */
    method Toggle(args: ToggleEventArgs) returns (toggled: Option<string>)
      modifies this`inEdit, args`cancel
      ensures args.event.Some? && !args.event.value.targetInIconContainer ==>
        args.cancel && toggled.None?
      ensures args.event.None? || args.event.value.targetInIconContainer ==>
        args.cancel == old(args.cancel) && toggled == Some(id)
      ensures inEdit == (old(inEdit) && !(args.event.Some? && IsEnterKeydown(args.event.value)))
    {
      if args.event.Some? {
        var e := args.event.value;
        if IsEnterKeydown(e) {
          ExitEditMode();
        }
        if !e.targetInIconContainer {
          args.cancel := true;
          return None;
        }
      }
      toggled := Some(id);
    }
  }
}
