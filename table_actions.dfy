/**
 * The table-view side of the registry, Classes/Table/TableActions.swift:
 * which accessory and selection style a row's cell shows, and what selecting
 * a row or tapping its accessory button runs.
 *
 * The object of a row is given directly (`None` when the table's data
 * source yields no object there); a cell is its two display fields; the
 * effects of a selection are a trace of handler runs and deselections.
 */
module TableActions {
  import opened Wrappers
  import opened ActionRegistry

  /** The accessory types these rules choose from (`UITableViewCellAccessoryType`). */
  datatype AccessoryType = AccessoryNone | DisclosureIndicator | DetailDisclosureButton

  /** The selection styles these rules choose from (`UITableViewCellSelectionStyle`). */
  datatype SelectionStyle = SelectionNone | SelectionDefault

  /** The two fields of a table view cell that display decisions write. */
  class TableViewCell {
    var accessoryType: AccessoryType
    var selectionStyle: SelectionStyle

    constructor (accessoryType: AccessoryType, selectionStyle: SelectionStyle)
      ensures this.accessoryType == accessoryType && this.selectionStyle == selectionStyle
    {
      this.accessoryType := accessoryType;
      this.selectionStyle := selectionStyle;
    }
  }

  /** An observable effect of selecting a row. */
  datatype Effect = Fired(id: HandlerId) | Deselected

  function AsEffects(ids: seq<HandlerId>): (effects: seq<Effect>)
    ensures |effects| == |ids|
    ensures forall i :: 0 <= i < |ids| ==> effects[i] == Fired(ids[i])
  {
    seq(|ids|, i requires 0 <= i < |ids| => Fired(ids[i]))
  }

  /**
   * `accessoryTypeForObject`, given the resolved actions: a detail button
   * whenever a detail action resolves (navigate or not), else a disclosure
   * indicator when a navigate action resolves, else none.
   */
  function AccessoryTypeFor(actions: ObjectActions): (t: AccessoryType)
    ensures t == DetailDisclosureButton <==> actions.HasDetailAction()
    ensures t == DisclosureIndicator <==> !actions.HasDetailAction() && actions.HasNavigateAction()
    ensures t == AccessoryNone <==> !actions.HasDetailAction() && !actions.HasNavigateAction()
  {
    if actions.HasDetailAction() then DetailDisclosureButton
    else if actions.HasNavigateAction() then DisclosureIndicator
    else AccessoryNone
  }

  /**
   * `selectionStyleForObject`, given the resolved actions: highlighted
   * exactly when a navigate or tap action resolves, so a detail-only object
   * is not.
   */
  function SelectionStyleFor(actions: ObjectActions): (style: SelectionStyle)
    ensures style == SelectionDefault <==> actions.HasNavigateAction() || actions.HasTapAction()
    ensures actions.HasDetailAction() && !actions.HasNavigateAction() && !actions.HasTapAction() ==>
      style == SelectionNone
  {
    if actions.HasNavigateAction() || actions.HasTapAction() then SelectionDefault else SelectionNone
  }

  /** Every actionable object shows an accessory or is highlighted when selected. */
  lemma ActionableRowShowsAffordance(actions: ObjectActions)
    requires actions.HasActions()
    ensures AccessoryTypeFor(actions) != AccessoryNone || SelectionStyleFor(actions) == SelectionDefault
  {
  }

  /**
   * `tableView(_:willDisplayCell:forObject:atIndexPath:)`: leaves the cell
   * alone and answers `false` for an object without actions; otherwise sets
   * both fields by the two rules and answers `true`.
   */
  method WillDisplayCell(registry: Actions, cell: TableViewCell, o: Subject) returns (shown: bool)
    modifies cell
    ensures shown == registry.Resolved(o).HasActions()
    ensures !shown ==> cell.accessoryType == old(cell.accessoryType) && cell.selectionStyle == old(cell.selectionStyle)
    ensures shown ==> cell.accessoryType == AccessoryTypeFor(registry.Resolved(o))
                      && cell.selectionStyle == SelectionStyleFor(registry.Resolved(o))
  {
    var actionable := registry.IsActionableObject(o);
    if !actionable {
      return false;
    }
    var actions := registry.ActionsForObject(o);
    cell.accessoryType := AccessoryTypeFor(actions);
    actions := registry.ActionsForObject(o);
    cell.selectionStyle := SelectionStyleFor(actions);
    return true;
  }

  /**
   * `tableView(_:willDisplay:forRowAt:)`: first clears both fields, then,
   * when the row has an object, applies `WillDisplayCell`.
   */
  method WillDisplay(registry: Actions, cell: TableViewCell, row: Option<Subject>)
    modifies cell
    ensures row.Some? && registry.Resolved(row.value).HasActions() ==>
      cell.accessoryType == AccessoryTypeFor(registry.Resolved(row.value))
      && cell.selectionStyle == SelectionStyleFor(registry.Resolved(row.value))
    ensures !(row.Some? && registry.Resolved(row.value).HasActions()) ==>
      cell.accessoryType == AccessoryNone && cell.selectionStyle == SelectionNone
  {
    cell.accessoryType := AccessoryNone;
    cell.selectionStyle := SelectionNone;
    if row.Some? {
      var _ := WillDisplayCell(registry, cell, row.value);
    }
  }

  /**
   * `tableView(_:didSelectObject:atIndexPath:)`: nothing without actions;
   * otherwise the tap, then a deselection if the tap answered `true`, then
   * the navigate action, which always runs.
   */
  method DidSelectObject(registry: Actions, o: Subject) returns (effects: seq<Effect>)
    requires TapSelectorSafe(registry.Resolved(o))
    ensures !registry.Resolved(o).HasActions() ==> effects == []
    ensures registry.Resolved(o).HasActions() ==>
      var a := registry.Resolved(o);
      effects == AsEffects(TapRun(a).fired)
                 + (if TapRun(a).result == Some(true) then [Deselected] else [])
                 + AsEffects(PerformNavigateAction(a))
    ensures Deselected in effects <==>
      registry.Resolved(o).HasActions() && TapRun(registry.Resolved(o)).result == Some(true)
  {
    var actions := registry.ActionsForObject(o);
    if !actions.HasActions() {
      return [];
    }
    var shouldDeselect, tapped := PerformTapAction(actions);
    effects := AsEffects(tapped);
    if shouldDeselect.Some? {
      if shouldDeselect.value {
        effects := effects + [Deselected];
      }
    }
    effects := effects + AsEffects(PerformNavigateAction(actions));
  }

  /** `tableView(_:accessoryButtonTappedForObject:withIndexPath:)`: the detail action only, and only for an object with actions. */
  method AccessoryButtonTapped(registry: Actions, o: Subject) returns (fired: seq<HandlerId>)
    ensures !registry.Resolved(o).HasActions() ==> fired == []
    ensures registry.Resolved(o).HasActions() ==> fired == PerformDetailAction(registry.Resolved(o))
  {
    var actions := registry.ActionsForObject(o);
    if !actions.HasActions() {
      return [];
    }
    fired := PerformDetailAction(actions);
  }
}
