# SwiftTable core, modelled in Dafny

SwiftTable is a small iOS table-view library. This project models its core:

- **The action registry** (`Classes/Actions.swift`, module `ActionRegistry`). Tap, navigate and detail handlers are attached to single objects (keyed by hash) or to classes (keyed by class name). For one object they are resolved by a priority walk: the object's own entry first, then its class, then each superclass up to the root. For every handler slot the first definition met wins. The registry is a class with two dictionaries, updated in place. An `ObjectActions` bundle is a value, as it is a Swift struct.
- **The table delegate rules** (`Classes/Table/TableActions.swift`, module `TableActions`). They decide which accessory and selection style a row's cell shows. They also decide what selecting a row, or tapping its accessory button, runs.
- **The sectioned data model** (`Classes/Core/Model.swift`, module `SectionedModel`). Sections each hold an optional (header, footer) pair and a list of objects. The model offers indexed lookup, a first-match search by identity, and appends, inserts and removals. `Model` is a class whose mutating operations are each proved against a function saying what the sections become.
- **`TypedModel`** (`Classes/Core/TypedModel.swift`, module `TypedModels`). It is a class that owns one `Model` and forwards every query and mutation to it. `Snapshot` stands for `typedModel()` (Classes/Core/TypedModel.swift:29-31).
- **The reuse-identifier rule, `TableItem`'s defaults and `TableCell.updateWithObject`** (`Classes/Table/TableCell.swift`, module `TableCells`).

Handlers are opaque. A handler is an id with a fixed result, and running one records its id in a trace. A weakly held target is a flag saying whether it is still alive. An object is its hash together with its class ancestry, most-derived class first. `Wrappers.Option` stands for Swift optionals.

The resolution proofs give `actionsForObject` an independent reference. `FirstDefined` names, slot by slot, the handler of the first entry that defines the slot. The loop in `ActionsForObject` is proved equal to the left fold of `unionWith` (`Resolve`), and that fold is proved equal to `FirstDefined`. From that, lemmas derive the documented priority rules:

- an object's own entry beats every class;
- the most-derived defining class wins;
- an undefined slot stays unset;
- the documented `DetailWidget` example holds.

The sectioned model's operations are paired with their inverses (remove after add or insert), with counts, and with the first-match characterisation of `pathForObject`, which is shown to be unique.

### Two behaviours a caller might not expect

The model follows the code in two places where it behaves differently from what a caller might expect:

- **`performTapAction` (Classes/Actions.swift:72-84).** A caller might expect both tap handlers to run, and a targeted tap whose target is gone to count as `false`. In the code, `||` skips the targeted tap once the direct tap has returned `true`. The targeted tap's optional result is also force-unwrapped, so a targeted tap whose target is gone traps.
  - `TapRun` models the short-circuit.
  - Its precondition `TapSelectorSafe` states exactly when the force-unwrap does not trap.
  - `TapRun` proves that the short-circuit changes which handlers run, but never the value returned.
- **The `enabled` flag.** A caller might expect resolution to merge it like the handler slots. `unionWith` (Classes/Actions.swift:96-118) never copies it, so a resolved bundle always has the `enabled` of a fresh `ObjectActions()`, which is `true`. `Merge`, `FoldUnion` and `Resolve` state this.

### The Swift-2 copy of the model

`Classes/Model.swift` is an older copy of `Classes/Core/Model.swift`. It has the same operations with the same bodies, written against `NSIndexPath`. The members below cover it as well:

- `init(sections:)`, `init(list:)`, `init()` at lines 53-69 → `SectionedModel.Model.constructor`, `FromList`, `Empty`.
- `objectAtPath` at 81-85 → `ObjectAtPath`.
- `pathForObject` at 93-102 → `PathForObject`.
- `headerAtSection` / `footerAtSection` at 104-112 → `HeaderAtSection` / `FooterAtSection`.
- `addObject` at 123-126 → `AddObject`.
- `addObjects` at 128-130 → `AddObjects`.
- `addObject(_:toSection:)` at 132-137 → `AddObjectToSection`.
- `addObjects(_:toSection:)` at 139-142 → `AddObjectsToSection`.
- `removeObjectAtIndexPath` at 144-147 → `RemoveObjectAtIndexPath`.
- `addSectionWithHeader` at 149-152 → `AddSectionWithHeader`.
- `insertSectionWithHeader` at 154-159 → `InsertSectionWithHeader`.
- `removeSectionAtIndex` at 161-164 → `RemoveSectionAtIndex`.
- `setFooterForLastSection` at 166-169 → `SetFooterForLastSection`.
- `setFooter` at 171-181 → `SetFooter`.
- `ensureMinimalState` at 186-190 → `EnsureMinimalState`.

## Model

| member | source | states |
|---|---|---|
| ActionRegistry.PerformTarget | Classes/Actions.swift:19-41 | A targeted handler runs only while its target is alive. Only the Bool form reports a result, and it is the handler's result. |
| ActionRegistry.NewObjectActions | Classes/Actions.swift:43-54 | A fresh bundle has all six slots unset and is enabled. |
| ActionRegistry.ObjectActions.HasActions | Classes/Actions.swift:56-58 | Holds iff at least one of the six slots holds a handler. |
| ActionRegistry.ObjectActions.HasTapAction | Classes/Actions.swift:60-62 | Holds iff the direct or the targeted tap slot holds a handler. |
| ActionRegistry.ObjectActions.HasNavigateAction | Classes/Actions.swift:64-66 | Holds iff the direct or the targeted navigate slot holds a handler. |
| ActionRegistry.ObjectActions.HasDetailAction | Classes/Actions.swift:68-70 | Holds iff the direct or the targeted detail slot holds a handler. |
| ActionRegistry.QueriesReadTheirSlots | Classes/Actions.swift:56-70 | `hasActions` holds iff there is some slot holding a handler. |
| ActionRegistry.TapRun | Classes/Actions.swift:72-84 | Without a tap, the result is `nil` and nothing runs. Otherwise: the direct tap runs first; the targeted tap runs last, and only if the direct one did not answer `true`; the result is the OR of what ran, which equals the OR of both handlers' results. |
| ActionRegistry.PerformTapAction | Classes/Actions.swift:72-84 | Accumulating a local flag, it returns exactly the result and trace of `TapRun`. |
| ActionRegistry.PerformNavigateAction | Classes/Actions.swift:86-89 | The direct navigate runs, then the targeted one if its target is alive. Without a navigate action nothing runs. |
| ActionRegistry.PerformDetailAction | Classes/Actions.swift:91-94 | The direct detail runs, then the targeted one if its target is alive. Without a detail action nothing runs. |
| ActionRegistry.Merge | Classes/Actions.swift:96-118 | A `nil` other changes nothing. A set slot keeps its handler, and an unset slot takes the other's. `enabled` is never copied. |
| ActionRegistry.UnionWith | Classes/Actions.swift:96-118 | Filling slots one at a time gives exactly `Merge`. |
| ActionRegistry.Cleared | Classes/Actions.swift:120-127 | After a reset all six slots are unset, so there are no actions, and `enabled` is kept. |
| ActionRegistry.Reset | Classes/Actions.swift:120-127 | Clearing slots one at a time gives exactly `Cleared`. |
| ActionRegistry.Attached | Classes/Actions.swift:158-236 | Each attach overload writes its own slot with the handler it builds: the Bool form for a targeted tap, the Void form for a targeted navigate or detail. Every other slot and `enabled` are untouched. |
| ActionRegistry.Entries | Classes/Actions.swift:270-278 | The entries met, in order: the object's own entry, then one per class from the object's class up to the root. |
| ActionRegistry.FoldUnion | Classes/Actions.swift:271-278 | Folding `unionWith` keeps the starting `enabled`. |
| ActionRegistry.Resolve | Classes/Actions.swift:270-281 | A resolved bundle is always enabled. |
| ActionRegistry.FirstDefinedSnoc | Classes/Actions.swift:96-118 | One more entry at the end supplies a slot only if no earlier entry defined it. |
| ActionRegistry.FoldUnionIsFirstDefined | Classes/Actions.swift:271-278 | Folding `unionWith` gives each slot the first definition met. |
| ActionRegistry.ResolveIsFirstDefined | Classes/Actions.swift:251-281 | Resolution gives every slot the handler of the first entry, in priority order, that defines it. |
| ActionRegistry.ObjectEntryWins | Classes/Actions.swift:258-261 | A slot set on the object's own entry is the resolved one, whatever its classes hold. |
| ActionRegistry.FirstDefiningClassWins | Classes/Actions.swift:258-263 | Class `k` of the ancestry decides a slot when neither the object's entry nor any more-derived class defines it. |
| ActionRegistry.UndefinedSlotStaysUnset | Classes/Actions.swift:270-281 | A slot that no level defines stays unset. |
| ActionRegistry.UnregisteredHasNoActions | Classes/Actions.swift:270-281 | An object with no entry at any level resolves to no actions at all. |
| ActionRegistry.AttachedToObjectResolves | Classes/Actions.swift:158-192 | After any attach to an object, resolving that object yields the attached handler in the attached slot. |
| ActionRegistry.ClearedObjectEntryDefersToClasses | Classes/Actions.swift:240-242 | After `removeAllActionsForObject`, the object resolves as if it had no entry, so its classes' actions apply again. |
| ActionRegistry.DetailWidgetExample | Classes/Actions.swift:264-268 | Documented example: with NSObject -> Widget (tap) -> DetailWidget (detail), an instance gets Widget's tap and its own class's detail, and no navigate. A tap attached to the instance overrides Widget's tap. |
| ActionRegistry.ObjectTapOverridesClassTap | Classes/Actions.swift:258-281 | An object-level tap answering `false` beats a class tap answering `true`. Only the object's handler runs, and the result is `false`. |
| ActionRegistry.Actions.constructor | Classes/Actions.swift:130-133 | A new registry has both dictionaries empty. |
| ActionRegistry.Actions.IsActionableObject | Classes/Actions.swift:139-141 | True iff the resolved bundle has actions. |
| ActionRegistry.Actions.SetObjectEnabled | Classes/Actions.swift:145-148 | Only the `enabled` flag of the object's entry changes, and the entry is created if missing. The class dictionary is unchanged. |
| ActionRegistry.Actions.SetClassEnabled | Classes/Actions.swift:150-154 | Only the `enabled` flag of the class's entry changes, and the entry is created if missing. The object dictionary is unchanged. |
| ActionRegistry.Actions.AttachToObject | Classes/Actions.swift:158-192 | The object's entry (created if missing) becomes `Attached(entry, att)`. Nothing else changes, and the object is returned. |
| ActionRegistry.Actions.AttachToClass | Classes/Actions.swift:196-236 | The class's entry (created if missing) becomes `Attached(entry, att)`. Nothing else changes, and the class is returned. |
| ActionRegistry.Actions.RemoveAllActionsForObject | Classes/Actions.swift:240-242 | An existing object entry is cleared in place, with `enabled` kept. A missing one is not created. |
| ActionRegistry.Actions.RemoveAllActionsForClass | Classes/Actions.swift:244-246 | An existing class entry is cleared in place, with `enabled` kept. A missing one is not created. |
| ActionRegistry.Actions.ActionsForObject | Classes/Actions.swift:270-281 | The ancestry loop returns `Resolve` of the current state: each slot is the first definition in priority order, and the bundle is enabled. Nothing changes. |
| ActionRegistry.Actions.EnsureActionsExistForObject | Classes/Actions.swift:286-290 | An object entry exists afterwards. An existing entry is kept unchanged, and a missing one becomes `ObjectActions()`. |
| ActionRegistry.Actions.EnsureActionsExistForClass | Classes/Actions.swift:292-296 | A class entry exists afterwards. An existing entry is kept unchanged, and a missing one becomes `ObjectActions()`. |
| TableActions.AccessoryTypeFor | Classes/Table/TableActions.swift:78-86 | A detail button iff a detail action resolves. A disclosure indicator iff there is a navigate action and no detail action. No accessory iff there is neither. |
| TableActions.SelectionStyleFor | Classes/Table/TableActions.swift:88-94 | Highlighted iff a navigate or tap action resolves, so a detail-only object is not highlighted. |
| TableActions.ActionableRowShowsAffordance | Classes/Table/TableActions.swift:78-94 | An object with actions shows an accessory, or is highlighted when selected. |
| TableActions.WillDisplayCell | Classes/Table/TableActions.swift:41-50 | Answers whether the object has actions. If not, the cell is untouched. If so, both cell fields follow the two rules. |
| TableActions.WillDisplay | Classes/Table/TableActions.swift:17-24 | The cell is cleared first. For a row whose object has actions, it then shows that object's accessory and selection style. Otherwise it keeps no accessory and no selection. |
| TableActions.DidSelectObject | Classes/Table/TableActions.swift:52-65 | Nothing happens without actions. Otherwise the tap runs, then a deselection iff the tap answered `true`, then the navigate action, always. |
| TableActions.AccessoryButtonTapped | Classes/Table/TableActions.swift:67-73 | Nothing runs without actions. Otherwise exactly the detail action runs. |
| SectionedModel.FirstMatchIsUnique | Classes/Core/Model.swift:99-108 | The first-match property of a search result determines it uniquely. |
| SectionedModel.MinimalState | Classes/Core/Model.swift:192-196 | A model with no sections gets one plain empty section. Any other model is unchanged. |
| SectionedModel.ObjectsAppended | Classes/Core/Model.swift:138-143 | The objects are appended to that section, which keeps its header and footer. Every other section is unchanged. |
| SectionedModel.ObjectsAppendedSnoc | Classes/Core/Model.swift:145-148 | Appending objects one at a time equals appending them all at once. |
| SectionedModel.ObjectsAddedToLast | Classes/Core/Model.swift:129-136 | No objects change nothing, not even an empty model. Otherwise an empty model first gets a section, and the objects go, in order, to the end of the last section. |
| SectionedModel.AppendedPaths | Classes/Core/Model.swift:138-148 | One path per appended object, in consecutive rows of that section, starting at the old row count. |
| SectionedModel.RowRemoved | Classes/Core/Model.swift:150-153 | That row is deleted and later rows of the section move down one. The pair and every other section are unchanged. |
| SectionedModel.SectionAppended | Classes/Core/Model.swift:155-158 | A new last section with that header, no footer and no objects. Earlier sections are unchanged. |
| SectionedModel.SectionInserted | Classes/Core/Model.swift:160-165 | A new section with that header sits at the index. Sections before it are unchanged, and those from the index on are shifted up one. |
| SectionedModel.SectionRemoved | Classes/Core/Model.swift:167-170 | That section is gone. Earlier sections are unchanged, and later ones are shifted down one. |
| SectionedModel.FooterSet | Classes/Core/Model.swift:177-187 | The section gets the footer. A section without a pair gets `(nil, footer)`; one with a pair keeps its header. Objects and other sections are unchanged. |
| SectionedModel.FooterSetOnLast | Classes/Core/Model.swift:172-175 | An empty model first gets a section. The last section then carries the footer and keeps its header and its objects. The sections before it are unchanged. |
| SectionedModel.ObjectsAddedCount | Classes/Core/Model.swift:134-136 | `addObjects` grows the object count by exactly the number of objects given. |
| SectionedModel.AddedObjectsAtTheirPaths | Classes/Core/Model.swift:129-143 | Every returned path is valid afterwards and holds the object added with it. |
| SectionedModel.RowRemovedCount | Classes/Core/Model.swift:150-153 | Removing a row lowers the object count by exactly one. |
| SectionedModel.RemoveUndoesAppend | Classes/Core/Model.swift:138-153 | Removing the row just appended to a section gives back the earlier sections. |
| SectionedModel.RemoveUndoesInsert | Classes/Core/Model.swift:160-170 | Removing the section just inserted gives back the earlier sections. |
| SectionedModel.RemoveUndoesAddSection | Classes/Core/Model.swift:155-170 | Removing the section just appended gives back the earlier sections. |
| SectionedModel.FooterSetIdempotent | Classes/Core/Model.swift:177-187 | Setting the same footer twice equals setting it once. |
| SectionedModel.FooterSetKeepsObjects | Classes/Core/Model.swift:177-187 | Setting a footer changes no object path and no object. |
| SectionedModel.Model.constructor | Classes/Core/Model.swift:59-61 | The model holds exactly the given sections. |
| SectionedModel.Model.FromList | Classes/Core/Model.swift:66-68 | One section without a pair, holding the list. |
| SectionedModel.Model.Empty | Classes/Core/Model.swift:73-75 | One empty section without a pair. |
| SectionedModel.Model.ObjectAtPath | Classes/Core/Model.swift:87-91 | For an in-range path, the object in that row of that section. |
| SectionedModel.Model.HeaderAtSection | Classes/Core/Model.swift:110-113 | The header of the section's pair, or `nil` without a pair. |
| SectionedModel.Model.FooterAtSection | Classes/Core/Model.swift:115-118 | The footer of the section's pair, or `nil` without a pair. |
| SectionedModel.Model.PathForObject | Classes/Core/Model.swift:99-108 | `nil` iff no object is the needle. Otherwise a valid path holding the needle, with no earlier path (by section, then row) holding it. |
| SectionedModel.Model.AddObject | Classes/Core/Model.swift:129-132 | An empty model first gets a section. The object goes to the end of the last section, and its path is returned. |
| SectionedModel.Model.AddObjects | Classes/Core/Model.swift:134-136 | Calling `addObject` per object leaves `ObjectsAddedToLast` and returns the consecutive paths of the new rows. |
| SectionedModel.Model.AddObjectToSection | Classes/Core/Model.swift:138-143 | Appends to that section only and returns the new last row's path. |
| SectionedModel.Model.AddObjectsToSection | Classes/Core/Model.swift:145-148 | Calling `addObject(_:toSection:)` per object appends them all, in order, and returns their consecutive paths. |
| SectionedModel.Model.RemoveObjectAtIndexPath | Classes/Core/Model.swift:150-153 | Deletes that row, leaving `RowRemoved`, and returns the path. |
| SectionedModel.Model.AddSectionWithHeader | Classes/Core/Model.swift:155-158 | Appends a header section and returns its index, the old section count. |
| SectionedModel.Model.InsertSectionWithHeader | Classes/Core/Model.swift:160-165 | Inserts a header section before an existing section and returns the index. |
| SectionedModel.Model.RemoveSectionAtIndex | Classes/Core/Model.swift:167-170 | Removes that section and returns the index. |
| SectionedModel.Model.SetFooterForLastSection | Classes/Core/Model.swift:172-175 | Leaves `FooterSetOnLast` and returns the last section's index. |
| SectionedModel.Model.SetFooter | Classes/Core/Model.swift:177-187 | Leaves `FooterSet` and returns the index. |
| SectionedModel.Model.EnsureMinimalState | Classes/Core/Model.swift:192-196 | Leaves `MinimalState`. |
| TypedModels.TypedModel.constructor | Classes/Core/TypedModel.swift:16-19 | A fresh owned model holding the given sections. |
| TypedModels.TypedModel.FromList | Classes/Core/TypedModel.swift:21-23 | A fresh owned model with one section holding the list. |
| TypedModels.TypedModel.Empty | Classes/Core/TypedModel.swift:25-27 | A fresh owned model with one empty section. |
| TypedModels.TypedModel.Snapshot | Classes/Core/TypedModel.swift:29-31 | The returned value has as many sections as the stored model and answers every object, header and footer query exactly as the stored model does. |
| TypedModels.TypedModel.ObjectAtPath | Classes/Core/TypedModel.swift:41-43 | The object at that path of the owned model. |
| TypedModels.TypedModel.PathForObject | Classes/Core/TypedModel.swift:50-52 | The first match of the needle in the owned model. |
| TypedModels.TypedModel.HeaderAtSection | Classes/Core/TypedModel.swift:54-56 | The owned model's header of that section. |
| TypedModels.TypedModel.FooterAtSection | Classes/Core/TypedModel.swift:58-60 | The owned model's footer of that section. |
| TypedModels.TypedModel.AddObject | Classes/Core/TypedModel.swift:64-66 | The owned model changes as `addObject` specifies, and that path is returned. |
| TypedModels.TypedModel.AddObjects | Classes/Core/TypedModel.swift:68-70 | The owned model changes as `addObjects` specifies. One path per object is returned, and the count grows by the number of objects. |
| TypedModels.TypedModel.AddObjectToSection | Classes/Core/TypedModel.swift:72-74 | The owned model changes as `addObject(_:toSection:)` specifies. |
| TypedModels.TypedModel.AddObjectsToSection | Classes/Core/TypedModel.swift:76-78 | The owned model changes as `addObjects(_:toSection:)` specifies. |
| TypedModels.TypedModel.RemoveObjectAtIndexPath | Classes/Core/TypedModel.swift:80-82 | The owned model loses that row, and the path is returned. |
| TypedModels.TypedModel.AddSectionWithHeader | Classes/Core/TypedModel.swift:84-86 | The owned model gains a last header section, and its index is returned. |
| TypedModels.TypedModel.InsertSectionWithHeader | Classes/Core/TypedModel.swift:88-90 | The owned model gains a header section at the index. |
| TypedModels.TypedModel.RemoveSectionAtIndex | Classes/Core/TypedModel.swift:92-94 | The owned model loses that section. |
| TypedModels.TypedModel.SetFooterForLastSection | Classes/Core/TypedModel.swift:96-98 | The owned model's last section gets the footer. |
| TypedModels.TypedModel.SetFooter | Classes/Core/TypedModel.swift:100-102 | The owned model's section gets the footer. |
| TableCells.TableItem | Classes/Table/TableCell.swift:11-24 | No cell class, the default style (raw value 0), and no reuse identifier of its own. |
| TableCells.DecimalString | Classes/Table/TableCell.swift:40 | The decimal digits of a number: non-empty, digits only, no leading zero, and read back as a number (`DigitsValue`) they denote exactly that number. |
| TableCells.DecimalStringInjective | Classes/Table/TableCell.swift:40 | Different numbers are written differently. |
| TableCells.ReuseIdentifierForObject | Classes/Table/TableCell.swift:35-45 | The object's own identifier verbatim when it has one. Otherwise the cell class name followed by the decimal raw value of the style, which never fails and has the class name as prefix. |
| TableCells.FallbackSeparatesStyles | Classes/Table/TableCell.swift:35-42 | Among objects without their own identifier, two share a fallback identifier iff they have the same style. |
| TableCells.TableItemIdentifier | Classes/Table/TableCell.swift:14-24 | A `TableItem` is always identified as the cell class name followed by "0". |
| TableCells.TableCell.UpdateWithObject | Classes/Table/TableCell.swift:47-50 | Stores the object in `item` and always answers `true`. |

## Left out

- **UIKit.** `UITableView`, `UITableViewCell`, deselection and animation are left out. A cell is its two display fields, and a deselection is an `Effect` in a trace.
- **`actionableObjectForTableView` (Classes/Table/TableActions.swift:96-103).** It asks the table's data source for the row's object. The model takes that object as a parameter: `None` when there is no object, or it is not an `NSObject`.
- **Two row-level delegate methods that only forward.** `didSelectRowAt` and `accessoryButtonTappedForRowWith` (Classes/Table/TableActions.swift:26-36) only fetch the row's object and, when there is one, call `DidSelectObject` / `AccessoryButtonTapped`.
- **Closures and what handlers do.** A handler is an id with a fixed result. What a handler does with the object and index path, and any dependence of its result on them, is not modelled.
- **Weak targets.** A target's liveness is a flag fixed when the handler is attached. Deallocation between two calls is not modelled.
- **Runtime class introspection.** `NSStringFromClass` and `superclass()` are replaced by the class-name ancestry carried in `Subject`.
- **Hash collisions.** Object entries are keyed by `hashValue` exactly as in the source. Two distinct objects with the same hash share an entry in the model too, but nothing is proved about that case.
- **The `enabled` flag.** It is stored, set and kept by reset and union, but no operation of the source consults it. So the model records it and proves nothing that depends on it.
- **Identity versus equality.** `pathForObject` compares by identity (`===`). The model compares by equality on `T`, which is identity when `T` is a class type.
- **Debug-only assertions.** Swift `assert` fires only in debug builds. Where an out-of-range index would then trap on the array access anyway, the model states the bound as a precondition.
- SectionedModel.Model.InsertSectionWithHeader: the precondition `index < |sections|` comes from a debug-only assertion. A release build would also accept `index == count`, which appends; that case is not modelled. `TypedModels.TypedModel.InsertSectionWithHeader` has the same precondition.
- SectionedModel.Model.SetFooter: its bound, like that of `AddObjectToSection`, also comes from a debug-only assertion, but any out-of-range index traps on the array access anyway, so the precondition loses nothing.
- **Integer widths.** Swift `Int` indices become `nat`, and negative indices (which trap) are excluded by type. Hash values are unbounded `int`.
- **`NSIndexSet` results.** They are modelled as the single index they contain.
- **Value copies of `Model`.** `typedModel()` returns a copy of the struct, modelled as the `Snapshot` value of the owned model's sections.
- **Cell height.** `TableCell.tableView(_:heightForObject:atIndexPath:)` (Classes/Table/TableCell.swift:31-33) returns the constant 44 points. It is floating point layout data and is not modelled.
- **`cellHeight` of `TableItem`.** It is a CGFloat layout cache, not modelled.
- **`TableCell.item` is `weak`.** The model keeps a strong `Option`, so an item being deallocated is not modelled.
- **`Classes/Model.swift`.** It is covered by the same members as `Classes/Core/Model.swift` (see the correspondence list above). Its `NSIndexPath` API differences are not modelled separately.
