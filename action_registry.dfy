/**
 * The action registry of Classes/Actions.swift: bundles of tap, navigate and
 * detail handlers attached to single objects or to classes, and their
 * resolution for one object by walking its class ancestry.
 *
 * Handlers are opaque here. A handler is named by an id; running it records
 * that id and yields a fixed result. A weakly held target is a liveness flag.
 * An object is its hash key together with its class ancestry.
 */
module ActionRegistry {
  import opened Wrappers

  type HandlerId = nat

  /** A closure attached directly (an `Action`); running it yields `result`. */
  datatype DirectAction = DirectAction(id: HandlerId, result: bool)

  /**
   * A selector bound to a weakly held target. `BoolTarget` is the source's
   * `BoolObjectAction`, which a targeted tap stores; `VoidTarget` is its
   * `VoidObjectAction`, which a targeted navigate or detail stores.
   */
  datatype TargetAction =
    | BoolTarget(id: HandlerId, targetAlive: bool, result: bool)
    | VoidTarget(id: HandlerId, targetAlive: bool)

  /** What running handlers produced: the reported result, if any, and the ids that ran, in order. */
  datatype Invocation = Invocation(result: Option<bool>, fired: seq<HandlerId>)

  /**
   * `performAction`: the selector runs only while its target is alive, and
   * only the Bool form reports a result.
   */
  function PerformTarget(t: TargetAction): (r: Invocation)
    ensures r.fired == (if t.targetAlive then [t.id] else [])
    ensures r.result.Some? <==> t.BoolTarget? && t.targetAlive
    ensures t.BoolTarget? && t.targetAlive ==> r.result == Some(t.result)
  {
    if !t.targetAlive then Invocation(None, [])
    else match t
      case BoolTarget(id, _, result) => Invocation(Some(result), [id])
      case VoidTarget(id, _) => Invocation(None, [id])
  }

  /** The six handler slots of an `ObjectActions`. */
  datatype Slot = Tap | Navigate | Detail | TapSelector | NavigateSelector | DetailSelector

  /** The content of a slot, whichever of the two kinds it holds. */
  datatype Handler = Direct(direct: DirectAction) | Targeted(target: TargetAction)

  function AsDirect(d: Option<DirectAction>): Option<Handler> {
    if d.Some? then Some(Direct(d.value)) else None
  }

  function AsTargeted(t: Option<TargetAction>): Option<Handler> {
    if t.Some? then Some(Targeted(t.value)) else None
  }

  /** `ObjectActions`: three direct slots, their three targeted twins, and the `enabled` flag. */
  datatype ObjectActions = ObjectActions(
    tap: Option<DirectAction>,
    navigate: Option<DirectAction>,
    detail: Option<DirectAction>,
    tapSelector: Option<TargetAction>,
    navigateSelector: Option<TargetAction>,
    detailSelector: Option<TargetAction>,
    enabled: bool)
  {
    /** `hasActions`: some slot holds a handler. */
    predicate HasActions(): (r: bool)
      ensures r <==> Get(Tap).Some? || Get(Navigate).Some? || Get(Detail).Some?
                     || Get(TapSelector).Some? || Get(NavigateSelector).Some? || Get(DetailSelector).Some?
    {
      HasTapAction() || HasNavigateAction() || HasDetailAction()
    }

    /** `hasTapAction`: the direct or the targeted tap slot holds a handler. */
    predicate HasTapAction(): (r: bool)
      ensures r <==> Get(Tap).Some? || Get(TapSelector).Some?
    {
      tap.Some? || tapSelector.Some?
    }

    /** `hasNavigateAction`: the direct or the targeted navigate slot holds a handler. */
    predicate HasNavigateAction(): (r: bool)
      ensures r <==> Get(Navigate).Some? || Get(NavigateSelector).Some?
    {
      navigate.Some? || navigateSelector.Some?
    }

    /** `hasDetailAction`: the direct or the targeted detail slot holds a handler. */
    predicate HasDetailAction(): (r: bool)
      ensures r <==> Get(Detail).Some? || Get(DetailSelector).Some?
    {
      detail.Some? || detailSelector.Some?
    }

    /** The handler held in slot `s`, if any. */
    function Get(s: Slot): Option<Handler> {
      match s
      case Tap => AsDirect(tap)
      case Navigate => AsDirect(navigate)
      case Detail => AsDirect(detail)
      case TapSelector => AsTargeted(tapSelector)
      case NavigateSelector => AsTargeted(navigateSelector)
      case DetailSelector => AsTargeted(detailSelector)
    }
  }

  /** `ObjectActions()`: every slot unset, enabled. */
  function NewObjectActions(): (a: ObjectActions)
    ensures forall s: Slot :: a.Get(s).None?
    ensures a.enabled
  {
    ObjectActions(None, None, None, None, None, None, true)
  }

  /** `hasActions` holds exactly when some slot holds a handler. */
  lemma QueriesReadTheirSlots(a: ObjectActions)
    ensures a.HasActions() <==> exists s: Slot :: a.Get(s).Some?
  {
  }

  // ---------------------------------------------------------------------
  // Dispatch
  // ---------------------------------------------------------------------

  /** Swift's `||` evaluates the targeted tap only while the running result is still `false`. */
  predicate SelectorTapRuns(a: ObjectActions) {
    a.tapSelector.Some? && !(a.tap.Some? && a.tap.value.result)
  }

  /**
   * The force-unwrap of the targeted tap's result does not trap: whenever the
   * targeted tap is evaluated, it reports a result, so it is the Bool form and
   * its target is alive.
   */
  predicate TapSelectorSafe(a: ObjectActions) {
    SelectorTapRuns(a) ==> a.tapSelector.value.BoolTarget? && a.tapSelector.value.targetAlive
  }

  /**
   * What `performTapAction` does: nothing and `nil` without a tap slot;
   * otherwise the direct tap first, then the targeted tap unless the direct
   * one already returned `true`, and the OR of what ran.
   */
  function TapRun(a: ObjectActions): (r: Invocation)
    requires TapSelectorSafe(a)
    ensures r.result.None? <==> !a.HasTapAction()
    ensures r.result.None? ==> r.fired == []
    ensures |r.fired| == (if a.tap.Some? then 1 else 0) + (if SelectorTapRuns(a) then 1 else 0)
    ensures a.tap.Some? ==> r.fired[0] == a.tap.value.id
    ensures SelectorTapRuns(a) ==> r.fired[|r.fired| - 1] == a.tapSelector.value.id
    ensures r.result.Some? ==>
      r.result.value == ((a.tap.Some? && a.tap.value.result) || (SelectorTapRuns(a) && a.tapSelector.value.result))
    // the short-circuit decides which handlers run, never the value returned
    ensures r.result.Some? ==>
      r.result.value == ((a.tap.Some? && a.tap.value.result)
                         || (a.tapSelector.Some? && a.tapSelector.value.BoolTarget? && a.tapSelector.value.result))
  {
    if !a.HasTapAction() then Invocation(None, [])
    else
      var directFired := if a.tap.Some? then [a.tap.value.id] else [];
      if SelectorTapRuns(a) then
        var targeted := PerformTarget(a.tapSelector.value);
        Invocation(Some(targeted.result.value), directFired + targeted.fired)
      else
        Invocation(Some(a.tap.Some? && a.tap.value.result), directFired)
  }

  /** `performTapAction`, accumulating into a local `shouldDeselect` as the source does. */
  method PerformTapAction(a: ObjectActions) returns (shouldDeselect: Option<bool>, fired: seq<HandlerId>)
    requires TapSelectorSafe(a)
    ensures Invocation(shouldDeselect, fired) == TapRun(a)
  {
    if !a.HasTapAction() {
      return None, [];
    }
    var deselect := false;
    fired := [];
    if a.tap.Some? {
      fired := fired + [a.tap.value.id];
      deselect := deselect || a.tap.value.result;
    }
    if a.tapSelector.Some? {
      // `||` evaluates, and force-unwraps, the targeted result only while still false
      if !deselect {
        var targeted := PerformTarget(a.tapSelector.value);
        fired := fired + targeted.fired;
        deselect := targeted.result.value;
      }
    }
    shouldDeselect := Some(deselect);
  }

  /** Runs a direct handler and then a targeted one, with no short-circuit. */
  function RunBoth(direct: Option<DirectAction>, targeted: Option<TargetAction>): seq<HandlerId> {
    (if direct.Some? then [direct.value.id] else [])
    + (if targeted.Some? then PerformTarget(targeted.value).fired else [])
  }

  /** `performNavigateAction`: the direct navigate, then the targeted one if its target is alive. */
  function PerformNavigateAction(a: ObjectActions): (fired: seq<HandlerId>)
    ensures !a.HasNavigateAction() ==> fired == []
    ensures |fired| == (if a.navigate.Some? then 1 else 0)
                       + (if a.navigateSelector.Some? && a.navigateSelector.value.targetAlive then 1 else 0)
    ensures a.navigate.Some? ==> fired[0] == a.navigate.value.id
    ensures a.navigateSelector.Some? && a.navigateSelector.value.targetAlive ==>
      fired[|fired| - 1] == a.navigateSelector.value.id
  {
    RunBoth(a.navigate, a.navigateSelector)
  }

  /** `performDetailAction`: the direct detail, then the targeted one if its target is alive. */
  function PerformDetailAction(a: ObjectActions): (fired: seq<HandlerId>)
    ensures !a.HasDetailAction() ==> fired == []
    ensures |fired| == (if a.detail.Some? then 1 else 0)
                       + (if a.detailSelector.Some? && a.detailSelector.value.targetAlive then 1 else 0)
    ensures a.detail.Some? ==> fired[0] == a.detail.value.id
    ensures a.detailSelector.Some? && a.detailSelector.value.targetAlive ==>
      fired[|fired| - 1] == a.detailSelector.value.id
  {
    RunBoth(a.detail, a.detailSelector)
  }

  // ---------------------------------------------------------------------
  // Union and reset
  // ---------------------------------------------------------------------

  function Prefer<X>(mine: Option<X>, theirs: Option<X>): Option<X> {
    if mine.Some? then mine else theirs
  }

  /**
   * The value `unionWith` leaves behind: a slot already set keeps its
   * handler, an unset slot takes `other`'s, and `enabled` is never copied.
   */
  function Merge(a: ObjectActions, other: Option<ObjectActions>): (r: ObjectActions)
    ensures other.None? ==> r == a
    ensures r.enabled == a.enabled
    ensures forall s: Slot :: a.Get(s).Some? ==> r.Get(s) == a.Get(s)
    ensures forall s: Slot :: a.Get(s).None? && other.Some? ==> r.Get(s) == other.value.Get(s)
  {
    match other
    case None => a
    case Some(o) =>
      a.(tap := Prefer(a.tap, o.tap),
         navigate := Prefer(a.navigate, o.navigate),
         detail := Prefer(a.detail, o.detail),
         tapSelector := Prefer(a.tapSelector, o.tapSelector),
         navigateSelector := Prefer(a.navigateSelector, o.navigateSelector),
         detailSelector := Prefer(a.detailSelector, o.detailSelector))
  }

  /** `unionWith`, filling the unset slots one at a time. */
  method UnionWith(a: ObjectActions, other: Option<ObjectActions>) returns (r: ObjectActions)
    ensures r == Merge(a, other)
  {
    r := a;
    if other.None? {
      return;
    }
    var o := other.value;
    if r.tap.None? && o.tap.Some? {
      r := r.(tap := o.tap);
    }
    if r.navigate.None? && o.navigate.Some? {
      r := r.(navigate := o.navigate);
    }
    if r.detail.None? && o.detail.Some? {
      r := r.(detail := o.detail);
    }
    if r.tapSelector.None? && o.tapSelector.Some? {
      r := r.(tapSelector := o.tapSelector);
    }
    if r.navigateSelector.None? && o.navigateSelector.Some? {
      r := r.(navigateSelector := o.navigateSelector);
    }
    if r.detailSelector.None? && o.detailSelector.Some? {
      r := r.(detailSelector := o.detailSelector);
    }
  }

  /** The value `reset` leaves behind: all six slots cleared, `enabled` kept. */
  function Cleared(a: ObjectActions): (r: ObjectActions)
    ensures forall s: Slot :: r.Get(s).None?
    ensures r.enabled == a.enabled
    ensures !r.HasActions()
  {
    a.(tap := None, navigate := None, detail := None,
       tapSelector := None, navigateSelector := None, detailSelector := None)
  }

  /** `reset`, clearing the slots one at a time. */
  method Reset(a: ObjectActions) returns (r: ObjectActions)
    ensures r == Cleared(a)
  {
    r := a;
    r := r.(tap := None);
    r := r.(navigate := None);
    r := r.(detail := None);
    r := r.(tapSelector := None);
    r := r.(navigateSelector := None);
    r := r.(detailSelector := None);
  }

  // ---------------------------------------------------------------------
  // Attaching
  // ---------------------------------------------------------------------

  /** The six `attachTo…` overloads: the slot each one writes and the handler it stores there. */
  datatype Attachment =
    | AttachTap(action: DirectAction)
    | AttachNavigate(action: DirectAction)
    | AttachDetail(action: DirectAction)
    | AttachTargetTap(id: HandlerId, targetAlive: bool, result: bool)
    | AttachTargetNavigate(id: HandlerId, targetAlive: bool)
    | AttachTargetDetail(id: HandlerId, targetAlive: bool)
  {
    function SlotOf(): Slot {
      match this
      case AttachTap(_) => Tap
      case AttachNavigate(_) => Navigate
      case AttachDetail(_) => Detail
      case AttachTargetTap(_, _, _) => TapSelector
      case AttachTargetNavigate(_, _) => NavigateSelector
      case AttachTargetDetail(_, _) => DetailSelector
    }

    function Stored(): Handler {
      match this
      case AttachTap(d) => Direct(d)
      case AttachNavigate(d) => Direct(d)
      case AttachDetail(d) => Direct(d)
      case AttachTargetTap(id, alive, result) => Targeted(BoolTarget(id, alive, result))
      case AttachTargetNavigate(id, alive) => Targeted(VoidTarget(id, alive))
      case AttachTargetDetail(id, alive) => Targeted(VoidTarget(id, alive))
    }
  }

  /** An entry after an attach: exactly the attached slot is overwritten. */
  function Attached(a: ObjectActions, att: Attachment): (r: ObjectActions)
    ensures r.Get(att.SlotOf()) == Some(att.Stored())
    ensures forall s: Slot :: s != att.SlotOf() ==> r.Get(s) == a.Get(s)
    ensures r.enabled == a.enabled
  {
    match att
    case AttachTap(d) => a.(tap := Some(d))
    case AttachNavigate(d) => a.(navigate := Some(d))
    case AttachDetail(d) => a.(detail := Some(d))
    case AttachTargetTap(id, alive, result) => a.(tapSelector := Some(BoolTarget(id, alive, result)))
    case AttachTargetNavigate(id, alive) => a.(navigateSelector := Some(VoidTarget(id, alive)))
    case AttachTargetDetail(id, alive) => a.(detailSelector := Some(VoidTarget(id, alive)))
  }

  // ---------------------------------------------------------------------
  // Resolution
  // ---------------------------------------------------------------------

  /**
   * An object as the registry sees it: its `hashValue`, and its class
   * ancestry from its own class (first) up to the root class (last).
   */
  datatype Subject = Subject(hash: int, ancestry: seq<string>)

  function Lookup<K>(m: map<K, ObjectActions>, k: K): Option<ObjectActions> {
    if k in m then Some(m[k]) else None
  }

  function EntryOrNew<K>(m: map<K, ObjectActions>, k: K): ObjectActions {
    if k in m then m[k] else NewObjectActions()
  }

  /** Whether an (optional) entry defines slot `s`. */
  predicate Defines(e: Option<ObjectActions>, s: Slot) {
    e.Some? && e.value.Get(s).Some?
  }

  /**
   * The entries `actionsForObject` unions, in order: the object's own entry,
   * then one per class from the most-derived class to the root.
   */
  function Entries(objects: map<int, ObjectActions>, classes: map<string, ObjectActions>, o: Subject)
    : (es: seq<Option<ObjectActions>>)
    ensures |es| == |o.ancestry| + 1
    ensures es[0] == Lookup(objects, o.hash)
    ensures forall i :: 0 <= i < |o.ancestry| ==> es[i + 1] == Lookup(classes, o.ancestry[i])
  {
    [Lookup(objects, o.hash)] + seq(|o.ancestry|, i requires 0 <= i < |o.ancestry| => Lookup(classes, o.ancestry[i]))
  }

  lemma EntryOfClass(objects: map<int, ObjectActions>, classes: map<string, ObjectActions>, o: Subject, j: nat)
    requires j < |o.ancestry|
    ensures Entries(objects, classes, o)[j + 1] == Lookup(classes, o.ancestry[j])
  {
  }

  lemma NothingDefinedBelow(
    objects: map<int, ObjectActions>, classes: map<string, ObjectActions>, o: Subject, k: nat, s: Slot)
    requires k <= |o.ancestry|
    requires !Defines(Lookup(objects, o.hash), s)
    requires forall j :: 0 <= j < k ==> !Defines(Lookup(classes, o.ancestry[j]), s)
    ensures forall i :: 0 <= i < k + 1 ==> !Defines(Entries(objects, classes, o)[i], s)
  {
    forall i | 0 <= i < k + 1
      ensures !Defines(Entries(objects, classes, o)[i], s)
    {
      if i > 0 {
        EntryOfClass(objects, classes, o, i - 1);
      }
    }
  }

  /** `unionWith` applied to `acc` with each of `entries` in turn. */
  function FoldUnion(acc: ObjectActions, entries: seq<Option<ObjectActions>>): (r: ObjectActions)
    ensures r.enabled == acc.enabled
    decreases |entries|
  {
    if entries == [] then acc
    else Merge(FoldUnion(acc, entries[..|entries| - 1]), entries[|entries| - 1])
  }

  /** The priority rule stated directly: the handler of the first entry that defines slot `s`. */
  function FirstDefined(entries: seq<Option<ObjectActions>>, s: Slot): Option<Handler> {
    if entries == [] then None
    else if Defines(entries[0], s) then entries[0].value.Get(s)
    else FirstDefined(entries[1..], s)
  }

  /** What `actionsForObject` returns: the union, from a fresh `ObjectActions()`, of all entries in order. */
  function Resolve(objects: map<int, ObjectActions>, classes: map<string, ObjectActions>, o: Subject)
    : (r: ObjectActions)
    ensures r.enabled
  {
    FoldUnion(NewObjectActions(), Entries(objects, classes, o))
  }

  lemma {:induction false} FirstDefinedSnoc(es: seq<Option<ObjectActions>>, e: Option<ObjectActions>, s: Slot)
    ensures FirstDefined(es + [e], s) == Prefer(FirstDefined(es, s), if Defines(e, s) then e.value.Get(s) else None)
  {
    if es == [] {
      assert es + [e] == [e];
    } else {
      assert (es + [e])[1..] == es[1..] + [e];
      FirstDefinedSnoc(es[1..], e, s);
    }
  }

  /** Folding `unionWith` keeps, for every slot, the first definition met. */
  lemma {:induction false} FoldUnionIsFirstDefined(acc: ObjectActions, es: seq<Option<ObjectActions>>, s: Slot)
    ensures FoldUnion(acc, es).Get(s) == Prefer(acc.Get(s), FirstDefined(es, s))
    decreases |es|
  {
    if es != [] {
      var init, last := es[..|es| - 1], es[|es| - 1];
      assert es == init + [last];
      FoldUnionIsFirstDefined(acc, init, s);
      FirstDefinedSnoc(init, last, s);
    }
  }

  lemma {:induction false} FirstDefinedAt(es: seq<Option<ObjectActions>>, n: nat, s: Slot)
    requires n < |es| && Defines(es[n], s)
    requires forall i :: 0 <= i < n ==> !Defines(es[i], s)
    ensures FirstDefined(es, s) == es[n].value.Get(s)
  {
    if n > 0 {
      FirstDefinedAt(es[1..], n - 1, s);
    }
  }

  lemma {:induction false} FirstDefinedNowhere(es: seq<Option<ObjectActions>>, s: Slot)
    requires forall i :: 0 <= i < |es| ==> !Defines(es[i], s)
    ensures FirstDefined(es, s).None?
  {
    if es != [] {
      FirstDefinedNowhere(es[1..], s);
    }
  }

  /** Resolution gives, for every slot, the handler of the first entry that defines it. */
  lemma ResolveIsFirstDefined(objects: map<int, ObjectActions>, classes: map<string, ObjectActions>, o: Subject, s: Slot)
    ensures Resolve(objects, classes, o).Get(s) == FirstDefined(Entries(objects, classes, o), s)
  {
    FoldUnionIsFirstDefined(NewObjectActions(), Entries(objects, classes, o), s);
  }

  /** A slot the object's own entry defines beats every class entry. */
  lemma ObjectEntryWins(objects: map<int, ObjectActions>, classes: map<string, ObjectActions>, o: Subject, s: Slot)
    requires o.hash in objects && objects[o.hash].Get(s).Some?
    ensures Resolve(objects, classes, o).Get(s) == objects[o.hash].Get(s)
  {
    ResolveIsFirstDefined(objects, classes, o, s);
    FirstDefinedAt(Entries(objects, classes, o), 0, s);
  }

  /**
   * Otherwise the most-derived class defining the slot wins: class `k` of the
   * ancestry decides when neither the object nor any class below `k` does.
   */
  lemma FirstDefiningClassWins(
    objects: map<int, ObjectActions>, classes: map<string, ObjectActions>, o: Subject, k: nat, s: Slot)
    requires k < |o.ancestry|
    requires o.ancestry[k] in classes && classes[o.ancestry[k]].Get(s).Some?
    requires !Defines(Lookup(objects, o.hash), s)
    requires forall j :: 0 <= j < k ==> !Defines(Lookup(classes, o.ancestry[j]), s)
    ensures Resolve(objects, classes, o).Get(s) == classes[o.ancestry[k]].Get(s)
  {
    var es := Entries(objects, classes, o);
    NothingDefinedBelow(objects, classes, o, k, s);
    EntryOfClass(objects, classes, o, k);
    ResolveIsFirstDefined(objects, classes, o, s);
    FirstDefinedAt(es, k + 1, s);
  }

  /** A slot that no level defines stays unset. */
  lemma UndefinedSlotStaysUnset(
    objects: map<int, ObjectActions>, classes: map<string, ObjectActions>, o: Subject, s: Slot)
    requires !Defines(Lookup(objects, o.hash), s)
    requires forall j :: 0 <= j < |o.ancestry| ==> !Defines(Lookup(classes, o.ancestry[j]), s)
    ensures Resolve(objects, classes, o).Get(s).None?
  {
    var es := Entries(objects, classes, o);
    NothingDefinedBelow(objects, classes, o, |o.ancestry|, s);
    ResolveIsFirstDefined(objects, classes, o, s);
    FirstDefinedNowhere(es, s);
  }

  /** An object with no entry at any level resolves to no actions at all. */
  lemma UnregisteredHasNoActions(objects: map<int, ObjectActions>, classes: map<string, ObjectActions>, o: Subject)
    requires o.hash !in objects
    requires forall j :: 0 <= j < |o.ancestry| ==> o.ancestry[j] !in classes
    ensures !Resolve(objects, classes, o).HasActions()
  {
    forall s: Slot
      ensures Resolve(objects, classes, o).Get(s).None?
    {
      UndefinedSlotStaysUnset(objects, classes, o, s);
    }
    QueriesReadTheirSlots(Resolve(objects, classes, o));
  }

  /** After an attach to an object, that object resolves to the attached handler in that slot, whatever its classes hold. */
  lemma AttachedToObjectResolves(
    objects: map<int, ObjectActions>, classes: map<string, ObjectActions>, o: Subject, att: Attachment)
    ensures Resolve(objects[o.hash := Attached(EntryOrNew(objects, o.hash), att)], classes, o).Get(att.SlotOf())
            == Some(att.Stored())
  {
    ObjectEntryWins(objects[o.hash := Attached(EntryOrNew(objects, o.hash), att)], classes, o, att.SlotOf());
  }

  /** Two bundles with the same handler in every slot and the same flag are the same bundle. */
  lemma SameSlotsSameActions(a: ObjectActions, b: ObjectActions)
    requires forall s: Slot :: a.Get(s) == b.Get(s)
    requires a.enabled == b.enabled
    ensures a == b
  {
    assert a.Get(Tap) == b.Get(Tap) && a.Get(Navigate) == b.Get(Navigate) && a.Get(Detail) == b.Get(Detail);
    assert a.Get(TapSelector) == b.Get(TapSelector) && a.Get(NavigateSelector) == b.Get(NavigateSelector);
    assert a.Get(DetailSelector) == b.Get(DetailSelector);
  }

  /**
   * A reset object entry hides nothing: the object then resolves exactly as
   * if it had no entry at all, so its classes' actions apply again.
   */
  lemma ClearedObjectEntryDefersToClasses(
    objects: map<int, ObjectActions>, classes: map<string, ObjectActions>, o: Subject)
    requires o.hash in objects
    ensures Resolve(objects[o.hash := Cleared(objects[o.hash])], classes, o) == Resolve(objects - {o.hash}, classes, o)
  {
    var cleared, removed := objects[o.hash := Cleared(objects[o.hash])], objects - {o.hash};
    var e1, e2 := Entries(cleared, classes, o), Entries(removed, classes, o);
    assert e1[1..] == e2[1..];
    forall s: Slot
      ensures Resolve(cleared, classes, o).Get(s) == Resolve(removed, classes, o).Get(s)
    {
      ResolveIsFirstDefined(cleared, classes, o, s);
      ResolveIsFirstDefined(removed, classes, o, s);
      assert !Defines(e1[0], s) && !Defines(e2[0], s);
    }
    SameSlotsSameActions(Resolve(cleared, classes, o), Resolve(removed, classes, o));
  }

  /**
   * The example documented on `actionsForObject`: with the hierarchy
   * NSObject -> Widget (tap) -> DetailWidget (detail), a DetailWidget
   * instance gets Widget's tap and DetailWidget's detail; a tap attached to
   * the instance itself overrides Widget's tap.
   */
  lemma DetailWidgetExample(widgetTap: DirectAction, detail: DirectAction, ownTap: DirectAction, hash: int)
    ensures
      var classes := map["Widget" := Attached(NewObjectActions(), AttachTap(widgetTap)),
                          "DetailWidget" := Attached(NewObjectActions(), AttachDetail(detail))];
      var o := Subject(hash, ["DetailWidget", "Widget", "NSObject"]);
      var inherited := Resolve(map[], classes, o);
      var overridden := Resolve(map[hash := Attached(NewObjectActions(), AttachTap(ownTap))], classes, o);
      && inherited.tap == Some(widgetTap) && inherited.detail == Some(detail) && !inherited.HasNavigateAction()
      && overridden.tap == Some(ownTap) && overridden.detail == Some(detail)
  {
    var classes := map["Widget" := Attached(NewObjectActions(), AttachTap(widgetTap)),
                        "DetailWidget" := Attached(NewObjectActions(), AttachDetail(detail))];
    var o := Subject(hash, ["DetailWidget", "Widget", "NSObject"]);
    var objects := map[hash := Attached(NewObjectActions(), AttachTap(ownTap))];
    FirstDefiningClassWins(map[], classes, o, 1, Tap);
    FirstDefiningClassWins(map[], classes, o, 0, Detail);
    UndefinedSlotStaysUnset(map[], classes, o, Navigate);
    UndefinedSlotStaysUnset(map[], classes, o, NavigateSelector);
    ObjectEntryWins(objects, classes, o, Tap);
    FirstDefiningClassWins(objects, classes, o, 0, Detail);
  }

  /**
   * An object-level tap answering `false` beats a class-level tap answering
   * `true`: only the object's handler runs, and the row is not deselected.
   */
  lemma ObjectTapOverridesClassTap(ownTap: DirectAction, classTap: DirectAction, hash: int)
    requires !ownTap.result && classTap.result
    ensures
      var o := Subject(hash, ["Widget", "NSObject"]);
      var a := Resolve(map[hash := Attached(NewObjectActions(), AttachTap(ownTap))],
                       map["Widget" := Attached(NewObjectActions(), AttachTap(classTap))], o);
      TapSelectorSafe(a) && TapRun(a) == Invocation(Some(false), [ownTap.id])
  {
    var objects := map[hash := Attached(NewObjectActions(), AttachTap(ownTap))];
    var classes := map["Widget" := Attached(NewObjectActions(), AttachTap(classTap))];
    var o := Subject(hash, ["Widget", "NSObject"]);
    ObjectEntryWins(objects, classes, o, Tap);
    UndefinedSlotStaysUnset(objects, classes, o, TapSelector);
  }

  // ---------------------------------------------------------------------
  // The registry
  // ---------------------------------------------------------------------

  /** `Actions`: entries keyed by an object's `hashValue`, and entries keyed by class name. */
  class Actions {
    var objectToAction: map<int, ObjectActions>
    var classToAction: map<string, ObjectActions>

    constructor ()
      ensures objectToAction == map[] && classToAction == map[]
    {
      objectToAction := map[];
      classToAction := map[];
    }

    /** What `actionsForObject` returns for `o` in the current state. */
    function Resolved(o: Subject): ObjectActions
      reads this
    {
      Resolve(objectToAction, classToAction, o)
    }

    /** `isActionableObject`. */
    method IsActionableObject(o: Subject) returns (actionable: bool)
      ensures actionable == Resolved(o).HasActions()
    {
      var actions := ActionsForObject(o);
      actionable := actions.HasActions();
    }

    /** `setObject(_:enabled:)`: only the flag of the (possibly new) entry changes. */
    method SetObjectEnabled(o: Subject, enabled: bool)
      modifies this
      ensures classToAction == old(classToAction)
      ensures objectToAction == old(objectToAction)[o.hash := EntryOrNew(old(objectToAction), o.hash).(enabled := enabled)]
    {
      EnsureActionsExistForObject(o);
      objectToAction := objectToAction[o.hash := objectToAction[o.hash].(enabled := enabled)];
    }

    /** `setClass(_:enabled:)`: only the flag of the (possibly new) entry changes. */
    method SetClassEnabled(className: string, enabled: bool)
      modifies this
      ensures objectToAction == old(objectToAction)
      ensures classToAction == old(classToAction)[className := EntryOrNew(old(classToAction), className).(enabled := enabled)]
    {
      EnsureActionsExistForClass(className);
      classToAction := classToAction[className := classToAction[className].(enabled := enabled)];
    }

    /** The six `attachToObject` overloads: one slot of one object entry is overwritten; the object is returned. */
    method AttachToObject(o: Subject, att: Attachment) returns (r: Subject)
      modifies this
      ensures r == o
      ensures classToAction == old(classToAction)
      ensures objectToAction == old(objectToAction)[o.hash := Attached(EntryOrNew(old(objectToAction), o.hash), att)]
    {
      EnsureActionsExistForObject(o);
      objectToAction := objectToAction[o.hash := Attached(objectToAction[o.hash], att)];
      r := o;
    }

    /** The six `attachToClass` overloads: one slot of one class entry is overwritten; the class is returned. */
    method AttachToClass(className: string, att: Attachment) returns (r: string)
      modifies this
      ensures r == className
      ensures objectToAction == old(objectToAction)
      ensures classToAction == old(classToAction)[className := Attached(EntryOrNew(old(classToAction), className), att)]
    {
      EnsureActionsExistForClass(className);
      classToAction := classToAction[className := Attached(classToAction[className], att)];
      r := className;
    }

    /** `removeAllActionsForObject`: resets an existing entry in place; creates none. */
    method RemoveAllActionsForObject(o: Subject)
      modifies this
      ensures classToAction == old(classToAction)
      ensures o.hash in old(objectToAction) ==>
        objectToAction == old(objectToAction)[o.hash := Cleared(old(objectToAction)[o.hash])]
      ensures o.hash !in old(objectToAction) ==> objectToAction == old(objectToAction)
    {
      if o.hash in objectToAction {
        var cleared := Reset(objectToAction[o.hash]);
        objectToAction := objectToAction[o.hash := cleared];
      }
    }

    /** `removeAllActionsForClass`: resets an existing entry in place; creates none. */
    method RemoveAllActionsForClass(className: string)
      modifies this
      ensures objectToAction == old(objectToAction)
      ensures className in old(classToAction) ==>
        classToAction == old(classToAction)[className := Cleared(old(classToAction)[className])]
      ensures className !in old(classToAction) ==> classToAction == old(classToAction)
    {
      if className in classToAction {
        var cleared := Reset(classToAction[className]);
        classToAction := classToAction[className := cleared];
      }
    }

    /**
     * `actionsForObject`: starts from `ObjectActions()`, unions the object's
     * entry, then walks the ancestry from the object's class up to the root,
     * unioning each class entry. It changes neither dictionary.
     */
    method ActionsForObject(o: Subject) returns (actions: ObjectActions)
      ensures actions == Resolved(o)
      ensures forall s: Slot :: actions.Get(s) == FirstDefined(Entries(objectToAction, classToAction, o), s)
      ensures actions.enabled
    {
      ghost var es := Entries(objectToAction, classToAction, o);
      actions := NewObjectActions();
      actions := UnionWith(actions, Lookup(objectToAction, o.hash));
      assert es[..1] == [es[0]];
      var i := 0;
      while i < |o.ancestry|
        invariant 0 <= i <= |o.ancestry|
        invariant actions == FoldUnion(NewObjectActions(), es[..i + 1])
      {
        actions := UnionWith(actions, Lookup(classToAction, o.ancestry[i]));
        assert es[..i + 2][..i + 1] == es[..i + 1];
        i := i + 1;
      }
      assert es[..|o.ancestry| + 1] == es;
      forall s: Slot
        ensures actions.Get(s) == FirstDefined(es, s)
      {
        ResolveIsFirstDefined(objectToAction, classToAction, o, s);
      }
    }

    method EnsureActionsExistForObject(o: Subject)
      modifies this
      ensures classToAction == old(classToAction)
      ensures objectToAction == old(objectToAction)[o.hash := EntryOrNew(old(objectToAction), o.hash)]
    {
      if o.hash !in objectToAction {
        objectToAction := objectToAction[o.hash := NewObjectActions()];
      }
    }

    method EnsureActionsExistForClass(className: string)
      modifies this
      ensures objectToAction == old(objectToAction)
      ensures classToAction == old(classToAction)[className := EntryOrNew(old(classToAction), className)]
    {
      if className !in classToAction {
        classToAction := classToAction[className := NewObjectActions()];
      }
    }
  }
}
