/**
 * `TypedModel` of Classes/Core/TypedModel.swift: a class holding one
 * `Model` whose header, footer and object types are all the same object
 * type. Its queries read the stored model; its mutators forward to the
 * model's mutating operations and return what they return.
 */
module TypedModels {
  import opened Wrappers
  import opened SectionedModel

  class TypedModel<O(==)> {
    /** `mutableModel`: owned by this facade and mutated in place. */
    const mutableModel: Model<O, O, O>

    /** `init(sections:)`. */
    constructor (sections: seq<Section<O, O, O>>)
      ensures fresh(mutableModel)
      ensures Snapshot() == sections
    {
      mutableModel := new Model(sections);
    }

    /** `init(list:)`: one section, without header or footer, holding the list. */
    constructor FromList(list: seq<O>)
      ensures fresh(mutableModel)
      ensures Snapshot() == [Section(None, list)]
    {
      mutableModel := new Model([Section(None, list)]);
    }

    /** `init()`: one empty section without header or footer. */
    constructor Empty()
      ensures fresh(mutableModel)
      ensures Snapshot() == [Section(None, [])]
    {
      mutableModel := new Model([Section(None, [])]);
    }

    /** `typedModel()`: a value copy of the stored model, answering every query as the model does. */
    function Snapshot(): (ss: seq<Section<O, O, O>>)
      reads mutableModel
      ensures |ss| == |mutableModel.sections|
      ensures forall p :: ValidPath(ss, p) <==> ValidPath(mutableModel.sections, p)
      ensures forall p :: ValidPath(ss, p) ==> ss[p.section].objects[p.row] == mutableModel.ObjectAtPath(p)
      ensures forall s: nat :: s < |ss| ==> HeaderOf(ss[s]) == mutableModel.HeaderAtSection(s)
      ensures forall s: nat :: s < |ss| ==> FooterOf(ss[s]) == mutableModel.FooterAtSection(s)
    {
      mutableModel.sections
    }

    /** `objectAtPath`: the object at that path of the stored model. */
    function ObjectAtPath(p: IndexPath): (o: O)
      reads mutableModel
      requires ValidPath(Snapshot(), p)
      ensures o == Snapshot()[p.section].objects[p.row]
    {
      mutableModel.ObjectAtPath(p)
    }

    /** `pathForObject`: the first path of the stored model holding the needle. */
    method PathForObject(needle: O) returns (p: Option<IndexPath>)
      ensures IsFirstMatch(Snapshot(), needle, p)
    {
      p := mutableModel.PathForObject(needle);
    }

    /** `headerAtSection`. */
    function HeaderAtSection(s: nat): (h: Option<O>)
      reads mutableModel
      requires s < |Snapshot()|
      ensures h == HeaderOf(Snapshot()[s])
    {
      mutableModel.HeaderAtSection(s)
    }

    /** `footerAtSection`. */
    function FooterAtSection(s: nat): (f: Option<O>)
      reads mutableModel
      requires s < |Snapshot()|
      ensures f == FooterOf(Snapshot()[s])
    {
      mutableModel.FooterAtSection(s)
    }

    /** `addObject(_:)`. */
    method AddObject(o: O) returns (paths: seq<IndexPath>)
      modifies mutableModel
      ensures Snapshot() == ObjectsAddedToLast(old(Snapshot()), [o])
      ensures var m := MinimalState(old(Snapshot()));
        paths == [IndexPath(|m[|m| - 1].objects|, |m| - 1)]
    {
      paths := mutableModel.AddObject(o);
    }

    /** `addObjects(_:)`: one path per object, and the object count grows by as many. */
    method AddObjects(objects: seq<O>) returns (paths: seq<IndexPath>)
      modifies mutableModel
      ensures Snapshot() == ObjectsAddedToLast(old(Snapshot()), objects)
      ensures var m := MinimalState(old(Snapshot()));
        paths == AppendedPaths(|m[|m| - 1].objects|, |m| - 1, |objects|)
      ensures |paths| == |objects|
      ensures TotalCount(Snapshot()) == TotalCount(old(Snapshot())) + |objects|
    {
      paths := mutableModel.AddObjects(objects);
      ObjectsAddedCount(old(Snapshot()), objects);
    }

    /** `addObject(_:toSection:)`. */
    method AddObjectToSection(o: O, s: nat) returns (paths: seq<IndexPath>)
      requires s < |Snapshot()|
      modifies mutableModel
      ensures Snapshot() == ObjectsAppended(old(Snapshot()), s, [o])
      ensures paths == [IndexPath(|old(Snapshot())[s].objects|, s)]
    {
      paths := mutableModel.AddObjectToSection(o, s);
    }

    /** `addObjects(_:toSection:)`. */
    method AddObjectsToSection(objects: seq<O>, s: nat) returns (paths: seq<IndexPath>)
      requires s < |Snapshot()|
      modifies mutableModel
      ensures Snapshot() == ObjectsAppended(old(Snapshot()), s, objects)
      ensures paths == AppendedPaths(|old(Snapshot())[s].objects|, s, |objects|)
    {
      paths := mutableModel.AddObjectsToSection(objects, s);
    }

    /** `removeObjectAtIndexPath`. */
    method RemoveObjectAtIndexPath(p: IndexPath) returns (paths: seq<IndexPath>)
      requires ValidPath(Snapshot(), p)
      modifies mutableModel
      ensures Snapshot() == RowRemoved(old(Snapshot()), p)
      ensures paths == [p]
    {
      paths := mutableModel.RemoveObjectAtIndexPath(p);
    }

    /** `addSectionWithHeader`. */
    method AddSectionWithHeader(header: O) returns (index: nat)
      modifies mutableModel
      ensures Snapshot() == SectionAppended(old(Snapshot()), header)
      ensures index == |old(Snapshot())|
    {
      index := mutableModel.AddSectionWithHeader(header);
    }

    /** `insertSectionWithHeader`. */
    method InsertSectionWithHeader(header: O, index: nat) returns (inserted: nat)
      requires index < |Snapshot()|
      modifies mutableModel
      ensures Snapshot() == SectionInserted(old(Snapshot()), index, header)
      ensures inserted == index
    {
      inserted := mutableModel.InsertSectionWithHeader(header, index);
    }

    /** `removeSectionAtIndex`. */
    method RemoveSectionAtIndex(index: nat) returns (removed: nat)
      requires index < |Snapshot()|
      modifies mutableModel
      ensures Snapshot() == SectionRemoved(old(Snapshot()), index)
      ensures removed == index
    {
      removed := mutableModel.RemoveSectionAtIndex(index);
    }

    /** `setFooterForLastSection`. */
    method SetFooterForLastSection(footer: O) returns (index: nat)
      modifies mutableModel
      ensures Snapshot() == FooterSetOnLast(old(Snapshot()), footer)
      ensures index == |Snapshot()| - 1
    {
      index := mutableModel.SetFooterForLastSection(footer);
    }

    /** `setFooter(_:atIndex:)`. */
    method SetFooter(footer: O, s: nat) returns (index: nat)
      requires s < |Snapshot()|
      modifies mutableModel
      ensures Snapshot() == FooterSet(old(Snapshot()), s, footer)
      ensures index == s
    {
      index := mutableModel.SetFooter(footer, s);
    }
  }
}
