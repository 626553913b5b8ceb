/**
 * The sectioned data model of Classes/Core/Model.swift (and its Swift-2 twin
 * Classes/Model.swift): a list of sections, each an optional (header, footer)
 * pair plus a list of objects, with indexed lookup, identity search, and
 * in-place appends, inserts and removals.
 *
 * The functions on `seq<Section>` say what each mutating operation leaves
 * behind; the `Model` class performs the operations in place and is proved
 * against them.
 */
module SectionedModel {
  import opened Wrappers

  /** A (row, section) index path. */
  datatype IndexPath = IndexPath(row: nat, section: nat)

  /** The optional `(header, footer)` pair of a section. */
  datatype Supplementary<H, F> = Supplementary(header: Option<H>, footer: Option<F>)

  /** `Section`: the optional (header, footer) pair and the section's objects. */
  datatype Section<H, F, T> = Section(supplementary: Option<Supplementary<H, F>>, objects: seq<T>)

  predicate ValidPath<H, F, T>(ss: seq<Section<H, F, T>>, p: IndexPath) {
    p.section < |ss| && p.row < |ss[p.section].objects|
  }

  /** The number of objects in all sections. */
  function TotalCount<H, F, T>(ss: seq<Section<H, F, T>>): nat {
    if ss == [] then 0 else TotalCount(ss[..|ss| - 1]) + |ss[|ss| - 1].objects|
  }

  function HeaderOf<H, F, T>(section: Section<H, F, T>): Option<H> {
    if section.supplementary.Some? then section.supplementary.value.header else None
  }

  function FooterOf<H, F, T>(section: Section<H, F, T>): Option<F> {
    if section.supplementary.Some? then section.supplementary.value.footer else None
  }

  /** Whether `p` comes before `q` in the search order: by section, then by row. */
  predicate Precedes(p: IndexPath, q: IndexPath) {
    p.section < q.section || (p.section == q.section && p.row < q.row)
  }

  /**
   * What `pathForObject` promises: `nil` exactly when no object is the
   * needle; otherwise a valid path holding the needle, with no earlier path
   * holding it.
   */
  ghost predicate IsFirstMatch<H, F, T>(ss: seq<Section<H, F, T>>, needle: T, p: Option<IndexPath>) {
    && (p.None? <==> forall q :: ValidPath(ss, q) ==> ss[q.section].objects[q.row] != needle)
    && (p.Some? ==> ValidPath(ss, p.value) && ss[p.value.section].objects[p.value.row] == needle)
    && (p.Some? ==> forall q :: ValidPath(ss, q) && Precedes(q, p.value) ==> ss[q.section].objects[q.row] != needle)
  }

  /** The first-match property pins the search result down completely. */
  lemma FirstMatchIsUnique<H, F, T>(ss: seq<Section<H, F, T>>, needle: T, p: Option<IndexPath>, q: Option<IndexPath>)
    requires IsFirstMatch(ss, needle, p) && IsFirstMatch(ss, needle, q)
    ensures p == q
  {
    if p.Some? && q.Some? {
      assert !Precedes(p.value, q.value) && !Precedes(q.value, p.value);
    }
  }

  // ---------------------------------------------------------------------
  // What each mutating operation leaves behind
  // ---------------------------------------------------------------------

  /** `ensureMinimalState`: an empty model gets one plain empty section; any other is kept. */
  function MinimalState<H, F, T>(ss: seq<Section<H, F, T>>): (r: seq<Section<H, F, T>>)
    ensures |r| >= 1
    ensures |ss| > 0 ==> r == ss
    ensures |ss| == 0 ==> r == [Section(None, [])]
  {
    if |ss| == 0 then [Section(None, [])] else ss
  }

  /** `objects` appended to section `s`, which keeps its header and footer; all other sections unchanged. */
  function ObjectsAppended<H, F, T>(ss: seq<Section<H, F, T>>, s: nat, objects: seq<T>): (r: seq<Section<H, F, T>>)
    requires s < |ss|
    ensures |r| == |ss|
    ensures r[s].supplementary == ss[s].supplementary
    ensures r[s].objects == ss[s].objects + objects
    ensures forall i :: 0 <= i < |ss| && i != s ==> r[i] == ss[i]
  {
    ss[s := Section(ss[s].supplementary, ss[s].objects + objects)]
  }

  lemma ObjectsAppendedNothing<H, F, T>(ss: seq<Section<H, F, T>>, s: nat)
    requires s < |ss|
    ensures ObjectsAppended(ss, s, []) == ss
  {
    assert ss[s].objects + [] == ss[s].objects;
  }

  /** Appending objects one at a time is appending them all at once. */
  lemma ObjectsAppendedSnoc<H, F, T>(ss: seq<Section<H, F, T>>, s: nat, objects: seq<T>, o: T)
    requires s < |ss|
    ensures ObjectsAppended(ObjectsAppended(ss, s, objects), s, [o]) == ObjectsAppended(ss, s, objects + [o])
  {
    assert ss[s].objects + objects + [o] == ss[s].objects + (objects + [o]);
  }

  /**
   * The state `addObjects` leaves: nothing changes for no objects; otherwise
   * an empty model first gets a section, and the objects go, in order, to
   * the end of the last section.
   */
  function ObjectsAddedToLast<H, F, T>(ss: seq<Section<H, F, T>>, objects: seq<T>): (r: seq<Section<H, F, T>>)
    ensures objects == [] ==> r == ss
    ensures objects != [] ==> r == ObjectsAppended(MinimalState(ss), |MinimalState(ss)| - 1, objects)
  {
    if objects == [] then ss
    else
      var m := MinimalState(ss);
      ObjectsAppended(m, |m| - 1, objects)
  }

  /** The paths of `n` objects appended to section `s` whose first lands at row `start`. */
  function AppendedPaths(start: nat, s: nat, n: nat): (paths: seq<IndexPath>)
    ensures |paths| == n
    ensures forall i :: 0 <= i < n ==> paths[i] == IndexPath(start + i, s)
  {
    seq(n, i requires 0 <= i < n => IndexPath(start + i, s))
  }

  /** The row at `p` is deleted; later rows of that section move down one; everything else is unchanged. */
  function RowRemoved<H, F, T>(ss: seq<Section<H, F, T>>, p: IndexPath): (r: seq<Section<H, F, T>>)
    requires ValidPath(ss, p)
    ensures |r| == |ss|
    ensures r[p.section].supplementary == ss[p.section].supplementary
    ensures |r[p.section].objects| == |ss[p.section].objects| - 1
    ensures forall j :: 0 <= j < p.row ==> r[p.section].objects[j] == ss[p.section].objects[j]
    ensures forall j :: p.row <= j < |r[p.section].objects| ==> r[p.section].objects[j] == ss[p.section].objects[j + 1]
    ensures forall i :: 0 <= i < |ss| && i != p.section ==> r[i] == ss[i]
  {
    var objects := ss[p.section].objects;
    ss[p.section := Section(ss[p.section].supplementary, objects[..p.row] + objects[p.row + 1..])]
  }

  /** The section `addSectionWithHeader` and `insertSectionWithHeader` create: that header, no footer, no objects. */
  function HeaderSection<H, F, T>(header: H): Section<H, F, T> {
    Section(Some(Supplementary(Some(header), None)), [])
  }

  /** A new last section with that header; the earlier sections unchanged. */
  function SectionAppended<H, F, T>(ss: seq<Section<H, F, T>>, header: H): (r: seq<Section<H, F, T>>)
    ensures |r| == |ss| + 1
    ensures r[..|ss|] == ss
    ensures HeaderOf(r[|ss|]) == Some(header) && FooterOf(r[|ss|]).None? && r[|ss|].objects == []
  {
    ss + [HeaderSection(header)]
  }

  /** A new section at `index`; the sections before it unchanged, those from `index` on shifted up one. */
  function SectionInserted<H, F, T>(ss: seq<Section<H, F, T>>, index: nat, header: H): (r: seq<Section<H, F, T>>)
    requires index < |ss|
    ensures |r| == |ss| + 1
    ensures r[..index] == ss[..index] && r[index + 1..] == ss[index..]
    ensures HeaderOf(r[index]) == Some(header) && FooterOf(r[index]).None? && r[index].objects == []
  {
    ss[..index] + [HeaderSection(header)] + ss[index..]
  }

  /** Section `index` removed; the sections after it shifted down one. */
  function SectionRemoved<H, F, T>(ss: seq<Section<H, F, T>>, index: nat): (r: seq<Section<H, F, T>>)
    requires index < |ss|
    ensures |r| == |ss| - 1
    ensures r[..index] == ss[..index] && r[index..] == ss[index + 1..]
  {
    ss[..index] + ss[index + 1..]
  }

  /**
   * Section `s` gets `footer`: a section without a pair gets `(nil, footer)`,
   * one with a pair keeps its header. Objects and other sections unchanged.
   */
  function FooterSet<H, F, T>(ss: seq<Section<H, F, T>>, s: nat, footer: F): (r: seq<Section<H, F, T>>)
    requires s < |ss|
    ensures |r| == |ss|
    ensures r[s].supplementary.Some?
    ensures FooterOf(r[s]) == Some(footer)
    ensures HeaderOf(r[s]) == HeaderOf(ss[s])
    ensures r[s].objects == ss[s].objects
    ensures forall i :: 0 <= i < |ss| && i != s ==> r[i] == ss[i]
  {
    var pair :=
      if ss[s].supplementary.None? then Supplementary(None, Some(footer))
      else ss[s].supplementary.value.(footer := Some(footer));
    ss[s := Section(Some(pair), ss[s].objects)]
  }

  /** `setFooterForLastSection`: an empty model first gets a section; then the last section gets the footer. */
  function FooterSetOnLast<H, F, T>(ss: seq<Section<H, F, T>>, footer: F): (r: seq<Section<H, F, T>>)
    ensures |r| == |MinimalState(ss)| && |r| >= 1
    ensures FooterOf(r[|r| - 1]) == Some(footer)
    ensures HeaderOf(r[|r| - 1]) == HeaderOf(MinimalState(ss)[|r| - 1])
    ensures r[|r| - 1].objects == MinimalState(ss)[|r| - 1].objects
    ensures r[..|r| - 1] == MinimalState(ss)[..|r| - 1]
  {
    var m := MinimalState(ss);
    FooterSet(m, |m| - 1, footer)
  }

  // ---------------------------------------------------------------------
  // Object counts
  // ---------------------------------------------------------------------

  lemma {:induction false} TotalCountAppend<H, F, T>(ss: seq<Section<H, F, T>>, x: Section<H, F, T>)
    ensures TotalCount(ss + [x]) == TotalCount(ss) + |x.objects|
  {
    assert (ss + [x])[..|ss|] == ss;
  }

  /** Replacing one section changes the total by the difference in that section's size. */
  lemma {:induction false} TotalCountUpdate<H, F, T>(ss: seq<Section<H, F, T>>, s: nat, x: Section<H, F, T>)
    requires s < |ss|
    ensures TotalCount(ss[s := x]) + |ss[s].objects| == TotalCount(ss) + |x.objects|
    decreases |ss|
  {
    var n := |ss| - 1;
    assert ss[s := x][..n] == if s == n then ss[..n] else ss[..n][s := x];
    if s < n {
      TotalCountUpdate(ss[..n], s, x);
    }
  }

  /** `addObjects` adds exactly as many objects as it is given. */
  lemma ObjectsAddedCount<H, F, T>(ss: seq<Section<H, F, T>>, objects: seq<T>)
    ensures TotalCount(ObjectsAddedToLast(ss, objects)) == TotalCount(ss) + |objects|
  {
  }

  /** Each path `addObjects` returns is valid afterwards and holds the object added with it. */
  lemma AddedObjectsAtTheirPaths<H, F, T>(ss: seq<Section<H, F, T>>, objects: seq<T>)
    ensures var r := ObjectsAddedToLast(ss, objects);
      var m := MinimalState(ss);
      var paths := AppendedPaths(|m[|m| - 1].objects|, |m| - 1, |objects|);
      forall i :: 0 <= i < |objects| ==>
        ValidPath(r, paths[i]) && r[paths[i].section].objects[paths[i].row] == objects[i]
  {
  }

  /** `removeObjectAtIndexPath` removes exactly one object. */
  lemma RowRemovedCount<H, F, T>(ss: seq<Section<H, F, T>>, p: IndexPath)
    requires ValidPath(ss, p)
    ensures TotalCount(RowRemoved(ss, p)) + 1 == TotalCount(ss)
  {
    var objects := ss[p.section].objects;
    TotalCountUpdate(ss, p.section, Section(ss[p.section].supplementary, objects[..p.row] + objects[p.row + 1..]));
  }

  // ---------------------------------------------------------------------
  // Inverses and idempotence
  // ---------------------------------------------------------------------

  /** Removing the row just appended to a section gives back the sections before the append. */
  lemma RemoveUndoesAppend<H, F, T>(ss: seq<Section<H, F, T>>, s: nat, o: T)
    requires s < |ss|
    ensures ValidPath(ObjectsAppended(ss, s, [o]), IndexPath(|ss[s].objects|, s))
    ensures RowRemoved(ObjectsAppended(ss, s, [o]), IndexPath(|ss[s].objects|, s)) == ss
  {
    var r := RowRemoved(ObjectsAppended(ss, s, [o]), IndexPath(|ss[s].objects|, s));
    assert r[s].objects == ss[s].objects;
    assert r[s] == ss[s];
  }

  /** Removing the section just inserted gives back the sections before the insert. */
  lemma RemoveUndoesInsert<H, F, T>(ss: seq<Section<H, F, T>>, index: nat, header: H)
    requires index < |ss|
    ensures SectionRemoved(SectionInserted(ss, index, header), index) == ss
  {
    var r := SectionRemoved(SectionInserted(ss, index, header), index);
    assert r == r[..index] + r[index..];
  }

  /** Removing the section just appended gives back the sections before the append. */
  lemma RemoveUndoesAddSection<H, F, T>(ss: seq<Section<H, F, T>>, header: H)
    ensures SectionRemoved(SectionAppended(ss, header), |ss|) == ss
  {
    var r := SectionRemoved(SectionAppended(ss, header), |ss|);
    assert r == r[..|ss|];
  }

  /** Setting the same footer twice is setting it once. */
  lemma FooterSetIdempotent<H, F, T>(ss: seq<Section<H, F, T>>, s: nat, footer: F)
    requires s < |ss|
    ensures FooterSet(FooterSet(ss, s, footer), s, footer) == FooterSet(ss, s, footer)
  {
  }

  /** Setting a footer leaves every object path, and every object in it, as it was. */
  lemma FooterSetKeepsObjects<H, F, T>(ss: seq<Section<H, F, T>>, s: nat, footer: F, p: IndexPath)
    requires s < |ss|
    ensures ValidPath(FooterSet(ss, s, footer), p) <==> ValidPath(ss, p)
    ensures ValidPath(ss, p) ==> FooterSet(ss, s, footer)[p.section].objects[p.row] == ss[p.section].objects[p.row]
  {
  }

  // ---------------------------------------------------------------------
  // The model
  // ---------------------------------------------------------------------

  /** `Model<H, F, T>`: the sections, updated in place by its mutating operations. */
  class Model<H, F, T(==)> {
    var sections: seq<Section<H, F, T>>

    /** `init(sections:)`. */
    constructor (sections: seq<Section<H, F, T>>)
      ensures this.sections == sections
    {
      this.sections := sections;
    }

    /** `init(list:)`: one section, without header or footer, holding the list. */
    constructor FromList(list: seq<T>)
      ensures |sections| == 1 && sections[0].supplementary.None? && sections[0].objects == list
    {
      sections := [Section(None, list)];
    }

    /** `init()`: one empty section without header or footer. */
    constructor Empty()
      ensures |sections| == 1 && sections[0].supplementary.None? && sections[0].objects == []
    {
      sections := [Section(None, [])];
    }

    /** `objectAtPath`: the object in that row of that section. */
    function ObjectAtPath(p: IndexPath): (o: T)
      reads this
      requires ValidPath(sections, p)
      ensures o in sections[p.section].objects
      ensures o == sections[p.section].objects[p.row]
    {
      sections[p.section].objects[p.row]
    }

    /** `headerAtSection`: the header of the section's pair, `nil` without a pair. */
    function HeaderAtSection(s: nat): (h: Option<H>)
      reads this
      requires s < |sections|
      ensures sections[s].supplementary.None? ==> h.None?
      ensures sections[s].supplementary.Some? ==> h == sections[s].supplementary.value.header
    {
      HeaderOf(sections[s])
    }

    /** `footerAtSection`: the footer of the section's pair, `nil` without a pair. */
    function FooterAtSection(s: nat): (f: Option<F>)
      reads this
      requires s < |sections|
      ensures sections[s].supplementary.None? ==> f.None?
      ensures sections[s].supplementary.Some? ==> f == sections[s].supplementary.value.footer
    {
      FooterOf(sections[s])
    }

    /** `pathForObject`: scans sections in order, rows within each, and stops at the first identical object. */
    method PathForObject(needle: T) returns (p: Option<IndexPath>)
      ensures IsFirstMatch(sections, needle, p)
    {
      var s := 0;
      while s < |sections|
        invariant 0 <= s <= |sections|
        invariant forall q :: ValidPath(sections, q) && q.section < s ==> sections[q.section].objects[q.row] != needle
      {
        var objects := sections[s].objects;
        var row := 0;
        while row < |objects|
          invariant 0 <= row <= |objects|
          invariant forall j :: 0 <= j < row ==> objects[j] != needle
        {
          if objects[row] == needle {
            return Some(IndexPath(row, s));
          }
          row := row + 1;
        }
        s := s + 1;
      }
      return None;
    }

    /** `addObject(_:)`: ensures a section exists, then appends to the last one. */
    method AddObject(o: T) returns (paths: seq<IndexPath>)
      modifies this
      ensures sections == ObjectsAddedToLast(old(sections), [o])
      ensures var m := MinimalState(old(sections));
        paths == [IndexPath(|m[|m| - 1].objects|, |m| - 1)]
    {
      EnsureMinimalState();
      paths := AddObjectToSection(o, |sections| - 1);
    }

    /** `addObjects(_:)`: `addObject` for each object in turn; the paths concatenated. */
    method AddObjects(objects: seq<T>) returns (paths: seq<IndexPath>)
      modifies this
      ensures sections == ObjectsAddedToLast(old(sections), objects)
      ensures var m := MinimalState(old(sections));
        paths == AppendedPaths(|m[|m| - 1].objects|, |m| - 1, |objects|)
    {
      ghost var m := MinimalState(sections);
      ghost var last := |m| - 1;
      paths := [];
      var i := 0;
      while i < |objects|
        invariant 0 <= i <= |objects|
        invariant sections == ObjectsAddedToLast(old(sections), objects[..i])
        invariant paths == AppendedPaths(|m[last].objects|, last, i)
      {
        var added := AddObject(objects[i]);
        assert objects[..i + 1] == objects[..i] + [objects[i]];
        if i > 0 {
          ObjectsAppendedSnoc(m, last, objects[..i], objects[i]);
        } else {
          assert [] + [objects[0]] == [objects[0]];
        }
        paths := paths + added;
        i := i + 1;
      }
      assert objects[..i] == objects;
    }

    /** `addObject(_:toSection:)`: appends to that section only and returns the new row's path. */
    method AddObjectToSection(o: T, s: nat) returns (paths: seq<IndexPath>)
      requires s < |sections|
      modifies this
      ensures sections == ObjectsAppended(old(sections), s, [o])
      ensures paths == [IndexPath(|sections[s].objects| - 1, s)]
    {
      sections := sections[s := Section(sections[s].supplementary, sections[s].objects + [o])];
      paths := [IndexPath(|sections[s].objects| - 1, s)];
    }

    /** `addObjects(_:toSection:)`: `addObject(_:toSection:)` for each object in turn. */
    method AddObjectsToSection(objects: seq<T>, s: nat) returns (paths: seq<IndexPath>)
      requires s < |sections|
      modifies this
      ensures sections == ObjectsAppended(old(sections), s, objects)
      ensures paths == AppendedPaths(|old(sections)[s].objects|, s, |objects|)
    {
      ghost var start := |sections[s].objects|;
      ObjectsAppendedNothing(sections, s);
      paths := [];
      var i := 0;
      while i < |objects|
        invariant 0 <= i <= |objects|
        invariant s < |sections|
        invariant sections == ObjectsAppended(old(sections), s, objects[..i])
        invariant paths == AppendedPaths(start, s, i)
      {
        var added := AddObjectToSection(objects[i], s);
        assert objects[..i + 1] == objects[..i] + [objects[i]];
        ObjectsAppendedSnoc(old(sections), s, objects[..i], objects[i]);
        paths := paths + added;
        i := i + 1;
      }
      assert objects[..i] == objects;
    }

    /** `removeObjectAtIndexPath`: deletes that row and returns its path. */
    method RemoveObjectAtIndexPath(p: IndexPath) returns (paths: seq<IndexPath>)
      requires ValidPath(sections, p)
      modifies this
      ensures sections == RowRemoved(old(sections), p)
      ensures paths == [p]
    {
      var objects := sections[p.section].objects;
      sections := sections[p.section := Section(sections[p.section].supplementary, objects[..p.row] + objects[p.row + 1..])];
      paths := [p];
    }

    /** `addSectionWithHeader`: appends a section and returns its index. */
    method AddSectionWithHeader(header: H) returns (index: nat)
      modifies this
      ensures sections == SectionAppended(old(sections), header)
      ensures index == |old(sections)| && index == |sections| - 1
    {
      sections := sections + [HeaderSection(header)];
      index := |sections| - 1;
    }

    /** `insertSectionWithHeader`: inserts a section before an existing one and returns its index. */
    method InsertSectionWithHeader(header: H, index: nat) returns (inserted: nat)
      requires index < |sections|
      modifies this
      ensures sections == SectionInserted(old(sections), index, header)
      ensures inserted == index
    {
      sections := sections[..index] + [HeaderSection(header)] + sections[index..];
      inserted := index;
    }

    /** `removeSectionAtIndex`: removes that section and returns its index. */
    method RemoveSectionAtIndex(index: nat) returns (removed: nat)
      requires index < |sections|
      modifies this
      ensures sections == SectionRemoved(old(sections), index)
      ensures removed == index
    {
      sections := sections[..index] + sections[index + 1..];
      removed := index;
    }

    /** `setFooterForLastSection`: ensures a section exists, then sets the last section's footer. */
    method SetFooterForLastSection(footer: F) returns (index: nat)
      modifies this
      ensures sections == FooterSetOnLast(old(sections), footer)
      ensures index == |sections| - 1
    {
      EnsureMinimalState();
      index := SetFooter(footer, |sections| - 1);
    }

    /** `setFooter(_:atIndex:)`: sets the footer of an existing section and returns its index. */
    method SetFooter(footer: F, s: nat) returns (index: nat)
      requires s < |sections|
      modifies this
      ensures sections == FooterSet(old(sections), s, footer)
      ensures index == s
    {
      if sections[s].supplementary.None? {
        sections := sections[s := Section(Some(Supplementary(None, Some(footer))), sections[s].objects)];
      } else {
        var pair := sections[s].supplementary.value;
        sections := sections[s := Section(Some(pair.(footer := Some(footer))), sections[s].objects)];
      }
      index := s;
    }

    /** `ensureMinimalState`. */
    method EnsureMinimalState()
      modifies this
      ensures sections == MinimalState(old(sections))
    {
      if |sections| == 0 {
        sections := sections + [Section(None, [])];
      }
    }
  }
}
