/**
 * The metadata property of a document: an ordered list of name/value string
 * pairs (`PropertyArrayOfStringMetaData` over `StringMetaData`).
 *
 * The queries (`IndexOf`, `ValueOf`) and the effect of every mutation are
 * stated as functions over the sequence of entries; the class keeps that
 * sequence in a field, changes it in place and records the change
 * notifications it emits in a ghost log.
 */
module MetaDataArray {

  /** One name/value pair (struct StringMetaData). */
  datatype StringMetaData = StringMetaData(name: string, value: string)

  /**
   * A notification of the Property base class, with the array it observes:
   * `AboutToChange` is emitted before a mutation, `Changed` after it.
   */
  datatype Notification =
    | AboutToChange(before: seq<StringMetaData>)
    | Changed(after: seq<StringMetaData>)

  /** The notification pair that frames one mutation from `before` to `after`. */
  function Framed(before: seq<StringMetaData>, after: seq<StringMetaData>): seq<Notification>
  {
    [AboutToChange(before), Changed(after)]
  }

  // ---------------------------------------------------------------------------
  // Queries

  /** Some entry carries `name`. */
  predicate HasName(entries: seq<StringMetaData>, name: string)
  {
    exists i :: 0 <= i < |entries| && entries[i].name == name
  }

  /** `i` is the position of the first entry whose name is `name`. */
  predicate IsFirstMatch(entries: seq<StringMetaData>, name: string, i: int)
  {
    && 0 <= i < |entries|
    && entries[i].name == name
    && forall j :: 0 <= j < i ==> entries[j].name != name
  }

  /** No two entries share a name: the invariant that `Add` keeps. */
  predicate UniqueNames(entries: seq<StringMetaData>)
  {
    forall i, j :: 0 <= i < j < |entries| ==> entries[i].name != entries[j].name
  }

  /** The names of the entries, in order. */
  function Names(entries: seq<StringMetaData>): (r: seq<string>)
    ensures |r| == |entries|
    ensures forall i :: 0 <= i < |entries| ==> r[i] == entries[i].name
  {
    seq(|entries|, i requires 0 <= i < |entries| => entries[i].name)
  }

  /**
   * indexOf: the position of the first entry named `name` (a forward
   * `find_if`), or the sentinel -1 when no entry has that name.
   */
  function IndexOf(entries: seq<StringMetaData>, name: string): (r: int)
    ensures r == -1 <==> !HasName(entries, name)
    ensures r != -1 ==> IsFirstMatch(entries, name, r)
  {
    if |entries| == 0 then -1
    else if entries[0].name == name then 0
    else
      var k := IndexOf(entries[1..], name);
      assert forall i :: 1 <= i < |entries| ==> entries[i] == entries[1..][i - 1];
      if k == -1 then -1 else k + 1
  }

  /**
   * valueOf: the value of the first entry named `name`, or the empty string
   * when the name is absent.
   */
  function ValueOf(entries: seq<StringMetaData>, name: string): (r: string)
    ensures !HasName(entries, name) ==> r == ""
    ensures forall i :: IsFirstMatch(entries, name, i) ==> r == entries[i].value
  {
    var index := IndexOf(entries, name);
    if index != -1 then entries[index].value else ""
  }

  // ---------------------------------------------------------------------------
  // The effect of each mutation on the entries

  /** `0 <= index < size`: the bounds check of changeValue(int) and erase(int). */
  predicate InRange(entries: seq<StringMetaData>, index: int)
  {
    0 <= index < |entries|
  }

  /**
   * changeValue(index, value): the entry at `index` gets `value`; an index
   * out of range leaves the entries as they are.
   */
  function WithValue(entries: seq<StringMetaData>, index: int, value: string): (r: seq<StringMetaData>)
    ensures Names(r) == Names(entries)
    ensures forall j :: 0 <= j < |r| && j != index ==> r[j] == entries[j]
    ensures InRange(entries, index) ==> r[index].value == value
    ensures !InRange(entries, index) ==> r == entries
    ensures UniqueNames(entries) ==> UniqueNames(r)
  {
    if InRange(entries, index) then entries[index := entries[index].(value := value)] else entries
  }

  /**
   * add(StringMetaData): a new name is appended at the end; an existing
   * name keeps its place and its first occurrence takes the new value.
   */
  function Added(entries: seq<StringMetaData>, data: StringMetaData): (r: seq<StringMetaData>)
    ensures HasName(r, data.name) && ValueOf(r, data.name) == data.value
    ensures !HasName(entries, data.name) ==> |r| == |entries| + 1 && r[..|entries|] == entries
    ensures HasName(entries, data.name) ==> |r| == |entries| && Names(r) == Names(entries)
    ensures forall j :: 0 <= j < |entries| && j != IndexOf(entries, data.name) ==> r[j] == entries[j]
    ensures UniqueNames(entries) ==> UniqueNames(r)
  {
    var index := IndexOf(entries, data.name);
    if index == -1 then
      var r := entries + [data];
      assert IsFirstMatch(r, data.name, |entries|);
      r
    else
      var r := WithValue(entries, index, data.value);
      assert IsFirstMatch(r, data.name, index);
      r
  }

  /**
   * erase(index): the entry at `index` is removed and the others keep their
   * relative order; an index out of range leaves the entries as they are.
   */
  function Erased(entries: seq<StringMetaData>, index: int): (r: seq<StringMetaData>)
    ensures InRange(entries, index) ==> |r| == |entries| - 1
    ensures InRange(entries, index) ==> forall j :: 0 <= j < index ==> r[j] == entries[j]
    ensures InRange(entries, index) ==> forall j :: index <= j < |r| ==> r[j] == entries[j + 1]
    ensures InRange(entries, index) ==> multiset(r) + multiset{entries[index]} == multiset(entries)
    ensures !InRange(entries, index) ==> r == entries
    ensures UniqueNames(entries) ==> UniqueNames(r)
  {
    if InRange(entries, index) then
      assert entries == entries[..index] + [entries[index]] + entries[index + 1..];
      entries[..index] + entries[index + 1..]
    else
      entries
  }

  // ---------------------------------------------------------------------------
  // Properties relating several operations

  /** Under unique names, an entry is found at its own position. */
  lemma IndexOfUnique(entries: seq<StringMetaData>, i: int)
    requires UniqueNames(entries)
    requires 0 <= i < |entries|
    ensures IndexOf(entries, entries[i].name) == i
  {
  }

  /** Adding the same pair twice is the same as adding it once. */
  lemma AddIdempotent(entries: seq<StringMetaData>, data: StringMetaData)
    ensures Added(Added(entries, data), data) == Added(entries, data)
  {
  }

  /** changeValue(name, v) followed by valueOf(name) yields `v` when the name is present. */
  lemma ChangeValueThenValueOf(entries: seq<StringMetaData>, name: string, value: string)
    requires HasName(entries, name)
    ensures ValueOf(WithValue(entries, IndexOf(entries, name), value), name) == value
  {
  }

  /** Changing one value leaves the lookup of every other name unchanged. */
  lemma ChangeValueKeepsOtherLookups(entries: seq<StringMetaData>, index: int, value: string, other: string)
    requires !InRange(entries, index) || entries[index].name != other
    ensures IndexOf(WithValue(entries, index, value), other) == IndexOf(entries, other)
    ensures ValueOf(WithValue(entries, index, value), other) == ValueOf(entries, other)
  {
  }

  /**
   * Under unique names, erase(name) removes the name altogether and keeps
   * the value of every other name.
   */
  lemma EraseNamedRemovesName(entries: seq<StringMetaData>, name: string, other: string)
    requires UniqueNames(entries)
    requires other != name
    ensures !HasName(Erased(entries, IndexOf(entries, name)), name)
    ensures ValueOf(Erased(entries, IndexOf(entries, name)), other) == ValueOf(entries, other)
  {
    var index := IndexOf(entries, name);
    var r := Erased(entries, index);
    if index != -1 {
      forall j | 0 <= j < |r| ensures r[j].name != name {
        if j >= index {
          assert r[j] == entries[j + 1];
        }
      }
      var k := IndexOf(entries, other);
      if k == -1 {
        forall j | 0 <= j < |r| ensures r[j].name != other {
          if j >= index {
            assert r[j] == entries[j + 1];
          }
        }
      } else if k < index {
        assert IsFirstMatch(r, other, k);
      } else {
        assert k != index;
        assert r[k - 1] == entries[k];
        forall j | 0 <= j < k - 1 ensures r[j].name != other {
          if j >= index {
            assert r[j] == entries[j + 1];
          }
        }
        assert IsFirstMatch(r, other, k - 1);
      }
    }
  }

  /**
   * add(name, value) does no lookup: appending a name that is already
   * present breaks name uniqueness.
   */
  lemma AppendExistingNameDuplicates(entries: seq<StringMetaData>, name: string, value: string)
    requires HasName(entries, name)
    ensures !UniqueNames(entries + [StringMetaData(name, value)])
  {
    var r := entries + [StringMetaData(name, value)];
    var index := IndexOf(entries, name);
    assert r[index].name == r[|entries|].name;
  }

  /**
   * add(name, value) with a name already present is invisible to valueOf:
   * the earlier entry shadows the appended one.
   */
  lemma AppendExistingNameIsShadowed(entries: seq<StringMetaData>, name: string, value: string)
    requires HasName(entries, name)
    ensures ValueOf(entries + [StringMetaData(name, value)], name) == ValueOf(entries, name)
  {
    var index := IndexOf(entries, name);
    assert IsFirstMatch(entries + [StringMetaData(name, value)], name, index);
  }

  // ---------------------------------------------------------------------------
  // The property object

  /**
   * PropertyArrayOfStringMetaData: `entries` is the vector of pairs,
   * `notifications` the ghost log of what the object has notified.
   */
  class PropertyArrayOfStringMetaData {
    var entries: seq<StringMetaData>
    ghost var notifications: seq<Notification>

    constructor ()
      ensures entries == [] && notifications == []
    {
      entries := [];
      notifications := [];
    }

    /** add(StringMetaData): insert-or-update, always framed by one notification pair. */
    method Add(data: StringMetaData)
      modifies this
      ensures entries == Added(old(entries), data)
      ensures notifications == old(notifications) + Framed(old(entries), entries)
    {
      var index := IndexOf(entries, data.name);
      if index == -1 {
        notifications := notifications + [AboutToChange(entries)];
        entries := entries + [data];
        notifications := notifications + [Changed(entries)];
      } else {
        ChangeValueAt(index, data.value);
      }
    }

    /** add(name, value): always appends, with no lookup and no notification. */
    method Append(name: string, value: string)
      modifies this
      ensures entries == old(entries) + [StringMetaData(name, value)]
      ensures notifications == old(notifications)
    {
      entries := entries + [StringMetaData(name, value)];
    }

    /** changeValue(int, value): bounds-checked; out of range it does nothing and notifies nothing. */
    method ChangeValueAt(index: int, value: string)
      modifies this
      ensures entries == WithValue(old(entries), index, value)
      ensures notifications == old(notifications) +
        (if InRange(old(entries), index) then Framed(old(entries), entries) else [])
    {
      if 0 <= index < |entries| {
        notifications := notifications + [AboutToChange(entries)];
        entries := entries[index := entries[index].(value := value)];
        notifications := notifications + [Changed(entries)];
      }
    }

    /** changeValue(name, value): changes the first entry named `name`, if any. */
    method ChangeValueOf(name: string, value: string)
      modifies this
      ensures entries == WithValue(old(entries), IndexOf(old(entries), name), value)
      ensures notifications == old(notifications) +
        (if HasName(old(entries), name) then Framed(old(entries), entries) else [])
    {
      ChangeValueAt(IndexOf(entries, name), value);
    }

    /** erase(int): bounds-checked removal of one entry. */
    method EraseAt(index: int)
      modifies this
      ensures entries == Erased(old(entries), index)
      ensures notifications == old(notifications) +
        (if InRange(old(entries), index) then Framed(old(entries), entries) else [])
    {
      if 0 <= index < |entries| {
        notifications := notifications + [AboutToChange(entries)];
        entries := entries[..index] + entries[index + 1..];
        notifications := notifications + [Changed(entries)];
      }
    }

    /** erase(name): removes the first entry named `name`, if any. */
    method EraseNamed(name: string)
      modifies this
      ensures entries == Erased(old(entries), IndexOf(old(entries), name))
      ensures notifications == old(notifications) +
        (if HasName(old(entries), name) then Framed(old(entries), entries) else [])
    {
      EraseAt(IndexOf(entries, name));
    }

    /** clear(): empties the list and notifies, even when it was already empty. */
    method Clear()
      modifies this
      ensures entries == []
      ensures notifications == old(notifications) + Framed(old(entries), [])
    {
      notifications := notifications + [AboutToChange(entries)];
      entries := [];
      notifications := notifications + [Changed(entries)];
    }
  }
}
