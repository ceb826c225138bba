/** The patch builders of an array-of-objects field (`ArrayOfObjectsField`).

    Each handler turns an input event into a list of patches addressed relative to the
    field's parent: the field's own name is put in front of every patch path
    (`prefixAll(member.name)`), except for removal, which addresses the field's full path. */
module ArrayField {
  import opened Base
  import opened FormPatch

  /** `ArrayInputInsertEvent`: the items, where to put them relative to `referenceItem`
      (an index or a keyed segment), and the optional `open` / `skipInitialValue` flags. */
  datatype InsertEvent = InsertEvent(
    items: seq<ObjectItem>,
    position: Position,
    referenceItem: Segment,
    open: Option<bool>,
    skipInitialValue: Option<bool>)

  /** The patches sent up, the path focused afterwards and whether the item is opened. */
  datatype InsertOutcome = InsertOutcome(patches: seq<Patch>, focusPath: Path, opensItem: bool)

  /** An upload in progress, by its subscription. */
  datatype Upload = Upload(id: nat)

  /** What removing an item does: the remaining uploads, the upload it cancels and the patches. */
  datatype RemoveOutcome = RemoveOutcome(
    uploads: map<string, Upload>,
    cancelled: Option<Upload>,
    patches: seq<Patch>)

  const EmptyInsertError: string := "Insert event should include at least one item"

  /** `items.map(ensureKey)`. */
  function KeyAll(items: seq<ObjectItem>, ensureKey: ObjectItem -> ObjectItem): (keyed: seq<ObjectItem>)
    ensures |keyed| == |items|
    ensures forall i :: 0 <= i < |items| ==> keyed[i] == ensureKey(items[i])
  {
    seq(|items|, i requires 0 <= i < |items| => ensureKey(items[i]))
  }

  /** The item at `index` of the field value (`value?.[index]`), if there is one. */
  function ItemAt(value: Option<seq<ObjectItem>>, index: int): (r: Option<ObjectItem>)
    ensures r.Some? <==> value.Some? && 0 <= index < |value.value|
    ensures r.Some? ==> r.value == value.value[index]
  {
    if value.Some? && 0 <= index < |value.value| then Some(value.value[index]) else None
  }

  /** `handleChange`: the incoming patches, after a set-if-missing of an empty array,
      all moved under the field's name. */
  function HandleChange(name: string, patches: seq<Patch>): (r: seq<Patch>)
    ensures forall i :: 0 <= i < |r| ==> |r[i].path| > 0 && r[i].path[0] == Field(name)
    ensures StripPrefix(Field(name), r) == [SetIfMissing(EmptyArray, [])] + patches
  {
    var all := [SetIfMissing(EmptyArray, [])] + patches;
    StripPrefixAll(Field(name), all);
    PrefixAll(Field(name), all)
  }

  /** `handleInsert`. An event without items throws; otherwise the keyed items are
      inserted (after making sure the array exists) and focus moves to the first of them. */
  function HandleInsert(
    name: string, fieldPath: Path, event: InsertEvent, ensureKey: ObjectItem -> ObjectItem)
    : (r: Result<InsertOutcome, string>)
    requires |event.items| > 0 ==> ensureKey(event.items[0]).key.Some?
    ensures r.Err? <==> |event.items| == 0
    ensures r.Err? ==> r.error == EmptyInsertError
    ensures r.Ok? ==>
      forall i :: 0 <= i < |r.value.patches| ==>
        |r.value.patches[i].path| > 0 && r.value.patches[i].path[0] == Field(name)
    ensures r.Ok? ==>
      var keyed := KeyAll(event.items, ensureKey);
      StripPrefix(Field(name), r.value.patches) ==
        [SetIfMissing(EmptyArray, []), Insert(keyed, event.position, [event.referenceItem])]
    ensures r.Ok? ==>
      r.value.focusPath == fieldPath + [Key(ensureKey(event.items[0]).key.value)]
    ensures r.Ok? ==> (r.value.opensItem <==> event.open != Some(false))
  {
    if |event.items| == 0 then Err(EmptyInsertError)
    else
      var keyed := KeyAll(event.items, ensureKey);
      var patches := [SetIfMissing(EmptyArray, []), Insert(keyed, event.position, [event.referenceItem])];
      StripPrefixAll(Field(name), patches);
      var focusItemKey := keyed[0].key.value;
      Ok(InsertOutcome(PrefixAll(Field(name), patches), fieldPath + [Key(focusItemKey)],
                       event.open != Some(false)))
  }

  /** Applying the insert batch puts the keyed items at the point the event names, whether
      or not the field had a value, and leaves every other item where it was: relative to
      an index (negative from the end), or next to the item with the reference key. A key
      no item carries leaves the array as it was. */
  lemma InsertPlacesItems(
    name: string, fieldPath: Path, value: Option<seq<ObjectItem>>, event: InsertEvent,
    ensureKey: ObjectItem -> ObjectItem)
    requires |event.items| > 0 && ensureKey(event.items[0]).key.Some?
    ensures
      var applied := ApplyAll(value, StripPrefix(Field(name), HandleInsert(name, fieldPath, event, ensureKey).value.patches));
      var existing, keyed := value.GetOr([]), KeyAll(event.items, ensureKey);
      && (event.referenceItem.Index? ==>
            var p := IndexInsertionPoint(|existing|, event.referenceItem.i, event.position);
            applied == Some(existing[..p] + keyed + existing[p..]))
      && (event.referenceItem.Key? && FindKey(existing, event.referenceItem.key).Some? ==>
            var at := FindKey(existing, event.referenceItem.key).value;
            var p := if event.position == Before then at else at + 1;
            applied == Some(existing[..p] + keyed + existing[p..]))
      && (event.referenceItem.Key? && FindKey(existing, event.referenceItem.key).None? ==>
            applied == Some(existing))
  {
    var existing, keyed := value.GetOr([]), KeyAll(event.items, ensureKey);
    var insert := Insert(keyed, event.position, [event.referenceItem]);
    var ensure := SetIfMissing(EmptyArray, []);
    assert StripPrefix(Field(name), HandleInsert(name, fieldPath, event, ensureKey).value.patches) == [ensure, insert];
    ApplyPair(value, ensure, insert);
    assert ApplyToArray(value, ensure) == Some(existing);
  }

  /** `handleMoveItem`: nothing when the item would stay put or when either the moved
      item or the item it moves to lacks a key; otherwise unset the moved item by key and
      insert it before (moving up) or after (moving down) the target item. */
  function HandleMoveItem(name: string, value: Option<seq<ObjectItem>>, fromIndex: int, toIndex: int)
    : (r: seq<Patch>)
    ensures fromIndex == toIndex ==> r == []
    ensures fromIndex != toIndex && !(ItemAt(value, fromIndex).Some? && HasKey(ItemAt(value, fromIndex).value))
      ==> r == []
    ensures fromIndex != toIndex && !(ItemAt(value, toIndex).Some? && HasKey(ItemAt(value, toIndex).value))
      ==> r == []
    ensures
      (&& fromIndex != toIndex
       && ItemAt(value, fromIndex).Some? && HasKey(ItemAt(value, fromIndex).value)
       && ItemAt(value, toIndex).Some? && HasKey(ItemAt(value, toIndex).value))
      ==>
      var item, target := value.value[fromIndex], value.value[toIndex];
      && (forall i :: 0 <= i < |r| ==> |r[i].path| > 0 && r[i].path[0] == Field(name))
      && StripPrefix(Field(name), r) ==
        [Unset([Key(item.key.value)]),
         Insert([item], if fromIndex > toIndex then Before else After, [Key(target.key.value)])]
  {
    var item := ItemAt(value, fromIndex);
    var refItem := ItemAt(value, toIndex);
    if fromIndex == toIndex then []
    else if !(item.Some? && HasKey(item.value)) || !(refItem.Some? && HasKey(refItem.value)) then []
    else
      var patches := [
        Unset([Key(item.value.key.value)]),
        Insert([item.value], if fromIndex > toIndex then Before else After, [Key(refItem.value.key.value)])
      ];
      StripPrefixAll(Field(name), patches);
      PrefixAll(Field(name), patches)
  }

  /** The reordering a move means: take the item out and put it back at `to`. */
  function Moved(items: seq<ObjectItem>, from: nat, to: nat): (r: seq<ObjectItem>)
    requires from < |items| && to < |items|
    ensures |r| == |items| && r[to] == items[from]
    ensures multiset(r) == multiset(items)
  {
    var rest := items[..from] + items[from + 1..];
    assert items == items[..from] + [items[from]] + items[from + 1..];
    assert multiset(items) == multiset(items[..from]) + multiset{items[from]} + multiset(items[from + 1..]);
    assert rest == rest[..to] + rest[to..];
    assert multiset(rest) == multiset(rest[..to]) + multiset(rest[to..]);
    assert multiset(rest) == multiset(items[..from]) + multiset(items[from + 1..]);
    var moved := rest[..to] + [items[from]] + rest[to..];
    assert |rest| == |items| - 1 && |rest[..to]| == to;
    assert moved[to] == items[from];
    assert multiset(moved) == multiset(rest[..to]) + multiset{items[from]} + multiset(rest[to..]);
    assert multiset(moved) == multiset(rest) + multiset{items[from]};
    moved
  }

  /** For an array whose items all carry distinct non-empty keys, the move patches
      perform exactly the reordering `Moved`. */
  lemma MoveReorders(name: string, items: seq<ObjectItem>, fromIndex: nat, toIndex: nat)
    requires UniqueKeys(items) && forall i :: 0 <= i < |items| ==> HasKey(items[i])
    requires fromIndex < |items| && toIndex < |items| && fromIndex != toIndex
    ensures
      var patches := HandleMoveItem(name, Some(items), fromIndex, toIndex);
      ApplyAll(Some(items), StripPrefix(Field(name), patches)) == Some(Moved(items, fromIndex, toIndex))
  {
    var patches := MovePatches(items, fromIndex, toIndex);
    assert HasKey(items[fromIndex]) && HasKey(items[toIndex]);
    assert StripPrefix(Field(name), HandleMoveItem(name, Some(items), fromIndex, toIndex)) == patches;
    ApplyMovePatches(items, fromIndex, toIndex);
  }

  /** The move patches before they are put under the field's name. */
  function MovePatches(items: seq<ObjectItem>, fromIndex: nat, toIndex: nat): seq<Patch>
    requires fromIndex < |items| && toIndex < |items|
    requires items[fromIndex].key.Some? && items[toIndex].key.Some?
  {
    [Unset([Key(items[fromIndex].key.value)]),
     Insert([items[fromIndex]], if fromIndex > toIndex then Before else After, [Key(items[toIndex].key.value)])]
  }

  lemma ApplyMovePatches(items: seq<ObjectItem>, fromIndex: nat, toIndex: nat)
    requires UniqueKeys(items)
    requires fromIndex < |items| && toIndex < |items| && fromIndex != toIndex
    ensures ApplyAll(Some(items), MovePatches(items, fromIndex, toIndex)) == Some(Moved(items, fromIndex, toIndex))
  {
    var item, target := items[fromIndex], items[toIndex];
    var unset := Unset([Key(item.key.value)]);
    var insert := Insert([item], if fromIndex > toIndex then Before else After, [Key(target.key.value)]);
    var rest := items[..fromIndex] + items[fromIndex + 1..];
    assert MovePatches(items, fromIndex, toIndex) == [unset, insert];
    ApplyPair(Some(items), unset, insert);
    assert ApplyToArray(Some(items), unset) == Some(rest) by {
      UnsetMovedItem(items, fromIndex);
    }
    assert ApplyToArray(Some(rest), insert) == Some(InsertAt(rest, toIndex, [item])) by {
      var at := TargetAfterRemoval(items, fromIndex, toIndex);
    }
  }

  /** Unsetting the moved item by its key leaves the other items in order. */
  lemma UnsetMovedItem(items: seq<ObjectItem>, fromIndex: nat)
    requires UniqueKeys(items) && fromIndex < |items|
    ensures RemoveKey(items, items[fromIndex].key.value) == items[..fromIndex] + items[fromIndex + 1..]
  {
    RemoveOnlyKey(items, fromIndex, items[fromIndex].key.value);
  }

  /** Once the moved item is gone, the target is found one place earlier when it came
      after the moved item, and at its old place otherwise. */
  lemma TargetAfterRemoval(items: seq<ObjectItem>, fromIndex: nat, toIndex: nat) returns (at: nat)
    requires UniqueKeys(items) && fromIndex < |items| && toIndex < |items| && fromIndex != toIndex
    ensures at == if fromIndex > toIndex then toIndex else toIndex - 1
    ensures FindKey(items[..fromIndex] + items[fromIndex + 1..], items[toIndex].key.value) == Some(at)
  {
    var rest := items[..fromIndex] + items[fromIndex + 1..];
    var refKey := items[toIndex].key.value;
    at := if fromIndex > toIndex then toIndex else toIndex - 1;
    assert rest[at] == items[toIndex];
    forall j | 0 <= j < |rest| && j != at
      ensures rest[j].key != Some(refKey)
    {
      var original := if j < fromIndex then j else j + 1;
      assert rest[j] == items[original];
      assert original != toIndex;
    }
  }

  /** `handlePrependItem`: make sure the array exists, then insert before index 0. */
  function HandlePrependItem(name: string, item: ObjectItem, ensureKey: ObjectItem -> ObjectItem)
    : (r: seq<Patch>)
    ensures forall i :: 0 <= i < |r| ==> |r[i].path| > 0 && r[i].path[0] == Field(name)
    ensures StripPrefix(Field(name), r) == [SetIfMissing(EmptyArray, []), Insert([ensureKey(item)], Before, [Index(0)])]
  {
    var patches := [SetIfMissing(EmptyArray, []), Insert([ensureKey(item)], Before, [Index(0)])];
    StripPrefixAll(Field(name), patches);
    PrefixAll(Field(name), patches)
  }

  /** `handleAppendItem`: make sure the array exists, then insert after index -1. */
  function HandleAppendItem(name: string, item: ObjectItem, ensureKey: ObjectItem -> ObjectItem)
    : (r: seq<Patch>)
    ensures forall i :: 0 <= i < |r| ==> |r[i].path| > 0 && r[i].path[0] == Field(name)
    ensures StripPrefix(Field(name), r) == [SetIfMissing(EmptyArray, []), Insert([ensureKey(item)], After, [Index(-1)])]
  {
    var patches := [SetIfMissing(EmptyArray, []), Insert([ensureKey(item)], After, [Index(-1)])];
    StripPrefixAll(Field(name), patches);
    PrefixAll(Field(name), patches)
  }

  /** Prepending puts the keyed item first and appending puts it last, whether or not
      the field had a value. */
  lemma PrependAndAppendPlaceItem(
    name: string, value: Option<seq<ObjectItem>>, item: ObjectItem, ensureKey: ObjectItem -> ObjectItem)
    ensures ApplyAll(value, StripPrefix(Field(name), HandlePrependItem(name, item, ensureKey)))
      == Some([ensureKey(item)] + value.GetOr([]))
    ensures ApplyAll(value, StripPrefix(Field(name), HandleAppendItem(name, item, ensureKey)))
      == Some(value.GetOr([]) + [ensureKey(item)])
  {
    var existing, keyed := value.GetOr([]), ensureKey(item);
    var ensure := SetIfMissing(EmptyArray, []);
    var prepend, append := Insert([keyed], Before, [Index(0)]), Insert([keyed], After, [Index(-1)]);
    assert ApplyToArray(value, ensure) == Some(existing);
    ApplyPair(value, ensure, prepend);
    assert IndexInsertionPoint(|existing|, 0, Before) == 0;
    assert InsertAt(existing, 0, [keyed]) == [keyed] + existing;
    ApplyPair(value, ensure, append);
    assert IndexInsertionPoint(|existing|, -1, After) == |existing|;
    assert InsertAt(existing, |existing|, [keyed]) == existing + [keyed];
  }

  /** `handleRemoveItem`: cancel the item's upload if one is running, and unset the item
      by key at the field's full path. */
  function HandleRemoveItem(fieldPath: Path, uploads: map<string, Upload>, itemKey: string)
    : (r: RemoveOutcome)
    ensures itemKey !in r.uploads && r.uploads.Keys == uploads.Keys - {itemKey}
    ensures forall k :: k in r.uploads ==> r.uploads[k] == uploads[k]
    ensures r.cancelled.Some? <==> itemKey in uploads
    ensures r.cancelled.Some? ==> r.cancelled.value == uploads[itemKey]
    ensures |r.patches| == 1 && r.patches[0].Unset?
    ensures |r.patches[0].path| == |fieldPath| + 1
    ensures r.patches[0].path[..|fieldPath|] == fieldPath
    ensures r.patches[0].path[|fieldPath|..] == [Key(itemKey)]
  {
    var cancelled := if itemKey in uploads then Some(uploads[itemKey]) else None;
    RemoveOutcome(uploads - {itemKey}, cancelled, [Unset(fieldPath + [Key(itemKey)])])
  }

  /** For a field at the top of the document, removal drops exactly the items with that key. */
  lemma RemoveDropsItem(name: string, uploads: map<string, Upload>, items: seq<ObjectItem>, itemKey: string)
    ensures
      var patches := HandleRemoveItem([Field(name)], uploads, itemKey).patches;
      ApplyAll(Some(items), StripPrefix(Field(name), patches)) == Some(RemoveKey(items, itemKey))
  {
    var patches := HandleRemoveItem([Field(name)], uploads, itemKey).patches;
    assert patches[0].path[1..] == [Key(itemKey)];
  }
}
