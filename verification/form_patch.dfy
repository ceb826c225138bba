/** The form patches the input handlers emit, and a reference reading of what applying
    one of them to an array value means.

    The studio's patch applier is not part of this model; `ApplyToArray` states the
    documented meaning of the few array patches the handlers build (set-if-missing of an
    empty array, unset by key, insert before or after an index or a key), so that the
    handlers' patch lists can be checked against the edit they are meant to perform. */
module FormPatch {
  import opened Base

  /** A path segment: a field name, an array index (negative counts from the end) or an
      array item addressed by its `_key`. */
  datatype Segment = Field(name: string) | Index(i: int) | Key(key: string)

  type Path = seq<Segment>

  datatype Position = Before | After

  /** An object item of an array: its `_key` (possibly missing) and the rest of it. */
  datatype ObjectItem = ObjectItem(key: Option<string>, itemType: string, fields: map<string, string>)

  /** The values the handlers write. `Strengthen` is the `_strengthenOnPublish` object. */
  datatype Value =
    | EmptyArray
    | EmptyObject
    | Bool(b: bool)
    | Str(s: string)
    | Strengthen(typeName: string, weak: Option<bool>, template: Option<string>)

  datatype Patch =
    | SetIfMissing(value: Value, path: Path)
    | Set(value: Value, path: Path)
    | Unset(path: Path)
    | Insert(items: seq<ObjectItem>, position: Position, path: Path)
  {
    function WithPath(p: Path): Patch {
      match this
      case SetIfMissing(v, _) => SetIfMissing(v, p)
      case Set(v, _) => Set(v, p)
      case Unset(_) => Unset(p)
      case Insert(items, pos, _) => Insert(items, pos, p)
    }
  }

  /** `!item._key`: a missing or empty key counts as no key. */
  predicate HasKey(item: ObjectItem) {
    item.key.Some? && item.key.value != ""
  }

  // ---------------------------------------------------------------------------
  // prefixAll

  /** `PatchEvent.prefixAll(segment)`: every patch is moved one level down, under `segment`. */
  function PrefixAll(segment: Segment, patches: seq<Patch>): (r: seq<Patch>)
    ensures |r| == |patches|
    ensures forall i :: 0 <= i < |r| ==>
      && r[i].path == [segment] + patches[i].path
      && r[i].WithPath(patches[i].path) == patches[i]
  {
    seq(|patches|, i requires 0 <= i < |patches| =>
      patches[i].WithPath([segment] + patches[i].path))
  }

  /** Undo `prefixAll`: drop `segment` from the front of every path that starts with it. */
  function StripPrefix(segment: Segment, patches: seq<Patch>): seq<Patch> {
    seq(|patches|, i requires 0 <= i < |patches| =>
      var path := patches[i].path;
      if |path| > 0 && path[0] == segment then patches[i].WithPath(path[1..]) else patches[i])
  }

  /** Prefixing loses nothing: stripping the segment again gives the original patches. */
  lemma StripPrefixAll(segment: Segment, patches: seq<Patch>)
    ensures StripPrefix(segment, PrefixAll(segment, patches)) == patches
  {
    var prefixed := PrefixAll(segment, patches);
    forall i | 0 <= i < |patches|
      ensures StripPrefix(segment, prefixed)[i] == patches[i]
    {
      assert prefixed[i].path[1..] == patches[i].path;
    }
  }

  // ---------------------------------------------------------------------------
  // Reading of array patches

  /** The first position whose item has key `k`. */
  function FindKey(items: seq<ObjectItem>, k: string): (r: Option<nat>)
    ensures r.Some? ==> r.value < |items| && items[r.value].key == Some(k)
    ensures r.Some? ==> forall j :: 0 <= j < r.value ==> items[j].key != Some(k)
    ensures r.None? ==> forall j :: 0 <= j < |items| ==> items[j].key != Some(k)
  {
    if items == [] then None
    else if items[0].key == Some(k) then Some(0)
    else match FindKey(items[1..], k)
      case None => None
      case Some(i) => Some(i + 1)
  }

  /** The items other than those with key `k`, in order (unset by key). */
  function RemoveKey(items: seq<ObjectItem>, k: string): seq<ObjectItem> {
    if items == [] then []
    else (if items[0].key == Some(k) then [] else [items[0]]) + RemoveKey(items[1..], k)
  }

  /** Insertion point of `position` relative to array index `i` (negative from the end). */
  function IndexInsertionPoint(len: nat, i: int, position: Position): (p: nat)
    ensures p <= len
  {
    var at := if i < 0 then len + i else i;
    var p := if position == Before then at else at + 1;
    if p < 0 then 0 else if p > len then len else p
  }

  function InsertAt(items: seq<ObjectItem>, p: nat, inserted: seq<ObjectItem>): seq<ObjectItem>
    requires p <= |items|
  {
    items[..p] + inserted + items[p..]
  }

  /** Applying one patch, addressed relative to the array field, to the field's value
      (`None` when the field is unset). Patches outside this reading leave the value alone. */
  function ApplyToArray(value: Option<seq<ObjectItem>>, patch: Patch): Option<seq<ObjectItem>> {
    match patch
    case SetIfMissing(v, path) =>
      if v == EmptyArray && path == [] && value.None? then Some([]) else value
    case Unset(path) =>
      if |path| == 1 && path[0].Key? && value.Some? then Some(RemoveKey(value.value, path[0].key))
      else value
    case Insert(inserted, position, path) =>
      if |path| != 1 || value.None? then value
      else (match path[0]
        case Index(i) =>
          Some(InsertAt(value.value, IndexInsertionPoint(|value.value|, i, position), inserted))
        case Key(k) =>
          (match FindKey(value.value, k)
           case None => value
           case Some(at) =>
             Some(InsertAt(value.value, if position == Before then at else at + 1, inserted)))
        case Field(_) => value)
    case Set(_, _) => value
  }

  function ApplyAll(value: Option<seq<ObjectItem>>, patches: seq<Patch>): Option<seq<ObjectItem>>
    decreases |patches|
  {
    if patches == [] then value else ApplyAll(ApplyToArray(value, patches[0]), patches[1..])
  }

  /** A batch of two patches applies the first, then the second. */
  lemma ApplyPair(value: Option<seq<ObjectItem>>, first: Patch, second: Patch)
    ensures ApplyAll(value, [first, second]) == ApplyToArray(ApplyToArray(value, first), second)
  {
    var once := ApplyToArray(value, first);
    assert [first, second][1..] == [second];
    assert ApplyAll(value, [first, second]) == ApplyAll(once, [second]);
    assert [second][1..] == [];
    assert ApplyAll(once, [second]) == ApplyAll(ApplyToArray(once, second), []);
  }

  /** Every item has a key and no two items share one. */
  predicate UniqueKeys(items: seq<ObjectItem>) {
    && (forall i :: 0 <= i < |items| ==> items[i].key.Some?)
    && (forall i, j :: 0 <= i < j < |items| ==> items[i].key != items[j].key)
  }

  /** Removing the only item with key `k` removes exactly that position. */
  lemma {:induction false} RemoveOnlyKey(items: seq<ObjectItem>, at: nat, k: string)
    requires at < |items| && items[at].key == Some(k)
    requires forall j :: 0 <= j < |items| && j != at ==> items[j].key != Some(k)
    ensures RemoveKey(items, k) == items[..at] + items[at + 1..]
    decreases |items|
  {
    if at == 0 {
      RemoveAbsentKey(items[1..], k);
      assert items[1..] == items[..0] + items[1..];
    } else {
      RemoveOnlyKey(items[1..], at - 1, k);
      assert items[1..][..at - 1] == items[1..at];
      assert items[1..][at..] == items[at + 1..];
      assert [items[0]] + items[1..at] == items[..at];
    }
  }

  lemma {:induction false} RemoveAbsentKey(items: seq<ObjectItem>, k: string)
    requires forall j :: 0 <= j < |items| ==> items[j].key != Some(k)
    ensures RemoveKey(items, k) == items
    decreases |items|
  {
    if items != [] {
      RemoveAbsentKey(items[1..], k);
      assert [items[0]] + items[1..] == items;
    }
  }
}
