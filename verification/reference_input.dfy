/** The patch builders and search state of the reference input (`ReferenceInput`).

    Choosing a search hit or creating a new target document writes the reference object's
    `_type`, `_ref`, `_weak` and `_strengthenOnPublish` fields. A reference to a document
    that has no published version yet must be weak (the target may never be published) and
    must carry the instruction to strengthen it once the target is published. */
module ReferenceInput {
  import opened Base
  import opened FormPatch

  const TypeField: string := "_type"
  const RefField: string := "_ref"
  const WeakField: string := "_weak"
  const StrengthenField: string := "_strengthenOnPublish"

  const NotInResultSetError: string := "Selected an item that wasnt part of the result set"
  const NotFoundReason: string := "NOT_FOUND"

  /** A search hit: the document id, its type, and the ids of its published and draft
      versions when they exist. */
  datatype Hit = Hit(id: string, hitType: string, published: Option<string>, draft: Option<string>)

  /** The reference field's schema type: its name and the optional `weak` flag. */
  datatype SchemaType = SchemaType(name: string, weak: Option<bool>)

  /** A create-new option: the type of document to create and the template to start from. */
  datatype CreateOption = CreateOption(optionType: string, template: Option<string>)

  /** The patches sent and the path focused afterwards (`onPathFocus`). */
  datatype ChangeOutcome = ChangeOutcome(patches: seq<Patch>, focusPath: Path)

  /** What `onEditReference` is called with after creating a new document. */
  datatype EditRequest = EditRequest(id: string, docType: string, template: Option<string>)

  datatype CreateOutcome = CreateOutcome(patches: seq<Patch>, edit: EditRequest, focusPath: Path)

  // ---------------------------------------------------------------------------
  // Reference reading of the reference object

  /** The reference object's fields; `None` is an absent field. */
  datatype RefValue = RefValue(
    refType: Option<string>,
    ref: Option<string>,
    weak: Option<bool>,
    strengthen: Option<Value>)

  const EmptyRef := RefValue(None, None, None, None)

  function SetField(r: RefValue, field: string, v: Value): RefValue {
    if field == TypeField && v.Str? then r.(refType := Some(v.s))
    else if field == RefField && v.Str? then r.(ref := Some(v.s))
    else if field == WeakField && v.Bool? then r.(weak := Some(v.b))
    else if field == StrengthenField && v.Strengthen? then r.(strengthen := Some(v))
    else r
  }

  function ClearField(r: RefValue, field: string): RefValue {
    if field == TypeField then r.(refType := None)
    else if field == RefField then r.(ref := None)
    else if field == WeakField then r.(weak := None)
    else if field == StrengthenField then r.(strengthen := None)
    else r
  }

  /** Applying one patch, addressed relative to the reference field, to its value (`None`
      when the field is unset). Patches outside this reading leave the value alone. */
  function ApplyToRef(value: Option<RefValue>, patch: Patch): Option<RefValue> {
    match patch
    case SetIfMissing(v, path) =>
      if v == EmptyObject && path == [] && value.None? then Some(EmptyRef) else value
    case Set(v, path) =>
      if |path| == 1 && path[0].Field? && value.Some? then Some(SetField(value.value, path[0].name, v))
      else value
    case Unset(path) =>
      if path == [] then None
      else if |path| == 1 && path[0].Field? && value.Some? then Some(ClearField(value.value, path[0].name))
      else value
    case Insert(_, _, _) => value
  }

  function ApplyAllToRef(value: Option<RefValue>, patches: seq<Patch>): Option<RefValue>
    decreases |patches|
  {
    if patches == [] then value else ApplyAllToRef(ApplyToRef(value, patches[0]), patches[1..])
  }

  /** `isWeakRefToNonexistent`: the target was not found, the reference is not waiting to
      be strengthened on publish, and it is weak. */
  function IsWeakRefToNonexistent(reason: Option<string>, value: Option<RefValue>): (flagged: bool)
    ensures flagged ==> reason == Some(NotFoundReason)
    ensures value.None? || !IsSet(value.value.weak) ==> !flagged
    ensures value.Some? && value.value.strengthen.Some? ==> !flagged
    ensures
      (reason == Some(NotFoundReason) && value.Some? && IsSet(value.value.weak) && value.value.strengthen.None?)
      ==> flagged
  {
    && reason == Some(NotFoundReason)
    && !(value.Some? && value.value.strengthen.Some?)
    && value.Some? && IsSet(value.value.weak)
  }

  /** `value?._ref` is truthy: present and not empty. */
  predicate HasRef(value: Option<RefValue>) {
    value.Some? && value.value.ref.Some? && value.value.ref.value != ""
  }

  // ---------------------------------------------------------------------------
  // Handlers

  /** `hits.find(h => h.id === id)`. */
  function FindHit(hits: seq<Hit>, id: string): (r: Option<Hit>)
    ensures r.None? <==> forall i :: 0 <= i < |hits| ==> hits[i].id != id
    ensures r.Some? ==>
      exists i :: 0 <= i < |hits| && hits[i] == r.value && hits[i].id == id
                  && forall j :: 0 <= j < i ==> hits[j].id != id
  {
    if hits == [] then None
    else if hits[0].id == id then Some(hits[0])
    else
      var rest := FindHit(hits[1..], id);
      if rest.Some? then
        ghost var i :| 0 <= i < |hits[1..]| && hits[1..][i] == rest.value && hits[1..][i].id == id
          && forall j :: 0 <= j < i ==> hits[1..][j].id != id;
        assert hits[i + 1] == rest.value;
        rest
      else
        assert forall i :: 1 <= i < |hits| ==> hits[i] == hits[1..][i - 1];
        rest
  }

  /** The patches for choosing the hit `hit` as the new target. */
  function SelectPatches(schema: SchemaType, publishedId: string, hit: Hit): seq<Patch> {
    [ SetIfMissing(EmptyObject, []),
      Set(Str(schema.name), [Field(TypeField)]),
      Set(Str(publishedId), [Field(RefField)]),
      if hit.published.Some? && !IsSet(schema.weak) then Unset([Field(WeakField)])
      else Set(Bool(true), [Field(WeakField)]),
      if hit.published.Some? then Unset([Field(StrengthenField)])
      else Set(Strengthen(hit.hitType, schema.weak, None), [Field(StrengthenField)]) ]
  }

  /** `handleChange`. An empty id clears the reference; an id not among the current hits
      throws; otherwise the reference is pointed at the published id of the hit, weak
      unless the hit is published and the schema is not weak, and marked to be
      strengthened on publish unless the hit is published. Focus moves to the field. */
  function HandleChange(
    nextId: string, hits: seq<Hit>, schema: SchemaType, getPublishedId: string -> string)
    : (r: Result<ChangeOutcome, string>)
    ensures nextId == "" ==> r == Ok(ChangeOutcome([Unset([])], []))
    ensures r.Err? <==> nextId != "" && forall i :: 0 <= i < |hits| ==> hits[i].id != nextId
    ensures r.Err? ==> r.error == NotInResultSetError
    ensures r.Ok? ==> r.value.focusPath == []
    ensures r.Ok? && nextId != "" ==>
      var hit := FindHit(hits, nextId).value;
      var p := r.value.patches;
      && |p| == 5
      && p[0] == SetIfMissing(EmptyObject, [])
      && p[1] == Set(Str(schema.name), [Field(TypeField)])
      && p[2] == Set(Str(getPublishedId(nextId)), [Field(RefField)])
      && (p[3] == Unset([Field(WeakField)]) <==> hit.published.Some? && !IsSet(schema.weak))
      && (p[3] != Unset([Field(WeakField)]) ==> p[3] == Set(Bool(true), [Field(WeakField)]))
      && (p[4] == Unset([Field(StrengthenField)]) <==> hit.published.Some?)
      && (p[4] != Unset([Field(StrengthenField)]) ==>
            p[4] == Set(Strengthen(hit.hitType, schema.weak, None), [Field(StrengthenField)]))
  {
    if nextId == "" then Ok(ChangeOutcome([Unset([])], []))
    else
      var hit := FindHit(hits, nextId);
      if hit.None? then Err(NotInResultSetError)
      else Ok(ChangeOutcome(SelectPatches(schema, getPublishedId(nextId), hit.value), []))
  }

  /** `handleCreateNew`: the fresh id (`uuid()`) is a parameter. The new reference is weak
      and strengthened on publish; the new document is opened for editing. */
  function HandleCreateNew(option: CreateOption, schema: SchemaType, newId: string): (r: CreateOutcome)
    ensures |r.patches| == 5 && r.patches[0] == SetIfMissing(EmptyObject, [])
    ensures Set(Str(schema.name), [Field(TypeField)]) in r.patches
    ensures Set(Str(newId), [Field(RefField)]) in r.patches
    ensures Set(Bool(true), [Field(WeakField)]) in r.patches
    ensures Set(Strengthen(option.optionType, schema.weak, option.template), [Field(StrengthenField)]) in r.patches
    ensures r.edit == EditRequest(newId, option.optionType, option.template)
    ensures r.focusPath == []
  {
    var patches := [
      SetIfMissing(EmptyObject, []),
      Set(Str(schema.name), [Field(TypeField)]),
      Set(Str(newId), [Field(RefField)]),
      Set(Bool(true), [Field(WeakField)]),
      Set(Strengthen(option.optionType, schema.weak, option.template), [Field(StrengthenField)])
    ];
    assert patches[1] == Set(Str(schema.name), [Field(TypeField)]);
    assert patches[2] == Set(Str(newId), [Field(RefField)]);
    assert patches[3] == Set(Bool(true), [Field(WeakField)]);
    CreateOutcome(patches, EditRequest(newId, option.optionType, option.template), [])
  }

  /** `handleClear`. */
  function HandleClear(): (r: seq<Patch>)
    ensures forall value :: ApplyAllToRef(value, r) == None
  {
    var patches := [Unset([])];
    assert forall value :: ApplyAllToRef(value, patches) == ApplyAllToRef(None, patches[1..]);
    patches
  }

  /** `handleCancelEdit`: clear the field only when it has no target yet. */
  function HandleCancelEdit(value: Option<RefValue>): (r: seq<Patch>)
    ensures r == [] <==> HasRef(value)
    ensures ApplyAllToRef(value, r) == if HasRef(value) then value else None
  {
    if !HasRef(value) then HandleClear() else []
  }

  // ---------------------------------------------------------------------------
  // What the patches do

  /** Choosing a hit sets every reference field, whatever the field held before. */
  lemma SelectSetsReference(
    value: Option<RefValue>, nextId: string, hits: seq<Hit>, schema: SchemaType,
    getPublishedId: string -> string)
    requires nextId != "" && HandleChange(nextId, hits, schema, getPublishedId).Ok?
    ensures
      var hit := FindHit(hits, nextId).value;
      ApplyAllToRef(value, HandleChange(nextId, hits, schema, getPublishedId).value.patches)
        == Some(RefValue(
             Some(schema.name),
             Some(getPublishedId(nextId)),
             if hit.published.Some? && !IsSet(schema.weak) then None else Some(true),
             if hit.published.Some? then None else Some(Strengthen(hit.hitType, schema.weak, None))))
  {
    var hit := FindHit(hits, nextId).value;
    var p := SelectPatches(schema, getPublishedId(nextId), hit);
    ApplyFieldPatches(value, p);
  }

  /** Unfolds the five-patch batch the handlers build. */
  lemma ApplyFieldPatches(value: Option<RefValue>, p: seq<Patch>)
    requires |p| == 5
    ensures ApplyAllToRef(value, p)
      == ApplyToRef(ApplyToRef(ApplyToRef(ApplyToRef(ApplyToRef(value, p[0]), p[1]), p[2]), p[3]), p[4])
  {
    var v1 := ApplyToRef(value, p[0]);
    var v2 := ApplyToRef(v1, p[1]);
    var v3 := ApplyToRef(v2, p[2]);
    var v4 := ApplyToRef(v3, p[3]);
    assert p[4..][1..] == [];
    assert ApplyAllToRef(v4, p[4..]) == ApplyToRef(v4, p[4]);
    assert p[3..][1..] == p[4..];
    assert ApplyAllToRef(v3, p[3..]) == ApplyAllToRef(v4, p[4..]);
    assert p[2..][1..] == p[3..];
    assert ApplyAllToRef(v2, p[2..]) == ApplyAllToRef(v3, p[3..]);
    assert p[1..][1..] == p[2..];
    assert ApplyAllToRef(v1, p[1..]) == ApplyAllToRef(v2, p[2..]);
  }

  /** A reference chosen from the hits dangles weakly only when its target is published,
      the schema allows weak references, and the target has since disappeared. */
  lemma SelectedWeakRefToNonexistent(
    value: Option<RefValue>, nextId: string, hits: seq<Hit>, schema: SchemaType,
    getPublishedId: string -> string, reason: Option<string>)
    requires nextId != "" && HandleChange(nextId, hits, schema, getPublishedId).Ok?
    ensures
      var hit := FindHit(hits, nextId).value;
      var after := ApplyAllToRef(value, HandleChange(nextId, hits, schema, getPublishedId).value.patches);
      var dangles := reason == Some(NotFoundReason) && hit.published.Some? && IsSet(schema.weak);
      IsWeakRefToNonexistent(reason, after) <==> dangles
  {
    SelectSetsReference(value, nextId, hits, schema, getPublishedId);
  }

  /** Creating a new target gives a weak reference that waits for the target's first
      publish, so it is never reported as a weak reference to a missing document. */
  lemma CreateNewSetsReference(value: Option<RefValue>, option: CreateOption, schema: SchemaType, newId: string)
    ensures
      var after := ApplyAllToRef(value, HandleCreateNew(option, schema, newId).patches);
      && after == Some(RefValue(Some(schema.name), Some(newId), Some(true),
                                Some(Strengthen(option.optionType, schema.weak, option.template))))
      && forall reason :: !IsWeakRefToNonexistent(reason, after)
  {
    ApplyFieldPatches(value, HandleCreateNew(option, schema, newId).patches);
  }

  // ---------------------------------------------------------------------------
  // Search state

  /** `ReferenceSearchState`. */
  datatype SearchState = SearchState(hits: seq<Hit>, isLoading: bool, searchString: Option<string>)

  const InitialSearchState := SearchState([], false, None)

  /** The partial states the search pipeline emits: a search starting, its hits, or its
      failure (which only resets the hits). */
  datatype SearchUpdate =
    | Loading
    | Loaded(found: seq<Hit>, query: string)
    | Failed

  /** `{...prevState, ...nextState}`. */
  function Merge(state: SearchState, update: SearchUpdate): (next: SearchState)
    ensures CarriesHits(update) ==> next.hits == if update.Loaded? then update.found else []
    ensures !CarriesHits(update) ==> next.hits == state.hits
    ensures CarriesLoading(update) ==> next.isLoading == update.Loading?
    ensures !CarriesLoading(update) ==> next.isLoading == state.isLoading
    ensures update.Loaded? ==> next.searchString == Some(update.query)
    ensures !update.Loaded? ==> next.searchString == state.searchString
  {
    match update
    case Loading => state.(isLoading := true)
    case Loaded(found, query) => SearchState(found, false, Some(query))
    case Failed => state.(hits := [])
  }

  /** The `scan` of the updates from the initial state. */
  function Accumulate(updates: seq<SearchUpdate>): (s: SearchState)
    ensures (forall i :: 0 <= i < |updates| ==> !updates[i].Loading?) ==> !s.isLoading
    ensures (forall i :: 0 <= i < |updates| ==> !updates[i].Loaded?) ==> s.hits == [] && s.searchString.None?
    decreases |updates|
  {
    if updates == [] then InitialSearchState
    else
      var init := updates[..|updates| - 1];
      assert forall i :: 0 <= i < |init| ==> init[i] == updates[i];
      Merge(Accumulate(init), updates[|updates| - 1])
  }

  /** The updates one query contributes: loading, then the result or the failure. */
  function QueryUpdates(query: string, outcome: Option<seq<Hit>>): (r: seq<SearchUpdate>)
    ensures |r| == 2 && r[0] == Loading
    ensures outcome.Some? <==> r[1].Loaded?
    ensures outcome.Some? ==> r[1].found == outcome.value && r[1].query == query
    ensures outcome.None? ==> r[1] == Failed
  {
    [Loading] + if outcome.Some? then [Loaded(outcome.value, query)] else [Failed]
  }

  /** Updates that carry hits. */
  predicate CarriesHits(u: SearchUpdate) { u.Loaded? || u.Failed? }

  /** Updates that set the loading flag. */
  predicate CarriesLoading(u: SearchUpdate) { u.Loading? || u.Loaded? }

  /** The last update satisfying `p`, if any, with its position. */
  function LastWhere(updates: seq<SearchUpdate>, p: SearchUpdate -> bool): (r: Option<nat>)
    ensures r.Some? ==> r.value < |updates| && p(updates[r.value])
    ensures r.Some? ==> forall j :: r.value < j < |updates| ==> !p(updates[j])
    ensures r.None? ==> forall j :: 0 <= j < |updates| ==> !p(updates[j])
    decreases |updates|
  {
    if updates == [] then None
    else if p(updates[|updates| - 1]) then Some(|updates| - 1)
    else LastWhere(updates[..|updates| - 1], p)
  }

  /** Each field of the merged state comes from the last update that carries it, or from
      the initial state when none does. */
  lemma {:induction false} AccumulateIsLastWrite(updates: seq<SearchUpdate>)
    ensures
      var s := Accumulate(updates);
      var h := LastWhere(updates, CarriesHits);
      var l := LastWhere(updates, CarriesLoading);
      var q := LastWhere(updates, (u: SearchUpdate) => u.Loaded?);
      && s.hits == (if h.None? || updates[h.value].Failed? then [] else updates[h.value].found)
      && s.isLoading == (l.Some? && updates[l.value].Loading?)
      && s.searchString == (if q.None? then None else Some(updates[q.value].query))
    decreases |updates|
  {
    if updates != [] {
      AccumulateIsLastWrite(updates[..|updates| - 1]);
    }
  }

  /** A query that answers leaves its hits and its query in the state and stops loading;
      a query that fails clears the hits but leaves the loading flag set. */
  lemma QueryOutcome(before: seq<SearchUpdate>, query: string, outcome: Option<seq<Hit>>)
    ensures
      var s := Accumulate(before + QueryUpdates(query, outcome));
      && (outcome.Some? ==> s.hits == outcome.value && !s.isLoading && s.searchString == Some(query))
      && (outcome.None? ==>
            s.hits == [] && s.isLoading && s.searchString == Accumulate(before).searchString)
  {
    var all := before + QueryUpdates(query, outcome);
    assert all[..|all| - 1] == before + [Loading];
    assert (before + [Loading])[..|before|] == before;
  }
}
