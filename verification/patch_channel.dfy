/** The messages the document form view publishes on its patch channel (`FormView`).

    Document events from the store become patch messages: a mutation event's patches,
    and a rebase event's remote patches followed by its local ones, converted by the
    form builder's `fromMutationPatches` (a parameter here). A mutation without a patch
    contributes nothing. Separately, when the displayed document first gets a revision,
    an empty mutation message carrying the document is published. */
module PatchChannel {
  import opened Base

  datatype Origin = Local | Remote

  datatype MessageType = MutationMessage | RebaseMessage

  /** `PatchMsg`: the message type, the document snapshot and the form patches. */
  datatype PatchMsg<D, F> = PatchMsg(msgType: MessageType, snapshot: D, patches: seq<F>)

  /** A mutation of the store; its `patch` may be missing. */
  datatype Mutation<P> = Mutation(patch: Option<P>)

  datatype DocumentEvent<P, D> =
    | MutationEvent(origin: Origin, mutations: seq<Mutation<P>>, document: D)
    | RebaseEvent(remoteMutations: seq<Mutation<P>>, localMutations: seq<Mutation<P>>, document: D)
    | OtherEvent

  /** `mutations.map(mut => mut.patch).filter(Boolean)`. */
  function Present<P>(mutations: seq<Mutation<P>>): (r: seq<P>)
    ensures |r| <= |mutations|
    ensures forall i :: 0 <= i < |mutations| && mutations[i].patch.Some? ==> mutations[i].patch.value in r
    decreases |mutations|
  {
    if mutations == [] then []
    else
      var last := mutations[|mutations| - 1];
      var init := mutations[..|mutations| - 1];
      assert forall i :: 0 <= i < |init| ==> init[i] == mutations[i];
      Present(init) + (if last.patch.Some? then [last.patch.value] else [])
  }

  /** Every kept patch is the patch of some mutation. */
  lemma {:induction false} PresentHasSource<P>(mutations: seq<Mutation<P>>, k: nat)
    requires k < |Present(mutations)|
    ensures exists i :: 0 <= i < |mutations| && mutations[i].patch == Some(Present(mutations)[k])
    decreases |mutations|
  {
    var n := |mutations| - 1;
    var init := mutations[..n];
    if k < |Present(init)| {
      PresentHasSource(init, k);
      var i :| 0 <= i < |init| && init[i].patch == Some(Present(init)[k]);
      assert mutations[i] == init[i];
    } else {
      assert mutations[n].patch == Some(Present(mutations)[k]);
    }
  }

  /** Filtering distributes over concatenation. */
  lemma {:induction false} PresentConcat<P>(a: seq<Mutation<P>>, b: seq<Mutation<P>>)
    ensures Present(a + b) == Present(a) + Present(b)
    decreases |b|
  {
    if b == [] {
      assert a + b == a;
    } else {
      var init := b[..|b| - 1];
      PresentConcat(a, init);
      assert (a + b)[..|a + b| - 1] == a + init;
    }
  }

  /** A mutation without a patch is dropped and one with a patch keeps its place:
      the filter keeps the present patches in their original order. */
  lemma PresentKeepsOrder<P>(a: seq<Mutation<P>>, m: Mutation<P>, b: seq<Mutation<P>>)
    ensures m.patch.None? ==> Present(a + [m] + b) == Present(a + b)
    ensures m.patch.Some? ==> Present(a + [m] + b) == Present(a) + [m.patch.value] + Present(b)
  {
    var pa, pm, pb := Present(a), Present([m]), Present(b);
    PresentOne(m);
    PresentConcat(a + [m], b);
    PresentConcat(a, [m]);
    PresentConcat(a, b);
    assert Present(a + [m] + b) == pa + pm + pb;
    if m.patch.None? {
      assert pm == [];
      assert pa + pm + pb == pa + pb;
    }
  }

  lemma PresentOne<P>(m: Mutation<P>)
    ensures Present([m]) == if m.patch.Some? then [m.patch.value] else []
  {
    assert [m][..0] == [];
  }

  /** `prepareMutationEvent`. */
  function PrepareMutationEvent<P, D, F>(
    origin: Origin, mutations: seq<Mutation<P>>, document: D,
    fromMutationPatches: (Origin, seq<P>) -> seq<F>)
    : (r: PatchMsg<D, F>)
    ensures r.msgType == MutationMessage && r.snapshot == document
    ensures r.patches == fromMutationPatches(origin, Present(mutations))
  {
    PatchMsg(MutationMessage, document, fromMutationPatches(origin, Present(mutations)))
  }

  /** `prepareRebaseEvent`: the remote patches come first, then the local ones, each list
      filtered on its own. */
  function PrepareRebaseEvent<P, D, F>(
    remoteMutations: seq<Mutation<P>>, localMutations: seq<Mutation<P>>, document: D,
    fromMutationPatches: (Origin, seq<P>) -> seq<F>)
    : (r: PatchMsg<D, F>)
    ensures r.msgType == RebaseMessage && r.snapshot == document
    ensures
      var remote := fromMutationPatches(Remote, Present(remoteMutations));
      var local := fromMutationPatches(Local, Present(localMutations));
      && |r.patches| == |remote| + |local|
      && r.patches[..|remote|] == remote
      && r.patches[|remote|..] == local
  {
    var remote := fromMutationPatches(Remote, Present(remoteMutations));
    var local := fromMutationPatches(Local, Present(localMutations));
    assert (remote + local)[..|remote|] == remote;
    assert (remote + local)[|remote|..] == local;
    PatchMsg(RebaseMessage, document, remote + local)
  }

  /** The message the store's event subscription publishes, if any. */
  function Publish<P, D, F>(event: DocumentEvent<P, D>, fromMutationPatches: (Origin, seq<P>) -> seq<F>)
    : (r: Option<PatchMsg<D, F>>)
    ensures r.Some? <==> !event.OtherEvent?
    ensures r.Some? ==> r.value.snapshot == event.document
    ensures event.MutationEvent? ==> r.value.msgType == MutationMessage
    ensures event.RebaseEvent? ==> r.value.msgType == RebaseMessage
    ensures event.MutationEvent? ==>
      r == Some(PrepareMutationEvent(event.origin, event.mutations, event.document, fromMutationPatches))
    ensures event.RebaseEvent? ==>
      r.value.patches
        == PrepareMutationEvent(Remote, event.remoteMutations, event.document, fromMutationPatches).patches
         + PrepareMutationEvent(Local, event.localMutations, event.document, fromMutationPatches).patches
  {
    match event
    case MutationEvent(origin, mutations, document) =>
      Some(PrepareMutationEvent(origin, mutations, document, fromMutationPatches))
    case RebaseEvent(remoteMutations, localMutations, document) =>
      RebaseIsRemoteThenLocal(remoteMutations, localMutations, document, fromMutationPatches);
      Some(PrepareRebaseEvent(remoteMutations, localMutations, document, fromMutationPatches))
    case OtherEvent => None
  }

  /** A rebase message is the remote mutation message's patches followed by the local
      one's, whatever patch-less mutations either list holds. */
  lemma RebaseIsRemoteThenLocal<P, D, F>(
    remote: seq<Mutation<P>>, local: seq<Mutation<P>>, document: D,
    fromMutationPatches: (Origin, seq<P>) -> seq<F>)
    ensures PrepareRebaseEvent(remote, local, document, fromMutationPatches).patches
      == PrepareMutationEvent(Remote, remote, document, fromMutationPatches).patches
       + PrepareMutationEvent(Local, local, document, fromMutationPatches).patches
  {
    var r := PrepareRebaseEvent(remote, local, document, fromMutationPatches);
    var a := PrepareMutationEvent(Remote, remote, document, fromMutationPatches).patches;
    assert r.patches == r.patches[..|a|] + r.patches[|a|..];
  }

  // ---------------------------------------------------------------------------
  // First revision

  /** `Boolean(value?._rev)`: a displayed value with a non-empty revision. */
  function HasRev<D>(value: Option<D>, revOf: D -> Option<string>): (hasRev: bool)
    ensures hasRev ==> value.Some? && revOf(value.value).Some?
    ensures value.Some? && revOf(value.value) == Some("") ==> !hasRev
    ensures value.Some? && revOf(value.value).Some? && revOf(value.value).value != "" ==> hasRev
  {
    value.Some? && revOf(value.value).Some? && revOf(value.value).value != ""
  }

  /** The effect keyed on `hasRev` runs on the first render and whenever `hasRev` changes;
      it publishes when the value has a revision. So a message goes out at the renders where
      a revision appears. */
  predicate RevisionAppears<D>(renders: seq<Option<D>>, revOf: D -> Option<string>, i: nat)
    requires i < |renders|
  {
    HasRev(renders[i], revOf) && (i == 0 || !HasRev(renders[i - 1], revOf))
  }

  /** The messages published at the renders where a revision appears, in render order. */
  function RevisionMessages<D, F>(renders: seq<Option<D>>, revOf: D -> Option<string>)
    : (r: seq<PatchMsg<Option<D>, F>>)
    ensures forall k :: 0 <= k < |r| ==>
      r[k].msgType == MutationMessage && r[k].patches == [] && HasRev(r[k].snapshot, revOf)
    decreases |renders|
  {
    if renders == [] then []
    else
      var n := |renders| - 1;
      var init := renders[..n];
      assert forall i :: 0 <= i < n ==> init[i] == renders[i];
      RevisionMessages(init, revOf)
        + (if RevisionAppears(renders, revOf, n) then [PatchMsg(MutationMessage, renders[n], [])] else [])
  }

  /** The effect run render by render, remembering the previous `hasRev` the way the
      dependency list does; it publishes exactly the messages `RevisionMessages` lists. */
  method RunRevisionEffect<D, F>(renders: seq<Option<D>>, revOf: D -> Option<string>)
    returns (published: seq<PatchMsg<Option<D>, F>>)
    ensures published == RevisionMessages(renders, revOf)
  {
    published := [];
    var previous: Option<bool> := None;
    for i := 0 to |renders|
      invariant published == RevisionMessages(renders[..i], revOf)
      invariant i == 0 <==> previous.None?
      invariant i > 0 ==> previous == Some(HasRev(renders[i - 1], revOf))
    {
      var hasRev := HasRev(renders[i], revOf);
      assert renders[..i + 1][..i] == renders[..i];
      assert RevisionAppears(renders[..i + 1], revOf, i) <==> RevisionAppears(renders, revOf, i);
      if previous != Some(hasRev) && hasRev {
        published := published + [PatchMsg(MutationMessage, renders[i], [])];
      }
      previous := Some(hasRev);
    }
    assert renders[..|renders|] == renders;
  }

  /** A document that keeps its revision from the first render on publishes a single
      message, carrying the first displayed value. */
  lemma {:induction false} SteadyRevisionPublishesOnce<D, F>(renders: seq<Option<D>>, revOf: D -> Option<string>)
    requires |renders| > 0
    requires forall i :: 0 <= i < |renders| ==> HasRev(renders[i], revOf)
    ensures RevisionMessages<D, F>(renders, revOf) == [PatchMsg(MutationMessage, renders[0], [])]
    decreases |renders|
  {
    if |renders| > 1 {
      var init := renders[..|renders| - 1];
      SteadyRevisionPublishesOnce<D, F>(init, revOf);
      assert !RevisionAppears(renders, revOf, |renders| - 1);
    }
  }

  /** A document that never has a revision publishes nothing. */
  lemma {:induction false} NoRevisionPublishesNothing<D, F>(renders: seq<Option<D>>, revOf: D -> Option<string>)
    requires forall i :: 0 <= i < |renders| ==> !HasRev(renders[i], revOf)
    ensures RevisionMessages<D, F>(renders, revOf) == []
    decreases |renders|
  {
    if renders != [] {
      NoRevisionPublishesNothing<D, F>(renders[..|renders| - 1], revOf);
    }
  }
}
