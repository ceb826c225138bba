/** The plugin composer of the portable-text editor (`withPlugins`).

    The composer wraps an editing surface in a fixed chain of behaviour plugins, keeps
    a per-editor table of the three pristine intercepted functions so that `destroy`
    can put them back, and fans a single `subscribe` call out to every subscription
    the plugins registered.

    The plugins themselves are opaque: each is a named wrapper around the intercepted
    functions, and the subscriptions it registers while wrapping are a parameter. */
module Plugins {
  import opened Base

  /** The behaviour plugins, by name. The max-blocks plugin carries its limit. */
  datatype Plugin =
    | SchemaTypes
    | ObjectKeys
    | MarkModel
    | BlockStyle
    | Lists
    | PlaceholderBlock
    | Utils
    | MaxBlocks(limit: int)
    | UndoRedo
    | Patches
    | Selections
    | EditableApi
    | InsertBreak

  /** The identity of an intercepted editor function: a function the editor came with,
      or a plugin's wrapper around an inner function. */
  datatype Fn = Native(id: nat) | Wrapped(wrapper: Plugin, inner: Fn)

  /** The entry of the pristine table: the editor's own `apply`, `onChange` and `normalizeNode`. */
  datatype Originals = Originals(apply: Fn, onChange: Fn, normalizeNode: Fn)

  /** Undo/redo history; the entries are opaque. */
  datatype History = History(undos: seq<nat>, redos: seq<nat>)

  const EmptyHistory: History := History([], [])

  /** A subscription function a plugin registered, and the teardown it returns when started. */
  datatype Subscription = Subscription(owner: Plugin, id: nat)
  datatype Teardown = Teardown(of: Subscription)

  /** The mutable part of the editing surface the composer touches. `id` is the object
      identity the pristine table is keyed by; `hasDestroy` says whether `destroy` is set. */
  datatype Editor = Editor(
    id: nat,
    apply: Fn,
    onChange: Fn,
    normalizeNode: Fn,
    history: History,
    subscriptions: seq<Subscription>,
    hasDestroy: bool)

  /** The association table from editor identity to its pristine functions. */
  type PristineTable = map<nat, Originals>

  datatype Options = Options(readOnly: bool, maxBlocks: Option<int>)

  /** `DestroyUndefined` is calling `destroy` on an editor the composer never armed
      (a type error in the source); `MissingPristine` is the composer's own error. */
  datatype ComposerError = MissingPristine | DestroyUndefined

  /** What `withPlugins` hands back: the wrapped editor, and the state of the table. */
  datatype Installed = Installed(editor: Editor, table: PristineTable, readOnly: bool)

  /** Which plugins a given plugin registers subscriptions for while it wraps the editor. */
  type Registrations = Plugin -> seq<Subscription>

  function OriginalsOf(e: Editor): Originals {
    Originals(e.apply, e.onChange, e.normalizeNode)
  }

  // ---------------------------------------------------------------------------
  // Function identities

  /** The wrappers around `f`, outermost first. */
  function Layers(f: Fn): seq<Plugin> {
    match f
    case Native(_) => []
    case Wrapped(p, inner) => [p] + Layers(inner)
  }

  /** The function at the bottom of all wrappers. */
  function Core(f: Fn): (c: Fn)
    ensures c.Native?
  {
    match f
    case Native(_) => f
    case Wrapped(_, inner) => Core(inner)
  }

  /** Two identities with the same wrappers around the same core are the same function. */
  lemma {:induction false} LayersDetermine(f: Fn, g: Fn)
    requires Layers(f) == Layers(g) && Core(f) == Core(g)
    ensures f == g
  {
    match f
    case Native(_) =>
      assert g.Native?;
    case Wrapped(p, inner) =>
      assert Layers(g) == [p] + Layers(inner);
      assert g.Wrapped?;
      assert Layers(g)[0] == g.wrapper;
      assert Layers(inner) == Layers(f)[1..] == Layers(g)[1..] == Layers(g.inner);
      LayersDetermine(inner, g.inner);
  }

  // ---------------------------------------------------------------------------
  // The chains

  /** `maxBlocks || -1`: an absent or zero limit becomes -1 (unlimited). */
  function MaxBlocksLimit(maxBlocks: Option<int>): (limit: int)
    ensures maxBlocks.None? ==> limit == -1
    ensures maxBlocks.Some? && maxBlocks.value == 0 ==> limit == -1
    ensures maxBlocks.Some? && maxBlocks.value != 0 ==> limit == maxBlocks.value
  {
    match maxBlocks
    case None => -1
    case Some(n) => if n == 0 then -1 else n
  }

  /** The editable chain, outermost first. */
  function EditableChain(limit: int): seq<Plugin> {
    [SchemaTypes, ObjectKeys, MarkModel, BlockStyle, Lists, PlaceholderBlock, Utils,
     MaxBlocks(limit), UndoRedo, Patches, Selections, EditableApi, InsertBreak]
  }

  /** The read-only chain, outermost first. */
  const ReadOnlyChain: seq<Plugin> :=
    [SchemaTypes, ObjectKeys, MarkModel, BlockStyle, Utils, PlaceholderBlock, Lists,
     Selections, EditableApi, InsertBreak]

  /** The plugins that capture side effects (history, patches, capacity). */
  predicate Captures(p: Plugin) {
    p.MaxBlocks? || p == UndoRedo || p == Patches
  }

  /** The plugins that shape data, whose order the two modes disagree on. */
  predicate ShapesData(p: Plugin) {
    p == Lists || p == PlaceholderBlock || p == Utils
  }

  /** Where `p` sits in the editable chain (outermost is 0). */
  function EditableRank(p: Plugin): nat {
    match p
    case SchemaTypes => 0
    case ObjectKeys => 1
    case MarkModel => 2
    case BlockStyle => 3
    case Lists => 4
    case PlaceholderBlock => 5
    case Utils => 6
    case MaxBlocks(_) => 7
    case UndoRedo => 8
    case Patches => 9
    case Selections => 10
    case EditableApi => 11
    case InsertBreak => 12
  }

  /** The chain for the options, outermost first. Editable mode lists every plugin in
      `EditableRank` order with the max-blocks limit taken from the options. Read-only
      mode drops exactly the capturing plugins and keeps the editable order of every pair
      except the data-shaping three, whose order it reverses. */
  function ChainFor(options: Options): (chain: seq<Plugin>)
    ensures !options.readOnly ==>
      && |chain| == 13
      && (forall i :: 0 <= i < |chain| ==> EditableRank(chain[i]) == i)
      && MaxBlocks(MaxBlocksLimit(options.maxBlocks)) in chain
    ensures options.readOnly ==>
      forall p :: p in chain <==> p in EditableChain(MaxBlocksLimit(options.maxBlocks)) && !Captures(p)
    ensures options.readOnly ==>
      forall i, j :: 0 <= i < j < |chain| ==>
        if ShapesData(chain[i]) && ShapesData(chain[j]) then EditableRank(chain[j]) < EditableRank(chain[i])
        else EditableRank(chain[i]) < EditableRank(chain[j])
  {
    if options.readOnly then ReadOnlyChain else EditableChain(MaxBlocksLimit(options.maxBlocks))
  }

  // ---------------------------------------------------------------------------
  // Wrapping

  /** One plugin wraps the three intercepted functions and registers its subscriptions. */
  function WrapWith(p: Plugin, e: Editor, registers: Registrations): (r: Editor)
    ensures Layers(r.apply) == [p] + Layers(e.apply) && Core(r.apply) == Core(e.apply)
    ensures Layers(r.onChange) == [p] + Layers(e.onChange) && Core(r.onChange) == Core(e.onChange)
    ensures Layers(r.normalizeNode) == [p] + Layers(e.normalizeNode)
    ensures Core(r.normalizeNode) == Core(e.normalizeNode)
    ensures r.subscriptions == e.subscriptions + registers(p)
    ensures r.id == e.id && r.history == e.history && r.hasDestroy == e.hasDestroy
  {
    e.(apply := Wrapped(p, e.apply),
       onChange := Wrapped(p, e.onChange),
       normalizeNode := Wrapped(p, e.normalizeNode),
       subscriptions := e.subscriptions + registers(p))
  }

  /** The subscriptions a chain registers: the innermost plugin wraps first, so its
      subscriptions come first. */
  function InnermostFirst(chain: seq<Plugin>, registers: Registrations): seq<Subscription> {
    if chain == [] then []
    else registers(chain[|chain| - 1]) + InnermostFirst(chain[..|chain| - 1], registers)
  }

  lemma {:induction false} InnermostFirstCons(p: Plugin, rest: seq<Plugin>, registers: Registrations)
    ensures InnermostFirst([p] + rest, registers) == InnermostFirst(rest, registers) + registers(p)
    decreases |rest|
  {
    var chain := [p] + rest;
    if rest == [] {
      assert chain[..0] == [];
    } else {
      var last := rest[|rest| - 1];
      assert chain[|chain| - 1] == last;
      assert chain[..|chain| - 1] == [p] + rest[..|rest| - 1];
      InnermostFirstCons(p, rest[..|rest| - 1], registers);
    }
  }

  /** The wrappers of `chain` nested around `f`, first plugin outermost. */
  function Nest(chain: seq<Plugin>, f: Fn): Fn
    decreases |chain|
  {
    if chain == [] then f else Wrapped(chain[0], Nest(chain[1..], f))
  }

  /** Nesting adds exactly the chain's wrappers, in order, and keeps the native function. */
  lemma {:induction false} NestLayers(chain: seq<Plugin>, f: Fn)
    ensures Layers(Nest(chain, f)) == chain + Layers(f) && Core(Nest(chain, f)) == Core(f)
    decreases |chain|
  {
    if chain != [] {
      NestLayers(chain[1..], f);
      assert [chain[0]] + (chain[1..] + Layers(f)) == chain + Layers(f);
    }
  }

  /** `withA(withB(...(withZ(e))))` for `chain == [A, B, ..., Z]`. */
  function ApplyChain(chain: seq<Plugin>, e: Editor, registers: Registrations): (r: Editor)
    ensures r.id == e.id && r.history == e.history && r.hasDestroy == e.hasDestroy
    ensures r.apply == Nest(chain, e.apply) && r.onChange == Nest(chain, e.onChange)
    ensures r.normalizeNode == Nest(chain, e.normalizeNode)
    decreases |chain|
  {
    if chain == [] then e
    else WrapWith(chain[0], ApplyChain(chain[1..], e, registers), registers)
  }

  /** Applying a chain puts its plugins around each intercepted function, first plugin
      outermost, and appends their subscriptions innermost plugin first. */
  lemma {:induction false} ApplyChainWraps(chain: seq<Plugin>, e: Editor, registers: Registrations)
    ensures
      var r := ApplyChain(chain, e, registers);
      && Layers(r.apply) == chain + Layers(e.apply) && Core(r.apply) == Core(e.apply)
      && Layers(r.onChange) == chain + Layers(e.onChange) && Core(r.onChange) == Core(e.onChange)
      && Layers(r.normalizeNode) == chain + Layers(e.normalizeNode)
      && Core(r.normalizeNode) == Core(e.normalizeNode)
      && r.subscriptions == e.subscriptions + InnermostFirst(chain, registers)
  {
    NestLayers(chain, e.apply);
    NestLayers(chain, e.onChange);
    NestLayers(chain, e.normalizeNode);
    ChainSubscriptions(chain, e, registers);
  }

  lemma {:induction false} ChainSubscriptions(chain: seq<Plugin>, e: Editor, registers: Registrations)
    ensures ApplyChain(chain, e, registers).subscriptions == e.subscriptions + InnermostFirst(chain, registers)
    decreases |chain|
  {
    if chain != [] {
      ChainSubscriptions(chain[1..], e, registers);
      assert [chain[0]] + chain[1..] == chain;
      InnermostFirstCons(chain[0], chain[1..], registers);
    }
  }

  // ---------------------------------------------------------------------------
  // Install and destroy

  /** `e.destroy()`: put back the pristine functions and clear the history. */
  function Destroy(table: PristineTable, e: Editor): (r: Result<Editor, ComposerError>)
    ensures !e.hasDestroy ==> r == Err(DestroyUndefined)
    ensures e.hasDestroy && e.id !in table ==> r == Err(MissingPristine)
    ensures r.Err? <==> !e.hasDestroy || e.id !in table
    ensures r.Ok? ==> e.id in table && OriginalsOf(r.value) == table[e.id]
    ensures r.Ok? ==> r.value.history == History([], [])
    ensures r.Ok? ==> r.value.id == e.id && r.value.subscriptions == e.subscriptions
    ensures r.Ok? ==> r.value.hasDestroy
  {
    if !e.hasDestroy then Err(DestroyUndefined)
    else if e.id !in table then Err(MissingPristine)
    else
      var saved := table[e.id];
      Ok(e.(apply := saved.apply, history := EmptyHistory,
            normalizeNode := saved.normalizeNode, onChange := saved.onChange))
  }

  /** `withPlugins(editor, options)`. */
  function Install(table: PristineTable, e: Editor, options: Options, registers: Registrations)
    : (r: Result<Installed, ComposerError>)
    // a re-install whose table entry is missing fails in its implicit destroy
    ensures r.Err? <==> e.hasDestroy && e.id !in table
    ensures r.Err? ==> r.error == MissingPristine
    // the pristine functions are saved only by an install on an editor without destroy
    ensures r.Ok? && !e.hasDestroy ==> r.value.table == table[e.id := OriginalsOf(e)]
    ensures r.Ok? && e.hasDestroy ==> r.value.table == table
    // every intercepted function is the mode's chain around the saved pristine one
    ensures r.Ok? ==> e.id in r.value.table
    ensures r.Ok? ==>
      var saved := r.value.table[e.id];
      var ed := r.value.editor;
      && Layers(ed.apply) == ChainFor(options) + Layers(saved.apply)
      && Core(ed.apply) == Core(saved.apply)
      && Layers(ed.onChange) == ChainFor(options) + Layers(saved.onChange)
      && Core(ed.onChange) == Core(saved.onChange)
      && Layers(ed.normalizeNode) == ChainFor(options) + Layers(saved.normalizeNode)
      && Core(ed.normalizeNode) == Core(saved.normalizeNode)
    // subscriptions restart from empty: only this chain's registrations remain
    ensures r.Ok? ==> r.value.editor.subscriptions == InnermostFirst(ChainFor(options), registers)
    // a first install leaves the history alone; a re-install clears it through destroy
    ensures r.Ok? && !e.hasDestroy ==> r.value.editor.history == e.history
    ensures r.Ok? && e.hasDestroy ==> r.value.editor.history == History([], [])
    ensures r.Ok? ==> r.value.editor.id == e.id && r.value.editor.hasDestroy
    ensures r.Ok? ==> r.value.readOnly == options.readOnly
  {
    var cleared := e.(subscriptions := []);
    var prepared :- if cleared.hasDestroy then Destroy(table, cleared) else Ok(cleared);
    var table' := if e.hasDestroy then table else table[e.id := OriginalsOf(e)];
    var armed := prepared.(hasDestroy := true);
    ApplyChainWraps(ChainFor(options), armed, registers);
    Ok(Installed(ApplyChain(ChainFor(options), armed, registers), table', options.readOnly))
  }

  // ---------------------------------------------------------------------------
  // Subscribe

  /** `subscribe()`: start every registered subscription in order (nothing in read-only
      mode) and collect the teardowns they return. */
  method Subscribe(readOnly: bool, subscriptions: seq<Subscription>)
    returns (started: seq<Subscription>, teardowns: seq<Teardown>)
    ensures readOnly ==> started == [] && teardowns == []
    ensures !readOnly ==> started == subscriptions
    ensures !readOnly ==> |teardowns| == |subscriptions|
    ensures !readOnly ==>
      forall i :: 0 <= i < |teardowns| ==> teardowns[i] == Teardown(subscriptions[i])
  {
    started := [];
    teardowns := [];
    if readOnly {
      return;
    }
    var i := 0;
    while i < |subscriptions|
      invariant 0 <= i <= |subscriptions|
      invariant started == subscriptions[..i]
      invariant |teardowns| == i
      invariant forall k :: 0 <= k < i ==> teardowns[k] == Teardown(subscriptions[k])
    {
      started := started + [subscriptions[i]];
      teardowns := teardowns + [Teardown(subscriptions[i])];
      i := i + 1;
    }
  }

  /** The combined teardown: call every collected teardown once, in order. */
  method Unsubscribe(teardowns: seq<Teardown>) returns (called: seq<Teardown>)
    ensures called == teardowns
  {
    called := [];
    var i := 0;
    while i < |teardowns|
      invariant 0 <= i <= |teardowns|
      invariant called == teardowns[..i]
    {
      called := called + [teardowns[i]];
      i := i + 1;
    }
  }

  /** Subscribing and then calling the combined teardown: each started subscription has
      its own teardown called exactly once, in the order the subscriptions started. */
  method SubscribeThenUnsubscribe(readOnly: bool, subscriptions: seq<Subscription>)
    returns (started: seq<Subscription>, called: seq<Teardown>)
    ensures |called| == |started|
    ensures forall i :: 0 <= i < |called| ==> called[i] == Teardown(started[i])
    ensures readOnly ==> called == []
    ensures !readOnly ==> started == subscriptions
  {
    var teardowns;
    started, teardowns := Subscribe(readOnly, subscriptions);
    called := Unsubscribe(teardowns);
  }

  // ---------------------------------------------------------------------------
  // Lifecycle

  /** A step of an editor's life: an install with some options, or a destroy. */
  datatype Step = InstallStep(options: Options) | DestroyStep

  /** Run the steps in order; the first failure stops the run. */
  function Run(table: PristineTable, e: Editor, steps: seq<Step>, registers: Registrations)
    : Result<(PristineTable, Editor), ComposerError>
    decreases |steps|
  {
    if steps == [] then Ok((table, e))
    else
      match steps[0]
      case InstallStep(options) =>
        (match Install(table, e, options, registers)
         case Err(err) => Err(err)
         case Ok(installed) => Run(installed.table, installed.editor, steps[1..], registers))
      case DestroyStep =>
        (match Destroy(table, e)
         case Err(err) => Err(err)
         case Ok(e') => Run(table, e', steps[1..], registers))
  }

  /** The composer's invariant after the first install: the editor is armed, the table
      still holds the functions it had before any plugin, and each intercepted function
      is either that function or one chain of plugins around it. */
  ghost predicate Tracked(table: PristineTable, e: Editor, pristine: Originals) {
    && e.hasDestroy
    && e.id in table
    && table[e.id] == pristine
    && (OriginalsOf(e) == pristine
        || exists options :: Wrapping(e, pristine, ChainFor(options)))
  }

  ghost predicate Wrapping(e: Editor, pristine: Originals, chain: seq<Plugin>) {
    && Layers(e.apply) == chain + Layers(pristine.apply) && Core(e.apply) == Core(pristine.apply)
    && Layers(e.onChange) == chain + Layers(pristine.onChange)
    && Core(e.onChange) == Core(pristine.onChange)
    && Layers(e.normalizeNode) == chain + Layers(pristine.normalizeNode)
    && Core(e.normalizeNode) == Core(pristine.normalizeNode)
  }

  /** Any sequence of installs and destroys that starts with an install on an editor the
      composer has not armed never fails, never loses or overwrites the pristine entry,
      and never stacks two chains. */
  lemma {:induction false} LifecycleKeepsPristine(
    table: PristineTable, e: Editor, options: Options, steps: seq<Step>, registers: Registrations)
    requires !e.hasDestroy
    ensures Run(table, e, [InstallStep(options)] + steps, registers).Ok?
    ensures
      var (t, e') := Run(table, e, [InstallStep(options)] + steps, registers).value;
      Tracked(t, e', OriginalsOf(e))
  {
    var first := Install(table, e, options, registers);
    assert first.Ok?;
    var installed := first.value;
    assert Wrapping(installed.editor, OriginalsOf(e), ChainFor(options));
    assert ([InstallStep(options)] + steps)[1..] == steps;
    TrackedRun(installed.table, installed.editor, OriginalsOf(e), steps, registers);
  }

  lemma {:induction false} TrackedRun(
    table: PristineTable, e: Editor, pristine: Originals, steps: seq<Step>, registers: Registrations)
    requires Tracked(table, e, pristine)
    ensures Run(table, e, steps, registers).Ok?
    ensures
      var (t, e') := Run(table, e, steps, registers).value;
      Tracked(t, e', pristine)
    decreases |steps|
  {
    if steps != [] {
      match steps[0]
      case InstallStep(options) =>
        var installed := Install(table, e, options, registers).value;
        assert Wrapping(installed.editor, pristine, ChainFor(options));
        TrackedRun(installed.table, installed.editor, pristine, steps[1..], registers);
      case DestroyStep =>
        var e' := Destroy(table, e).value;
        TrackedRun(table, e', pristine, steps[1..], registers);
    }
  }

  /** The table entry survives `destroy`, so destroying twice succeeds and the second
      call changes nothing. */
  lemma DestroyTwice(table: PristineTable, e: Editor)
    requires Destroy(table, e).Ok?
    ensures Destroy(table, Destroy(table, e).value) == Destroy(table, e)
  {
  }

  /** Re-installing does not stack wrappers: the functions after a second install are
      exactly those a single install with the same options would have produced. */
  lemma ReinstallWrapsOnce(
    table: PristineTable, e: Editor, first: Options, second: Options, registers: Registrations)
    requires !e.hasDestroy
    ensures
      var once := Install(table, e, first, registers).value;
      var again := Install(once.table, once.editor, second, registers);
      var direct := Install(table, e, second, registers).value;
      && again.Ok?
      && again.value.table == direct.table
      && OriginalsOf(again.value.editor) == OriginalsOf(direct.editor)
      && again.value.editor.subscriptions == direct.editor.subscriptions
  {
    var once := Install(table, e, first, registers).value;
    var again := Install(once.table, once.editor, second, registers).value;
    var direct := Install(table, e, second, registers).value;
    LayersDetermine(again.editor.apply, direct.editor.apply);
    LayersDetermine(again.editor.onChange, direct.editor.onChange);
    LayersDetermine(again.editor.normalizeNode, direct.editor.normalizeNode);
  }
}
