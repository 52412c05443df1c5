/** The editor as a stream of user events. Each event reaches its handler
    only when the page offers it: canvas and component events are switched
    off in preview mode, a component of a type the canvas cannot render has
    no drag, click or styling handlers of its own, the Reset, Save and Export
    buttons need a non-empty canvas, Load needs a stored layout, and while a
    dialog is open nothing behind it can be clicked. A disabled event leaves
    the state as it is. */
module Session {
  import opened Values
  import opened Styles
  import opened JsStrings
  import opened Canvas
  import opened Persistence
  import opened Editor

  datatype Dialog = SaveDialog | LoadDialog | ExportDialog

  datatype Event =
    | DragOver
    | DragLeave
    | Drop(at: Position, payload: DropPayload, now: nat)
    | ComponentDragStart(id: string)
    | ComponentClick(id: string)
    | CanvasClick
    | StyleChange(id: string, update: StyleObject)
    | Reset
    | PreviewToggle
    | Open(dialog: Dialog)
    | Dismiss(dialog: Dialog)
    | CancelSave
    | CancelLoad
    | EditLayoutName(name: string)
    | ChooseLayout(name: string)
    | ChooseFormat(format: string)
    | Save(savedAt: string)
    | Load
    | Export(exportedAt: string)

  predicate DialogOpen(s: EditorState)
  {
    s.showSave || s.showLoad || s.showExport
  }

  predicate IsOpen(s: EditorState, d: Dialog)
  {
    match d
    case SaveDialog => s.showSave
    case LoadDialog => s.showLoad
    case ExportDialog => s.showExport
  }

  /** Whether the canvas draws a component with this id as a Button, Input
      or Card, with its own drag and click handlers and, when selected, its
      styling panel. Any other type is drawn as a bare placeholder. */
  predicate Rendered(cs: seq<Component>, id: string)
  {
    exists i :: 0 <= i < |cs| && cs[i].id == id && cs[i].kind in KnownKinds
  }

  /** Whether the page offers the event in state `s`. */
  predicate Enabled(s: EditorState, e: Event)
    ensures s.preview && !DialogOpen(s) ==> (Enabled(s, e) <==> e.PreviewToggle?)
    ensures DialogOpen(s) && Enabled(s, e) ==>
      e.Dismiss? || e.CancelSave? || e.CancelLoad? || e.EditLayoutName? || e.ChooseLayout?
      || e.ChooseFormat? || e.Save? || e.Load? || e.Export?
    ensures (e.ComponentDragStart? || e.StyleChange?) && Enabled(s, e) ==> Rendered(s.components, e.id)
    ensures (e.Save? || e.CancelSave?) && Enabled(s, e) ==> s.showSave
    ensures (e.Load? || e.CancelLoad? || e.ChooseLayout?) && Enabled(s, e) ==> s.showLoad
    ensures (e.Export? || e.ChooseFormat?) && Enabled(s, e) ==> s.showExport
    ensures e.EditLayoutName? && Enabled(s, e) ==> s.showSave || s.showExport
    ensures e.Dismiss? && Enabled(s, e) ==> IsOpen(s, e.dialog)
  {
    match e
    case DragOver => !s.preview && !DialogOpen(s)
    case DragLeave => !s.preview && !DialogOpen(s)
    case Drop(_, _, _) => !s.preview && !DialogOpen(s)
    case CanvasClick => !s.preview && !DialogOpen(s)
    case ComponentDragStart(id) => !s.preview && !DialogOpen(s) && Rendered(s.components, id)
    case ComponentClick(id) => !s.preview && !DialogOpen(s) && id in Ids(s.components)
    case StyleChange(id, _) =>
      !s.preview && !DialogOpen(s) && s.selected == Some(id) && Rendered(s.components, id)
    case Reset => !s.preview && !DialogOpen(s) && s.components != []
    case PreviewToggle => !DialogOpen(s)
    case Open(d) =>
      !s.preview && !DialogOpen(s)
      && (if d == LoadDialog then s.layouts != [] else s.components != [])
    case Dismiss(d) => IsOpen(s, d)
    case CancelSave => s.showSave
    case CancelLoad => s.showLoad
    case EditLayoutName(_) => s.showSave || s.showExport
    case ChooseLayout(_) => s.showLoad
    case ChooseFormat(_) => s.showExport
    case Save(_) => s.showSave && !IsBlank(s.layoutName)
    case Load => s.showLoad && s.selectedLayout != ""
    case Export(_) => s.showExport
  }

  /** The handler the event runs. A click on a placeholder has no handler of
      its own and reaches the canvas's. */
  function Apply(s: EditorState, e: Event): (r: EditorState)
    ensures !(e.Drop? || e.StyleChange? || e.Reset? || e.Load?) ==> r.components == s.components
    ensures !(e.Save? || e.Load?) ==> r.storage == s.storage && r.layouts == s.layouts
    ensures r.canvasMounted == s.canvasMounted
  {
    match e
    case DragOver => s.(draggingOver := true)
    case DragLeave => s.(draggingOver := false)
    case Drop(at, p, now) => HandleDrop(s, at, p, now)
    case CanvasClick => HandleCanvasClick(s)
    case ComponentDragStart(id) => HandleComponentDragStart(s, id)
    case ComponentClick(id) =>
      if Rendered(s.components, id) then HandleComponentClick(s, id) else HandleCanvasClick(s)
    case StyleChange(id, update) => HandleStyleChange(s, id, update)
    case Reset => HandleReset(s)
    case PreviewToggle => TogglePreview(s)
    case Open(d) =>
      (match d
       case SaveDialog => s.(showSave := true)
       case LoadDialog => s.(showLoad := true)
       case ExportDialog => s.(showExport := true))
    case Dismiss(d) =>
      (match d
       case SaveDialog => s.(showSave := false)
       case LoadDialog => s.(showLoad := false)
       case ExportDialog => s.(showExport := false))
    case CancelSave => s.(layoutName := "", showSave := false)
    case CancelLoad => s.(selectedLayout := "", showLoad := false)
    case EditLayoutName(name) => s.(layoutName := name)
    case ChooseLayout(name) => s.(selectedLayout := name)
    case ChooseFormat(format) => s.(exportFormat := format)
    case Save(savedAt) => HandleSave(s, savedAt)
    case Load => HandleLoad(s)
    case Export(exportedAt) => HandleExport(s, exportedAt).0
  }

  function Step(s: EditorState, e: Event): (r: EditorState)
    ensures !Enabled(s, e) ==> r == s
  {
    if Enabled(s, e) then Apply(s, e) else s
  }

  function Run(s: EditorState, es: seq<Event>): EditorState
    decreases |es|
  {
    if es == [] then s else Run(Step(s, es[0]), es[1..])
  }

  /** The state a session starts from: a fresh editor after its first
      commit, in which the canvas element's callback ref records the element,
      and after its mount effect. */
  function Start(storage: Store): (s: EditorState)
    ensures s.components == [] && s.layouts == storage && s.storage == storage
    ensures !s.preview && s.selected.None? && !DialogOpen(s)
    ensures s.canvasMounted
  {
    Mount(Initial(storage).(canvasMounted := true))
  }

  /** Every entry of an updated store is the saved layout or an old entry. */
  lemma UpsertEntries(store: Store, layout: SavedLayout)
    ensures forall j :: 0 <= j < |Upsert(store, layout)| ==>
      Upsert(store, layout)[j] == layout || Upsert(store, layout)[j] in store
  {
    var i := FindIndex(store, layout.name);
    if i < 0 {
      assert forall j :: 0 <= j < |store| ==> Upsert(store, layout)[j] == store[j];
    }
  }

  predicate StoredIdsUnique(store: Store)
  {
    forall j :: 0 <= j < |store| ==> UniqueIds(store[j].components)
  }

  /** What every reachable state satisfies. */
  predicate Invariant(s: EditorState)
  {
    && (s.preview ==> s.selected.None? && !DialogOpen(s))
    && s.layouts == s.storage
    && UniqueIds(s.components)
    && StoredIdsUnique(s.storage)
    && s.canvasMounted
  }

  /** A drop mints a new id: the id of a created component is not on the
      canvas yet. The ids come from the clock, so this is an assumption on
      the clock, not something the editor checks. */
  predicate FreshDrop(s: EditorState, e: Event)
  {
    e.Drop? && !Dragging(s) ==> IdOf(e.payload.kind, e.now) !in Ids(s.components)
  }

  predicate FreshDrops(s: EditorState, es: seq<Event>)
    decreases |es|
  {
    es == [] || (FreshDrop(s, es[0]) && FreshDrops(Step(s, es[0]), es[1..]))
  }

  lemma StartSatisfiesInvariant(storage: Store)
    requires StoredIdsUnique(storage)
    ensures Invariant(Start(storage))
  {
  }

  lemma DropKeepsInvariant(s: EditorState, at: Position, p: DropPayload, now: nat)
    requires Invariant(s) && FreshDrop(s, Drop(at, p, now))
    ensures Invariant(HandleDrop(s, at, p, now))
  {
    if Dragging(s) {
      MoveComponentsTwice(s.components, s.dragged.value, at, at);
    } else {
      CreateDropKeepsIdsUnique(s, at, p, now);
    }
  }

  lemma StyleChangeKeepsInvariant(s: EditorState, id: string, update: StyleObject)
    requires Invariant(s)
    ensures Invariant(HandleStyleChange(s, id, update))
  {
    var r := HandleStyleChange(s, id, update);
    assert Ids(r.components) == Ids(s.components) by {
      assert r.components == UpdateStyles(s.components, id, update);
    }
    forall i, j | 0 <= i < j < |r.components|
      ensures r.components[i].id != r.components[j].id
    {
      assert r.components[i].id == Ids(r.components)[i];
      assert r.components[j].id == Ids(r.components)[j];
      assert s.components[i].id == Ids(s.components)[i];
      assert s.components[j].id == Ids(s.components)[j];
    }
  }

  lemma SaveKeepsInvariant(s: EditorState, savedAt: string)
    requires Invariant(s)
    ensures Invariant(HandleSave(s, savedAt))
  {
    UpsertEntries(s.storage, SavedLayout(s.layoutName, s.components, savedAt));
  }

  lemma LoadKeepsInvariant(s: EditorState)
    requires Invariant(s)
    ensures Invariant(HandleLoad(s))
  {
    if s.selectedLayout != "" {
      var f := Find(s.layouts, s.selectedLayout);
      if f.Some? {
        var j :| 0 <= j < |s.storage| && s.storage[j] == f.value;
      }
    }
  }

  /** The handlers that leave the canvas and the stores alone. */
  lemma SimpleEventKeepsInvariant(s: EditorState, e: Event)
    requires Invariant(s) && Enabled(s, e)
    requires !e.Drop? && !e.StyleChange? && !e.Save? && !e.Load?
    ensures Invariant(Apply(s, e))
  {
  }

  /** One step keeps the invariant. */
  lemma StepKeepsInvariant(s: EditorState, e: Event)
    requires Invariant(s) && FreshDrop(s, e)
    ensures Invariant(Step(s, e))
  {
    if Enabled(s, e) {
      match e
      case Drop(at, p, now) => DropKeepsInvariant(s, at, p, now);
      case StyleChange(id, update) => StyleChangeKeepsInvariant(s, id, update);
      case Save(savedAt) => SaveKeepsInvariant(s, savedAt);
      case Load => LoadKeepsInvariant(s);
      case _ => SimpleEventKeepsInvariant(s, e);
    }
  }

  /** Every run from a state satisfying the invariant, with fresh ids on its
      drops, keeps it. */
  lemma {:induction false} RunKeepsInvariant(s: EditorState, es: seq<Event>)
    requires Invariant(s) && FreshDrops(s, es)
    ensures Invariant(Run(s, es))
    decreases |es|
  {
    if es != [] {
      StepKeepsInvariant(s, es[0]);
      RunKeepsInvariant(Step(s, es[0]), es[1..]);
    }
  }

  /** In preview mode the canvas is frozen: no event changes the components,
      the selection, the stored layouts or the open dialogs; only the preview
      button does anything, and it returns to editing. */
  lemma PreviewFreezesCanvas(s: EditorState, e: Event)
    requires Invariant(s) && s.preview
    ensures Step(s, e).components == s.components
    ensures Step(s, e).selected.None?
    ensures Step(s, e).storage == s.storage
    ensures !DialogOpen(Step(s, e))
    ensures Step(s, e) != s <==> e.PreviewToggle?
    ensures e.PreviewToggle? ==> !Step(s, e).preview
  {
  }

  /** A whole session in preview mode, ended by leaving it, cannot have
      touched the canvas. */
  lemma {:induction false} PreviewRunFreezesCanvas(s: EditorState, es: seq<Event>)
    requires Invariant(s) && s.preview
    requires forall i :: 0 <= i < |es| ==> !es[i].PreviewToggle?
    ensures Run(s, es) == s
    decreases |es|
  {
    if es != [] {
      PreviewFreezesCanvas(s, es[0]);
      PreviewRunFreezesCanvas(s, es[1..]);
    }
  }
  /** A component of a type the canvas cannot render is drawn as a bare
      placeholder: clicking it reaches the canvas and clears the selection,
      and it can be neither dragged nor styled. */
  lemma PlaceholderHasNoHandlers(s: EditorState, i: nat, update: StyleObject)
    requires Invariant(s) && !s.preview && !DialogOpen(s)
    requires i < |s.components| && s.components[i].kind !in KnownKinds
    ensures Step(s, ComponentClick(s.components[i].id)) == HandleCanvasClick(s)
    ensures Step(s, ComponentDragStart(s.components[i].id)) == s
    ensures Step(s, StyleChange(s.components[i].id, update)) == s
  {
    var cs, id := s.components, s.components[i].id;
    assert Ids(cs)[i] == id;
    assert !Rendered(cs, id) by {
      forall j | 0 <= j < |cs| && cs[j].id == id
        ensures cs[j].kind !in KnownKinds
      {
        assert j == i;
      }
    }
  }

  /** In every session the canvas element is mounted, so an image export of a
      non-empty canvas always captures it. */
  lemma SessionCapturesImages(storage: Store, es: seq<Event>, exportedAt: string)
    requires StoredIdsUnique(storage) && FreshDrops(Start(storage), es)
    ensures var s := Run(Start(storage), es);
      s.components != [] && s.exportFormat == "jpg" ==>
      HandleExport(s, exportedAt).1 == CaptureImage(NameOr(s.layoutName, "ui-layout") + ".jpg")
  {
    StartSatisfiesInvariant(storage);
    RunKeepsInvariant(Start(storage), es);
    var s := Run(Start(storage), es);
    if s.components != [] {
      ExportCaptures(s, exportedAt);
    }
  }
}
