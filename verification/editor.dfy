/** The editor's state and its event handlers, each a pure transition from
    one state to the next. */
module Editor {
  import opened Values
  import opened Styles
  import opened JsStrings
  import opened Canvas
  import opened Persistence
  import opened HtmlExport
  import opened ReactExport

  /** The editor's state. `storage` is the `savedLayouts` entry of the
      browser's storage; `layouts` is the copy the editor keeps in memory. */
  datatype EditorState = EditorState(
    components: seq<Component>,
    draggingOver: bool,
    selected: Option<string>,
    showSave: bool,
    showExport: bool,
    showLoad: bool,
    layoutName: string,
    dragged: Option<string>,
    preview: bool,
    layouts: Store,
    storage: Store,
    selectedLayout: string,
    exportFormat: string,
    canvasMounted: bool)

  /** The state of a freshly mounted editor over a given storage: an empty
      canvas, nothing selected or dragged, every dialog closed, design mode,
      no layouts read yet, and JSON as the export format. */
  function Initial(storage: Store): (r: EditorState)
    ensures r.components == [] && r.selected.None? && r.dragged.None?
    ensures !r.showSave && !r.showExport && !r.showLoad && !r.preview && !r.draggingOver
    ensures r.layoutName == "" && r.selectedLayout == "" && r.exportFormat == "json"
    ensures r.layouts == [] && r.storage == storage && !r.canvasMounted
  {
    EditorState([], false, None, false, false, false, "", None, false, [], storage, "", "json", false)
  }

  /** The mount effect: the in-memory list is read from storage. */
  function Mount(s: EditorState): (r: EditorState)
    ensures r.layouts == s.storage
    ensures r == s.(layouts := s.storage)
  {
    s.(layouts := s.storage)
  }

  /** `if (draggedComponentId)`: a drag is in progress only for a non-empty id. */
  predicate Dragging(s: EditorState)
  {
    s.dragged.Some? && s.dragged.value != ""
  }

  /** `handleDrop`: move the dragged component, or create one from the
      palette payload and append it; the drop indicator is cleared either way. */
  function HandleDrop(s: EditorState, at: Position, p: DropPayload, now: nat): (r: EditorState)
    ensures !r.draggingOver
    ensures Dragging(s) ==> r == s.(components := MoveComponents(s.components, s.dragged.value, at),
                                    dragged := None, draggingOver := false)
    ensures !Dragging(s) ==>
      && r == s.(components := s.components + [NewComponent(p, at, now)], draggingOver := false)
      && |r.components| == |s.components| + 1
      && r.components[..|s.components|] == s.components
      && r.components[|s.components|] == NewComponent(p, at, now)
  {
    var s' := s.(draggingOver := false);
    if Dragging(s) then
      s'.(components := MoveComponents(s.components, s.dragged.value, at), dragged := None)
    else
      var r := s'.(components := s.components + [NewComponent(p, at, now)]);
      assert r.components[..|s.components|] == s.components;
      r
  }

  /** A move drop keeps the canvas's length and order, changes only the
      dragged component's position, creates nothing, and ends the drag. */
  lemma MoveDropKeepsShape(s: EditorState, at: Position, p: DropPayload, now: nat)
    requires Dragging(s)
    ensures var r := HandleDrop(s, at, p, now);
      && |r.components| == |s.components|
      && Ids(r.components) == Ids(s.components)
      && r.dragged.None?
      && (forall i :: 0 <= i < |s.components| ==>
            && r.components[i].id == s.components[i].id
            && r.components[i].kind == s.components[i].kind
            && r.components[i].styles == s.components[i].styles
            && r.components[i].library == s.components[i].library
            && r.components[i].position
               == if s.components[i].id == s.dragged.value then at else s.components[i].position)
  {
    var r := HandleDrop(s, at, p, now);
    forall i | 0 <= i < |s.components|
      ensures r.components[i].id == s.components[i].id
    {
      assert Ids(r.components)[i] == Ids(s.components)[i];
    }
  }

  /** A create drop with a fresh id keeps ids unique. */
  lemma CreateDropKeepsIdsUnique(s: EditorState, at: Position, p: DropPayload, now: nat)
    requires !Dragging(s) && UniqueIds(s.components)
    requires IdOf(p.kind, now) !in Ids(s.components)
    ensures UniqueIds(HandleDrop(s, at, p, now).components)
  {
    AppendKeepsIdsUnique(s.components, NewComponent(p, at, now));
  }

  function HandleComponentDragStart(s: EditorState, id: string): (r: EditorState)
    ensures r.dragged == Some(id) && r.components == s.components
    ensures r.(dragged := s.dragged) == s
  {
    s.(dragged := Some(id))
  }

  function HandleReset(s: EditorState): (r: EditorState)
    ensures r.components == [] && r.selected.None?
    ensures r.(components := s.components, selected := s.selected) == s
  {
    s.(components := [], selected := None)
  }

  function HandleComponentClick(s: EditorState, id: string): (r: EditorState)
    ensures r.selected == Some(id) && r.(selected := s.selected) == s
  {
    s.(selected := Some(id))
  }

  function HandleCanvasClick(s: EditorState): (r: EditorState)
    ensures r.selected.None? && r.(selected := s.selected) == s
  {
    s.(selected := None)
  }

  /** The preview button: flip the mode, and drop the selection when
      entering preview. */
  function TogglePreview(s: EditorState): (r: EditorState)
    ensures r.preview == !s.preview
    ensures r.preview ==> r.selected.None?
    ensures !r.preview ==> r.selected == s.selected
    ensures r.(preview := s.preview, selected := s.selected) == s
  {
    if !s.preview then s.(preview := true, selected := None) else s.(preview := false)
  }

  function HandleStyleChange(s: EditorState, id: string, update: StyleObject): (r: EditorState)
    ensures r.(components := s.components) == s
    ensures |r.components| == |s.components|
    ensures forall i :: 0 <= i < |s.components| && s.components[i].id != id ==>
      r.components[i] == s.components[i]
    ensures forall i :: 0 <= i < |s.components| && s.components[i].id == id ==>
      r.components[i] == s.components[i].(styles := Spread(s.components[i].styles, update))
  {
    var r := s.(components := UpdateStyles(s.components, id, update));
    assert forall i :: 0 <= i < |s.components| && s.components[i].id != id ==>
      r.components[i].id == Ids(r.components)[i] == Ids(s.components)[i] == s.components[i].id;
    r
  }

  /** `handleSave`: a blank name saves nothing; otherwise the current canvas
      is stored under the name (replacing an entry of that name in place),
      both copies of the list are updated, the dialog closes and the name
      field is cleared. */
  function HandleSave(s: EditorState, savedAt: string): (r: EditorState)
    ensures IsBlank(s.layoutName) ==> r == s
    ensures !IsBlank(s.layoutName) ==>
      var updated := Upsert(s.storage, SavedLayout(s.layoutName, s.components, savedAt));
      r == s.(storage := updated, layouts := updated, showSave := false, layoutName := "")
  {
    TrimEmptyIffBlank(s.layoutName);
    if Trim(s.layoutName) == "" then s
    else
      var updated := Upsert(s.storage, SavedLayout(s.layoutName, s.components, savedAt));
      s.(storage := updated, layouts := updated, showSave := false, layoutName := "")
  }

  /** `handleLoad`: an empty selection does nothing; otherwise the dialog
      closes and, if the in-memory list holds the name, its components
      replace the canvas and the selection is cleared. */
  function HandleLoad(s: EditorState): (r: EditorState)
    ensures s.selectedLayout == "" ==> r == s
    ensures s.selectedLayout != "" && HasName(s.layouts, s.selectedLayout) ==>
      && r.components == Find(s.layouts, s.selectedLayout).value.components
      && r.selected.None? && !r.showLoad
      && r.(components := s.components, selected := s.selected, showLoad := s.showLoad) == s
    ensures s.selectedLayout != "" && !HasName(s.layouts, s.selectedLayout) ==>
      r == s.(showLoad := false)
  {
    if s.selectedLayout == "" then s
    else
      match Find(s.layouts, s.selectedLayout)
      case Some(layout) => s.(components := layout.components, selected := None, showLoad := false)
      case None => s.(showLoad := false)
  }

  /** Saving the canvas under a name and later loading that name brings the
      saved canvas back, whatever happened to the canvas in between, as long
      as the stored list was not changed. */
  lemma SaveThenLoad(s: EditorState, savedAt: string, later: EditorState)
    requires !IsBlank(s.layoutName)
    requires later.layouts == HandleSave(s, savedAt).layouts
    requires later.selectedLayout == s.layoutName
    ensures HandleLoad(later).components == s.components
    ensures HandleLoad(later).selected.None?
  {
    assert s.layoutName != "";
    UpsertThenFind(s.storage, SavedLayout(s.layoutName, s.components, savedAt));
  }

  /** What an export hands to the browser. */
  datatype ExportPayload =
    | LayoutJson(name: string, components: seq<Component>, exportedAt: string)
    | ComponentsJson(components: seq<Component>)
    | Markup(text: string)
    | ComponentSource(source: ReactModule)

  datatype ExportAction =
    | NoAction
    | Download(fileName: string, mimeType: string, payload: ExportPayload)
    | CaptureImage(fileName: string)
    | CapturePdf(fileName: string)

  /** `${layoutName || fallback}`. */
  function NameOr(layoutName: string, fallback: string): (r: string)
    ensures layoutName != "" ==> r == layoutName
    ensures layoutName == "" ==> r == fallback
  {
    if layoutName != "" then layoutName else fallback
  }

  /** The formats the export dialog offers. */
  const ExportFormats: set<string> := {"json", "html", "react", "jpg", "pdf"}

  /** The action `handleExport` performs for the chosen format: the two
      capture formats capture exactly when the canvas is mounted and do
      nothing otherwise, every other format downloads a file, and for every
      offered format the file is named after a non-empty layout name. */
  function ExportActionFor(s: EditorState, exportedAt: string): (r: ExportAction)
    ensures r.NoAction? <==> s.exportFormat in {"jpg", "pdf"} && !s.canvasMounted
    ensures r.CaptureImage? <==> s.exportFormat == "jpg" && s.canvasMounted
    ensures r.CapturePdf? <==> s.exportFormat == "pdf" && s.canvasMounted
    ensures r.Download? <==> s.exportFormat !in {"jpg", "pdf"}
    ensures !r.NoAction? && s.exportFormat in ExportFormats && s.layoutName != "" ==>
      s.layoutName <= r.fileName
  {
    var base := NameOr(s.layoutName, "ui-layout");
    match s.exportFormat
    case "json" =>
      Download(base + ".json", "application/json",
               LayoutJson(NameOr(s.layoutName, "Untitled Layout"), s.components, exportedAt))
    case "html" =>
      Download(base + ".html", "text/html", Markup(Document(s.layoutName, s.components)))
    case "react" =>
      Download(NameOr(s.layoutName, "UILayout") + ".jsx", "text/javascript",
               ComponentSource(ModuleOf(s.layoutName, s.components)))
    case "jpg" => if s.canvasMounted then CaptureImage(base + ".jpg") else NoAction
    case "pdf" => if s.canvasMounted then CapturePdf(base + ".pdf") else NoAction
    case _ => Download("layout.json", "application/json", ComponentsJson(s.components))
  }

  /** `handleExport`: nothing at all on an empty canvas; otherwise the
      format's action, and the export dialog closes. */
  function HandleExport(s: EditorState, exportedAt: string): (r: (EditorState, ExportAction))
    ensures s.components == [] ==> r == (s, NoAction)
    ensures s.components != [] ==> r.0 == s.(showExport := false)
  {
    if |s.components| == 0 then (s, NoAction)
    else (s.(showExport := false), ExportActionFor(s, exportedAt))
  }

  /** The layout file: named after the layout (or `ui-layout`), holding the
      name (or `Untitled Layout`), the components and the export time. */
  lemma ExportLayoutFile(s: EditorState, exportedAt: string)
    requires s.components != [] && s.exportFormat == "json"
    ensures HandleExport(s, exportedAt).1
         == Download(NameOr(s.layoutName, "ui-layout") + ".json", "application/json",
                     LayoutJson(NameOr(s.layoutName, "Untitled Layout"), s.components, exportedAt))
  {
  }

  /** The markup file: named after the layout (or `ui-layout`), holding the
      generated document. */
  lemma ExportMarkupFile(s: EditorState, exportedAt: string)
    requires s.components != [] && s.exportFormat == "html"
    ensures HandleExport(s, exportedAt).1
         == Download(NameOr(s.layoutName, "ui-layout") + ".html", "text/html",
                     Markup(Document(s.layoutName, s.components)))
  {
  }

  /** The component-source download keeps the layout name as typed in its
      file name but names the component with white space removed. */
  lemma ExportComponentSource(s: EditorState, exportedAt: string)
    requires s.components != [] && s.exportFormat == "react"
    ensures HandleExport(s, exportedAt).1
         == Download(NameOr(s.layoutName, "UILayout") + ".jsx", "text/javascript",
                     ComponentSource(ModuleOf(s.layoutName, s.components)))
    ensures HandleExport(s, exportedAt).1.payload.source.name != ""
    ensures forall i :: 0 <= i < |HandleExport(s, exportedAt).1.payload.source.name| ==>
      !IsSpace(HandleExport(s, exportedAt).1.payload.source.name[i])
    ensures !(s.layoutName != "" && IsBlank(s.layoutName)) ==>
      HandleExport(s, exportedAt).1.payload.source.name == ComponentNameAsWritten(s.layoutName)
  {
  }

  /** Image and document captures happen only when the canvas element is
      mounted; otherwise the export does nothing but close the dialog. */
  lemma ExportCaptures(s: EditorState, exportedAt: string)
    requires s.components != []
    ensures s.exportFormat == "jpg" ==>
      HandleExport(s, exportedAt).1
      == if s.canvasMounted then CaptureImage(NameOr(s.layoutName, "ui-layout") + ".jpg") else NoAction
    ensures s.exportFormat == "pdf" ==>
      HandleExport(s, exportedAt).1
      == if s.canvasMounted then CapturePdf(NameOr(s.layoutName, "ui-layout") + ".pdf") else NoAction
  {
    if s.exportFormat == "jpg" {
      assert s.exportFormat != "pdf";
    }
  }

  /** Different offered formats never produce the same action: the mime
      type tells the three downloads apart, and the capture kind the two
      captures. */
  lemma ExportDispatchDistinguishesFormats(s: EditorState, format: string, exportedAt: string)
    requires s.canvasMounted
    requires s.exportFormat in ExportFormats && format in ExportFormats
    requires ExportActionFor(s, exportedAt) == ExportActionFor(s.(exportFormat := format), exportedAt)
    ensures s.exportFormat == format
  {
    var t := s.(exportFormat := format);
    var a, b := ExportActionFor(s, exportedAt), ExportActionFor(t, exportedAt);
    if a.Download? {
      assert a.mimeType == b.mimeType;
    }
  }

  /** Any other format falls back to the bare component list in
      `layout.json`, ignoring the layout name. */
  lemma ExportFallback(s: EditorState, exportedAt: string)
    requires s.components != []
    requires s.exportFormat !in {"json", "html", "react", "jpg", "pdf"}
    ensures HandleExport(s, exportedAt).1
         == Download("layout.json", "application/json", ComponentsJson(s.components))
  {
  }
}
