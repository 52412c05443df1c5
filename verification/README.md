# Drag-and-drop UI builder: a Dafny model of the editor core

The application is a page on which a user drags Button, Input and Card
components from a palette onto a canvas. On the canvas the user can:

- move, select and restyle components, and switch to a read-only preview;
- save the canvas under a name in the browser's storage and load it back;
- export it as a layout file, a stand-alone HTML document, a React component
  module, or an image or PDF capture.

Around the editor sit two more pieces that are modelled here:

- a route guard that sends requests for the protected pages to the sign-in
  page when no `auth_token` cookie is present;
- the sign-up form's submit handler.

The model is a set of pure functions over immutable data.

| module | what it holds |
|---|---|
| `Values` | the JavaScript values a style property can hold (string, integer, `null`), their truthiness, and their decimal rendering with its parser |
| `Styles` | a style object as an ordered association list, because `Object.entries` order decides the order of the exported CSS. It has lookup, property assignment, `Object.assign` and the spread `{...a, ...b}` |
| `JsStrings` | `trim`, `replace(/\s+/g, '')` and the camelCase-to-kebab-case rewrite |
| `Canvas` | components, the per-type default styles, id minting, create, move and restyle on the list of components |
| `Persistence` | the list of saved layouts, with find and the replace-or-append update |
| `StylePass` | the style pass both exporters run: the excluded keys, `textColor`, the shadow levels, and the CSS declaration or style-object entry for each remaining key |
| `Labels` | the label texts with their nullish (`=== undefined \|\| === null`) or falsy (`\|\|`) fallbacks |
| `HtmlExport` | the HTML document as text, including reading every position back out of it |
| `ReactExport` | the component module as structure: name, positioned blocks, elements and style objects |
| `Editor` | the editor's state and each event handler as a transition, plus export naming and dispatch |
| `Session` | the page as a stream of user events, each gated the way the page enables its controls, and the invariants every reachable state keeps |
| `Middleware` | the route guard |
| `Signup` | the submit handler's validation, its registration call and the `isSubmitting` flag |

Two behaviours of the code are worth noting:

- The button and card texts fall back on their defaults only for
  `undefined` or `null`. The input placeholder uses `||` instead (line 491
  of `app/components/DragDropEditor.tsx`), so it falls back on any falsy
  value, `""` and `0` included (`Labels.FalsyOr`).
- A component of an unknown type gets no element from either generator.
  The HTML export still writes its empty positioned wrapper.

Parameters stand in for the clock (`Date.now()`, `toISOString()`), the
drop point's coordinates, and the outcome of the registration call.

## Model

| member | source | states |
|---|---|---|
| `Values.IntToStringRoundTrip` | app/components/DragDropEditor.tsx:484 | a coordinate written in decimal into the markup parses back to the same integer, negative ones included |
| `Values.IntToStringInjective` | app/components/DragDropEditor.tsx:484 | two different coordinates are never written as the same text |
| `Values.NatToStringRoundTrip` | app/components/DragDropEditor.tsx:175 | the timestamp digits in a minted id determine the timestamp |
| `Styles.Get` | app/components/DragDropEditor.tsx:488 | reading `styles.key` finds nothing exactly when no entry has that key; a value found is the value of an entry with that key |
| `Styles.GetAt` | app/components/DragDropEditor.tsx:488 | with distinct keys, reading an entry's key gives that entry's value |
| `Styles.PutLookup` | app/components/DragDropEditor.tsx:532 | `acc[key] = value` makes the key read as the value and leaves every other key reading as before |
| `Styles.PutFresh` | app/components/DragDropEditor.tsx:532 | assigning a key the object lacks appends it at the end, so insertion order is kept |
| `Styles.Put` | app/components/DragDropEditor.tsx:532 | assignment keeps the existing keys in their places, and grows the object by one only for a new key |
| `Styles.PutKeepsDistinct` | app/components/DragDropEditor.tsx:532 | assignment never duplicates a key |
| `Styles.AssignLookup` | app/components/DragDropEditor.tsx:170-173 | after copying a source's properties, a key the source has reads as the source's value and any other key reads as the target's |
| `Styles.AssignKeepsDistinct` | app/components/DragDropEditor.tsx:170-173 | copying properties never duplicates a key |
| `Styles.AssignFresh` | app/components/DragDropEditor.tsx:170-173 | copying properties the target lacks appends them in the source's order |
| `Styles.Spread` | app/components/DragDropEditor.tsx:170-173 | over a base with distinct keys, `{...base, ...update}` keeps the base's keys at the front in their order, and an empty update copies the base exactly |
| `Styles.SpreadIntoEmpty` | app/components/DragDropEditor.tsx:171 | spreading an object into `{}` gives the same object, order included |
| `Styles.SpreadFreshKey` | app/components/DragDropEditor.tsx:589 | spreading a one-key update whose key the object lacks appends that property at the end and keeps keys distinct |
| `Styles.SpreadLookup` | app/components/DragDropEditor.tsx:589 | `{...base, ...update}` reads as update's value where update has the key and as base's elsewhere, keeps keys distinct, and keeps base's keys first in their order |
| `Styles.SpreadCommutesOnDisjointKeys` | app/components/DragDropEditor.tsx:586-592 | two style updates on disjoint keys give the same key-to-value map in either order |
| `Styles.SpreadOrderDependsOnUpdateOrder` | app/components/DragDropEditor.tsx:586-592 | for any object with distinct keys and two different keys it lacks, the two one-key updates append their keys in the order they arrive, so the opposite order gives a different object |
| `JsStrings.TrimStart` | app/components/DragDropEditor.tsx:200 | the result is a suffix that does not start with white space, and only white space was dropped |
| `JsStrings.TrimEnd` | app/components/DragDropEditor.tsx:200 | the result is a prefix that does not end with white space, and only white space was dropped |
| `JsStrings.TrimEmptyIffBlank` | app/components/DragDropEditor.tsx:200 | `!layoutName.trim()` holds exactly for names made only of white space, the empty name included |
| `JsStrings.StripWhitespace` | app/components/DragDropEditor.tsx:514 | the result has no white space, and it holds exactly the non-space characters of the input |
| `JsStrings.StripWhitespaceAppend` | app/components/DragDropEditor.tsx:514 | stripping works piece by piece, so the remaining characters keep their order |
| `JsStrings.StripWhitespaceKeepsClean` | app/components/DragDropEditor.tsx:514 | a name without white space is left unchanged |
| `JsStrings.StripWhitespaceEmptyIffBlank` | app/components/DragDropEditor.tsx:514 | a name strips to nothing exactly when it is blank |
| `JsStrings.StripWhitespaceFixes` | app/components/DragDropEditor.tsx:514 | both of the two facts above, for one name |
| `JsStrings.HyphenateCapitals` | app/components/DragDropEditor.tsx:480 | the `-$1` replacement never shortens a key and leaves a key without capitals unchanged |
| `JsStrings.LowerCase` | app/components/DragDropEditor.tsx:480 | `toLowerCase` keeps the length and leaves no capital |
| `JsStrings.KebabCase` | app/components/DragDropEditor.tsx:480 | the CSS name has no capitals, is at least as long as the key, and equals a key that has no capitals |
| `JsStrings.KebabCaseIsRewrite` | app/components/DragDropEditor.tsx:480 | the character-by-character CSS name equals the source's two steps: hyphenate the capitals, then lower-case |
| `JsStrings.KebabCaseRoundTrip` | app/components/DragDropEditor.tsx:480 | for a key without hyphens, turning the CSS name back into camelCase recovers the key |
| `JsStrings.KebabCaseInjective` | app/components/DragDropEditor.tsx:480 | two different hyphen-free keys never get the same CSS name |
| `JsStrings.KebabCaseWithoutHyphen` | app/components/DragDropEditor.tsx:480 | a CSS name without a hyphen is the key itself |
| `JsStrings.KebabCaseAppend` | app/components/DragDropEditor.tsx:480 | the rewrite works piece by piece |
| `JsStrings.KebabCaseOneCapital` | app/components/DragDropEditor.tsx:480 | a single capital between lower-case runs becomes a hyphen followed by the lowered letter |
| `JsStrings.KebabCaseBoxShadow` | app/components/DragDropEditor.tsx:480 | the `boxShadow` property the component module writes is `box-shadow` in CSS |
| `Canvas.ButtonDefaultsDistinct` | app/components/DragDropEditor.tsx:122-138 | the Button defaults name every property once |
| `Canvas.InputDefaultsDistinct` | app/components/DragDropEditor.tsx:139-151 | the Input defaults name every property once |
| `Canvas.CardDefaultsDistinct` | app/components/DragDropEditor.tsx:152-167 | the Card defaults name every property once |
| `Canvas.DefaultStyles` | app/components/DragDropEditor.tsx:121-172 | the defaults for a type have distinct keys, and a type outside Button, Input and Card gets `{}` |
| `Canvas.IdOf` | app/components/DragDropEditor.tsx:175 | a minted id starts with the type and a hyphen and is longer than that prefix |
| `Canvas.IdShape` | app/components/DragDropEditor.tsx:175 | after the type and the hyphen, a minted id holds only decimal digits |
| `Canvas.IdOfInjective` | app/components/DragDropEditor.tsx:175 | ids minted from different types or at different instants differ |
| `Canvas.CreateStylesLookup` | app/components/DragDropEditor.tsx:170-173 | the merged styles are the type's defaults with the payload's keys winning; with no payload styles they are exactly the defaults, and for an unknown type exactly the payload's |
| `Canvas.NewComponent` | app/components/DragDropEditor.tsx:115-180 | a created component has the minted id, the payload's type and the drop point; its library is the payload's or `shadcn` when empty; its styles read as the defaults overridden by the payload's |
| `Canvas.MoveComponents` | app/components/DragDropEditor.tsx:106-110 | moving keeps the list's length, ids and order, sets the position of the components with the id and changes nothing else |
| `Canvas.UpdateStyles` | app/components/DragDropEditor.tsx:586-592 | restyling keeps the list's length, ids, types, positions and libraries, gives each component with the id the styles `{...old, ...update}`, and leaves every other component's styles alone |
| `Canvas.UpdateStylesLookup` | app/components/DragDropEditor.tsx:589 | the restyled component reads as the update where the update has a key and as its old styles elsewhere |
| `Canvas.UpdateStylesCommute` | app/components/DragDropEditor.tsx:586-592 | two restylings on disjoint keys give every component the same key-to-value styles in either order |
| `Canvas.MoveComponentsTwice` | app/components/DragDropEditor.tsx:106-110 | moving keeps ids unique, and a second move of the same id overrides the first |
| `Canvas.AbsentIdIsNoOp` | app/components/DragDropEditor.tsx:106-110 | moving or restyling an id that no component has leaves the list unchanged |
| `Canvas.AppendKeepsIdsUnique` | app/components/DragDropEditor.tsx:182 | appending a component whose id is new keeps ids unique |
| `Persistence.FindIndex` | app/components/DragDropEditor.tsx:211 | `findIndex` returns the first entry with the name, or -1 exactly when none has it |
| `Persistence.Find` | app/components/DragDropEditor.tsx:231 | `find` returns the first stored entry with the name, and nothing exactly when no entry has it |
| `Persistence.Upsert` | app/components/DragDropEditor.tsx:211-219 | saving under a stored name replaces the first entry with that name by the new layout, in place, and changes nothing else; saving under a new name appends the layout at the end |
| `Persistence.UpsertThenFind` | app/components/DragDropEditor.tsx:211-231 | after saving a layout, finding its name gives that layout |
| `Persistence.UpsertKeepsOtherNames` | app/components/DragDropEditor.tsx:211-219 | saving a layout does not change what any other name finds |
| `Persistence.UpsertCount` | app/components/DragDropEditor.tsx:211-219 | saving never duplicates a name: the saved name's count becomes one if it was zero and otherwise stays, and every other name's count is unchanged |
| `Persistence.UpsertTwice` | app/components/DragDropEditor.tsx:211-219 | saving twice under one name is the same as saving only the second time |
| `Persistence.UpsertKeepsNamesDistinct` | app/components/DragDropEditor.tsx:211-219 | saving keeps the names in storage distinct |
| `StylePass.VisibleEntries` | app/components/DragDropEditor.tsx:469 | the filter keeps exactly the entries whose key is not `variant`, `size` or `placeholder` |
| `StylePass.VisibleEntriesAppend` | app/components/DragDropEditor.tsx:469 | the filter works piece by piece, so the kept entries stay in their original order |
| `StylePass.VisibleLookup` | app/components/DragDropEditor.tsx:522 | after the filter an excluded key reads as absent and every other key reads as before |
| `StylePass.VisibleDistinct` | app/components/DragDropEditor.tsx:522 | the filter keeps keys distinct |
| `StylePass.ShadowTablesAgree` | app/components/DragDropEditor.tsx:525-531 | both exporters map exactly the five shadow levels, and to the same literal; any other value is dropped by both |
| `StylePass.DeclarationsAgree` | app/components/DragDropEditor.tsx:470-480 | every HTML declaration is the CSS rendering of the entry the component module writes for the same key, and is empty where the module writes nothing |
| `StylePass.HtmlDeclaration` | app/components/DragDropEditor.tsx:470-480 | an entry's declaration is empty exactly when it is a `shadow` whose value is not one of the five levels |
| `StylePass.DeclarationsOfAppend` | app/components/DragDropEditor.tsx:468-480 | the declarations of a list of entries are those of its parts, in order |
| `StylePass.JoinAppend` | app/components/DragDropEditor.tsx:481 | `join(' ')` of two non-empty lists is the two joins with one separator between them |
| `StylePass.StyleString` | app/components/DragDropEditor.tsx:468-481 | no visible entry gives the empty style string, and a single visible entry gives its declaration alone |
| `StylePass.StyleStringAppend` | app/components/DragDropEditor.tsx:468-481 | the style string of two style objects put together is the first one's, a space, then the second one's, so the CSS keeps the order of the properties |
| `StylePass.KebabCaseKeepsExcludedOut` | app/components/DragDropEditor.tsx:469-480 | a key that passes the filter never becomes an excluded name in CSS |
| `StylePass.ContributionKeepsExcludedOut` | app/components/DragDropEditor.tsx:522-532 | a key that passes the filter never writes an excluded property |
| `StylePass.HtmlDeclarations` | app/components/DragDropEditor.tsx:468-481 | the style string has one declaration for each entry that passes the filter |
| `StylePass.HtmlDeclarationsOmitExcluded` | app/components/DragDropEditor.tsx:468-481 | each declaration is empty exactly where the module writes nothing, and otherwise names a property outside the excluded keys |
| `StylePass.ReactFoldShape` | app/components/DragDropEditor.tsx:523-534 | the reduce only writes distinct keys that the module may emit |
| `StylePass.ReactFoldPlainKey` | app/components/DragDropEditor.tsx:532 | an ordinary key is copied through by the reduce, or its accumulator value is kept |
| `StylePass.ReactFoldColor` | app/components/DragDropEditor.tsx:524 | `color` is taken from `textColor` by the reduce |
| `StylePass.ReactFoldBoxShadow` | app/components/DragDropEditor.tsx:525-531 | `boxShadow` carries the level's literal, set by the reduce |
| `StylePass.ReactStyleObject` | app/components/DragDropEditor.tsx:521-534 | the style object has distinct keys, none excluded and neither `textColor` nor `shadow` |
| `StylePass.ReactStyleObjectPlainKey` | app/components/DragDropEditor.tsx:532 | any other key of the component's styles is copied unchanged |
| `StylePass.ReactStyleObjectColor` | app/components/DragDropEditor.tsx:524 | without its own `color`, the object's `color` is the component's `textColor` |
| `StylePass.ReactStyleObjectBoxShadow` | app/components/DragDropEditor.tsx:525-531 | without its own `boxShadow`, the object's `boxShadow` is the literal of a recognised shadow level and absent otherwise |
| `Labels.NullishOr` | app/components/DragDropEditor.tsx:488 | the fallback shows for a missing key or `null`; any other value, `""` and `0` included, is shown as rendered |
| `Labels.FalsyOr` | app/components/DragDropEditor.tsx:491 | a truthy value is shown as rendered; a missing or falsy value shows the fallback |
| `Labels.ButtonText` | app/components/DragDropEditor.tsx:488 | a button without `buttonText` reads `Button`, and its text is empty exactly when `buttonText` is the empty string |
| `Labels.InputPlaceholder` | app/components/DragDropEditor.tsx:491 | the placeholder is never empty: an input without `placeholder` reads `Input field`, and a non-empty string is shown as written |
| `Labels.NullishAndFalsyAgree` | app/components/DragDropEditor.tsx:488-491 | the button and card labels and the placeholder treat a value differently only on `""` and `0`, which the nullish test shows and the falsy test replaces |
| `Labels.ButtonDefaultsLabel` | app/components/DragDropEditor.tsx:137 | the Button defaults' `buttonText` is the export's fallback text |
| `Labels.InputDefaultsLabel` | app/components/DragDropEditor.tsx:140 | the Input defaults' placeholder is the export's fallback text |
| `Labels.CardDefaultsTitle` | app/components/DragDropEditor.tsx:163 | the Card defaults' title is the export's fallback title |
| `Labels.CardDefaultsContent` | app/components/DragDropEditor.tsx:164 | the Card defaults' content is the export's fallback content |
| `Labels.DefaultLabels` | app/components/DragDropEditor.tsx:121-168 | a component dropped without overrides shows the same label whether it is read from its styles or falls back |
| `Labels.NewComponentLabel` | app/components/DragDropEditor.tsx:170-173 | a dropped component's label comes from the payload when the payload sets the key, and otherwise from the type's defaults |
| `HtmlExport.Title` | app/components/DragDropEditor.tsx:455 | the title is the layout name, or `UI Layout` when the name is empty |
| `HtmlExport.Element` | app/components/DragDropEditor.tsx:486-499 | a component gets an element exactly when its type is Button, Input or Card (its contents are stated by `ReactExport.ExportsAgreeOnContent`) |
| `HtmlExport.Document` | app/components/DragDropEditor.tsx:449-509 | the document starts with the head carrying the title and ends with the fixed tail; an empty canvas gives the head and the tail alone |
| `HtmlExport.BodyAppend` | app/components/DragDropEditor.tsx:466-502 | the body of a canvas is the bodies of its parts, in order |
| `HtmlExport.BodySingle` | app/components/DragDropEditor.tsx:484-501 | the body of a one-component canvas is that component's fragment |
| `HtmlExport.BodyHasFragment` | app/components/DragDropEditor.tsx:466-502 | the i-th component's fragment follows the fragments of the components before it |
| `HtmlExport.ReadNumberOf` | app/components/DragDropEditor.tsx:484 | a written coordinate followed by a non-digit is read back whole |
| `HtmlExport.ReadPositionRoundTrip` | app/components/DragDropEditor.tsx:484 | reading a fragment's opening tag gives back the component's drop point exactly, whatever follows it |
| `HtmlExport.DocumentLayout` | app/components/DragDropEditor.tsx:449-509 | the document is the head, the earlier fragments, then the i-th component's opening tag, so every position can be read back out of the document |
| `ReactExport.ComponentNameAsWrittenCanBeEmpty` | app/components/DragDropEditor.tsx:514 | the name as computed in the source is empty for the layout name `" "` |
| `ReactExport.ComponentName` | app/components/DragDropEditor.tsx:514 | the corrected component name is never empty and holds no white space |
| `ReactExport.ComponentNameCorrection` | app/components/DragDropEditor.tsx:571 | the corrected name differs from the name as written exactly for a non-empty blank layout name, which is exactly when the written name is empty; a name without white space is used as typed |
| `ReactExport.ElementOf` | app/components/DragDropEditor.tsx:543-562 | a component gets no element exactly when its type is not Button, Input or Card |
| `ReactExport.ModuleOf` | app/components/DragDropEditor.tsx:511-575 | the module is named with a non-empty name free of white space, which is the name the code writes for every layout name but a non-empty blank one; it has one block per component, at the component's position, with no element exactly for an unknown type |
| `ReactExport.ExportsAgreeOnPosition` | app/components/DragDropEditor.tsx:536-541 | block i of the module sits at the position read back from the i-th HTML fragment |
| `ReactExport.ExportsAgreeOnContent` | app/components/DragDropEditor.tsx:486-562 | both exports leave out the element of an unknown type; the HTML button, input and card carry exactly the style string of the component and the same label texts as the React element (button text, placeholder, card title and content), and the React style object is the style pass's |
| `Editor.Mount` | app/components/DragDropEditor.tsx:82-85 | on mount the in-memory layouts become the stored ones and nothing else changes |
| `Editor.Initial` | app/components/DragDropEditor.tsx:66-79 | a fresh editor has an empty canvas, no selection or drag, every dialog closed, design mode, no layouts in memory, JSON as the export format, and no canvas element yet |
| `Editor.HandleDrop` | app/components/DragDropEditor.tsx:96-183 | a drop during a drag moves the dragged component and ends the drag; any other drop appends the new component after the existing ones; the drop indicator is cleared either way |
| `Editor.MoveDropKeepsShape` | app/components/DragDropEditor.tsx:105-113 | a move drop keeps the canvas's length, ids and order, changes only the dragged component's position and creates nothing |
| `Editor.CreateDropKeepsIdsUnique` | app/components/DragDropEditor.tsx:175-182 | a create drop with a fresh timestamp keeps ids unique |
| `Editor.HandleComponentDragStart` | app/components/DragDropEditor.tsx:185-191 | starting to drag a component records its id and changes nothing else |
| `Editor.HandleReset` | app/components/DragDropEditor.tsx:194-197 | reset empties the canvas and the selection and changes nothing else |
| `Editor.HandleComponentClick` | app/components/DragDropEditor.tsx:577-580 | clicking a component selects it and changes nothing else |
| `Editor.HandleCanvasClick` | app/components/DragDropEditor.tsx:582-584 | clicking the canvas clears the selection and changes nothing else |
| `Editor.TogglePreview` | app/components/DragDropEditor.tsx:971-976 | the toggle flips preview mode; entering preview clears the selection, and leaving it keeps the selection |
| `Editor.HandleStyleChange` | app/components/DragDropEditor.tsx:586-592 | a style change touches only the components list, keeps its length, gives the component with the id the styles `{...old, ...update}` with its other fields kept, and leaves every component with another id unchanged |
| `Editor.HandleSave` | app/components/DragDropEditor.tsx:199-226 | a blank name saves nothing; otherwise the canvas is stored under the name in both storage and memory, the dialog closes and the name field is cleared |
| `Editor.HandleLoad` | app/components/DragDropEditor.tsx:228-238 | no selection does nothing; a selected name that is stored replaces the canvas and clears the selection; the dialog closes either way |
| `Editor.SaveThenLoad` | app/components/DragDropEditor.tsx:199-238 | saving under a name and later loading that name brings the saved canvas back |
| `Editor.HandleExport` | app/components/DragDropEditor.tsx:240-335 | an empty canvas exports nothing and leaves the state as it is; otherwise the export dialog closes and nothing else in the state changes |
| `Editor.ExportActionFor` | app/components/DragDropEditor.tsx:247-332 | JPG and PDF capture exactly when the canvas is mounted and otherwise do nothing; every other format downloads a file; for every offered format a non-empty layout name begins the file name |
| `Editor.ExportDispatchDistinguishesFormats` | app/components/DragDropEditor.tsx:247-315 | with the canvas mounted, two different offered formats never produce the same action |
| `Editor.ExportLayoutFile` | app/components/DragDropEditor.tsx:248-267 | the JSON export downloads `<name or ui-layout>.json` holding the name or `Untitled Layout`, the components and the export time |
| `Editor.ExportMarkupFile` | app/components/DragDropEditor.tsx:269-284 | the HTML export downloads `<name or ui-layout>.html` holding the generated document |
| `Editor.ExportComponentSource` | app/components/DragDropEditor.tsx:286-301 | the React export downloads `<name or UILayout>.jsx`; the file name keeps the name as typed, the component's name is non-empty and free of white space, and it is the name the code writes unless the layout name is non-empty and blank |
| `Editor.ExportCaptures` | app/components/DragDropEditor.tsx:303-315 | JPG and PDF exports capture `<name or ui-layout>.jpg` or `.pdf` only when the canvas element is mounted, and otherwise do nothing |
| `Editor.ExportFallback` | app/components/DragDropEditor.tsx:317-331 | any other format downloads the bare component list as `layout.json`, ignoring the layout name |
| `Session.Step` | app/components/DragDropEditor.tsx:909-914 | an event the page does not offer in the current state leaves the state unchanged |
| `Session.Enabled` | app/components/DragDropEditor.tsx:893-914 | in preview only the preview button is offered; an open dialog offers only dialog controls, and each of save, load, export, their cancels, the layout and format choices and dismissal needs its own dialog open; dragging and restyling are offered only for a component the canvas renders with its type's element |
| `Session.Apply` | app/components/DragDropEditor.tsx:577-592 | only drops, restyling, reset and load change the canvas; only save and load change the stored layouts; no event unmounts the canvas |
| `Session.PlaceholderHasNoHandlers` | app/components/DragDropEditor.tsx:893-914 | a component of an unknown type is shown as a placeholder without handlers: dragging or restyling it does nothing, and clicking it is a click on the canvas |
| `Session.Start` | app/components/DragDropEditor.tsx:66-85 | a session starts in edit mode with an empty canvas, no selection, no open dialog, the stored layouts loaded, and the canvas element recorded by its ref (line 907) |
| `Session.StartSatisfiesInvariant` | app/components/DragDropEditor.tsx:66-85 | the starting state satisfies the invariant: no selection or dialog in preview, memory matches storage, the canvas element is mounted, and ids are unique on the canvas and in every stored layout |
| `Session.DropKeepsInvariant` | app/components/DragDropEditor.tsx:96-183 | a drop keeps the invariant when a created component's id is fresh |
| `Session.StyleChangeKeepsInvariant` | app/components/DragDropEditor.tsx:586-592 | a style change keeps the invariant |
| `Session.SaveKeepsInvariant` | app/components/DragDropEditor.tsx:199-226 | a save keeps the invariant, with both copies of the list updated together |
| `Session.LoadKeepsInvariant` | app/components/DragDropEditor.tsx:228-238 | a load keeps the invariant, because a loaded canvas was stored with unique ids |
| `Session.SimpleEventKeepsInvariant` | app/components/DragDropEditor.tsx:971-976 | clicks, drag start, reset, the preview toggle and dialog events keep the invariant |
| `Session.StepKeepsInvariant` | app/components/DragDropEditor.tsx:909-914 | every single step keeps the invariant |
| `Session.RunKeepsInvariant` | app/components/DragDropEditor.tsx:66-79 | every run of events with fresh drop ids keeps the invariant |
| `Session.PreviewFreezesCanvas` | app/components/DragDropEditor.tsx:630-631 | in preview no event changes the canvas, the selection, storage or the dialogs; only the preview button changes the state, and it returns to editing |
| `Session.PreviewRunFreezesCanvas` | app/components/DragDropEditor.tsx:911-914 | a run of events in preview that does not press the preview button leaves the state exactly as it was |
| `Session.SessionCapturesImages` | app/components/DragDropEditor.tsx:303-315 | in every reachable session, a JPG export of a non-empty canvas captures the image, because the canvas element is mounted from the first commit on |
| `Middleware.AnyPrefix` | middleware.ts:12 | a path is protected exactly when some protected route is a prefix of it |
| `Middleware.Guard` | middleware.ts:7-33 | a redirect always goes to `/signin` with the requested path as `callbackUrl` |
| `Middleware.GuardRedirectsIff` | middleware.ts:5-33 | a request is redirected exactly when its path starts with `/createui`, `/profile` or `/layouts` and it has no token or an empty one |
| `Middleware.GuardPassesOtherPaths` | middleware.ts:14-32 | every other path passes, whatever the cookie holds |
| `Middleware.GuardProtectsByPrefix` | middleware.ts:12 | a raw prefix test: anything beginning with a protected route, such as `/profileX`, is protected, and an empty token counts as none |
| `Middleware.GuardIgnoresTokenContents` | middleware.ts:26-29 | any non-empty token lets every request through |
| `Signup.Utf16Length` | app/signup/page.tsx:47 | `password.length` counts between one and two code units per character |
| `Signup.FirstFailure` | app/signup/page.tsx:39-53 | the handler returns early exactly when some check fails, and the check it stops on is one that fails |
| `Signup.CheckOrderIrrelevant` | app/signup/page.tsx:39-53 | any order of the four checks rejects the same forms |
| `Signup.ValidIff` | app/signup/page.tsx:39-53 | a form passes exactly when all four fields are filled in, the passwords are equal and at least six code units long, and the terms are accepted |
| `Signup.HandleSubmit` | app/signup/page.tsx:35-69 | registration is attempted exactly for a valid form, with its name, email and password; `isSubmitting` is written only then; the page navigates to `/createui` exactly when registration resolves to success |
| `Signup.SubmittingIsReset` | app/signup/page.tsx:55-68 | `isSubmitting` always ends lowered after a registration attempt, whether it succeeds, fails or throws, and is untouched by a rejected form |
| `Signup.FailingCheckBlocks` | app/signup/page.tsx:39-53 | a form failing any one check never reaches registration and never sets `isSubmitting` |

## Left out

- Image and PDF capture (`exportAsImage`, `exportAsPDF`): they render the canvas with third-party libraries. They are modelled only as a capture action with its file name.
- Blob creation, object URLs and the temporary download link: these are browser plumbing. An export is modelled as the file name, MIME type and payload it downloads.
- JSON text: `JSON.parse` and `JSON.stringify` of the layouts, the drag payload and the exported files are not modelled. Storage is a list of saved layouts, and a payload is its structured value.
- React module text: the template's whitespace and the `JSON.stringify(styleObject, null, 2)` text are not modelled. The module is modelled as its name, blocks, elements and style objects, while the HTML document is modelled as text.
- Clock: `Date.now()` and `toISOString()` are inputs.
- Fresh ids: that two drops never share a timestamp is an assumption, `Session.FreshDrop`. The editor itself does not check it.
- Coordinates: `getBoundingClientRect` arithmetic happens in floating point. Coordinates are integers here, and the drop point is an input.
- Canvas rendering: `renderComponent`, the shadcn/MUI/Ant Design adapters, the opacity and hover classes, and the style editor panel's internals are not modelled. A style edit is the update object it passes to `handleStyleChange`.
- Style values: booleans and fractional numbers are not modelled. A value is a string, an integer or `null`, and an absent key stands for `undefined`.
- Integer-like keys: JavaScript lists integer-like property names before the others. Keys here keep pure insertion order, which agrees for every key the editor uses.
- Case mapping: `toLowerCase` and the `[A-Z]` class are modelled on ASCII letters only.
- `JsStrings.IsSpace`: follows the ECMAScript white-space and line-terminator set; Unicode category Zs beyond the listed characters is not re-derived.
- Reset confirmation: the Reset button's confirmation dialog is not modelled. The `Reset` event is the confirmation.
- Dialog closing: closing a dialog by Escape or by clicking outside is the `Dismiss` event. The dialogs are modal, so nothing behind an open dialog is enabled.
- Route matcher: the matcher configuration, URL construction with the request origin, and console logging in the guard are not modelled.
- Sign-up page: its mount effects (`clearError`, redirecting a signed-in user) and the registration call's internals are not modelled. The registration outcome is an input.
- `ReactExport.ModuleOf`: names the component with the corrected name. For a non-empty blank layout name the code writes the empty name instead (see Findings); for every other layout name the two agree.
- `Editor.ExportComponentSource`: the downloaded module carries the corrected component name, as in `ReactExport.ModuleOf`, so it differs from what the code writes exactly for a non-empty blank layout name.
- `Labels.DefaultLabels`: covers the label keys of each type's own defaults only. It does not cover a label key that a payload sets on a type it does not belong to.
- `Signup.Utf16Length`: counts a character as two code units when its code point is at or above U+10000. Lone surrogates cannot occur in Dafny strings.

## Findings

| source | as written | input that shows it | evidently intended | confidence | as-written member | corrected member |
|---|---|---|---|---|---|---|
| app/components/DragDropEditor.tsx:514 | the component name is `layoutName ? layoutName.replace(/\s+/g, '') : 'UILayout'`, which tests the name for emptiness before stripping white space (line 571 repeats it) | layout name `" "` gives the module `export const  = () => {` and `export default ;`, which do not parse | fall back to `UILayout` whenever the stripped name is empty | not executed | `ReactExport.ComponentNameAsWrittenCanBeEmpty` | `ReactExport.ComponentNameCorrection` |
