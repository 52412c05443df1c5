/** The component-source export: a module whose exported component renders
    one absolutely positioned block per canvas component. The generated text
    is modelled by its structure (name, positions, elements, style objects);
    the character layout of the template and of `JSON.stringify` is not. */
module ReactExport {
  import opened Values
  import opened Styles
  import opened JsStrings
  import opened Canvas
  import opened StylePass
  import opened Labels
  import opened HtmlExport

  datatype ReactElement =
    | ButtonElement(style: StyleObject, text: string)
    | InputElement(placeholder: string, style: StyleObject)
    | CardElement(style: StyleObject, title: string, content: string)
    | NoElement

  /** One `<div style={{ position: 'absolute', left, top, ... }}>` block. */
  datatype ReactBlock = ReactBlock(left: int, top: int, element: ReactElement)

  datatype ReactModule = ReactModule(name: string, blocks: seq<ReactBlock>)

  const DefaultComponentName: string := "UILayout"

  /** The exported identifier exactly as the generator computes it:
      `layoutName ? layoutName.replace(/\s+/g, '') : 'UILayout'`. A name made
      only of white space passes the truthiness test and strips to nothing. */
  function ComponentNameAsWritten(layoutName: string): string
  {
    if layoutName != "" then StripWhitespace(layoutName) else DefaultComponentName
  }

  /** A layout name of one blank yields an empty identifier, so the module
      would read `export const  = () => {`, which does not parse. */
  lemma ComponentNameAsWrittenCanBeEmpty()
    ensures ComponentNameAsWritten(" ") == ""
  {
    StripWhitespaceFixes(" ");
  }

  /** The identifier with the fallback applied after stripping. */
  function ComponentName(layoutName: string): (r: string)
    ensures r != ""
    ensures forall i :: 0 <= i < |r| ==> !IsSpace(r[i])
  {
    var stripped := StripWhitespace(layoutName);
    if stripped != "" then stripped else DefaultComponentName
  }

  /** The corrected name differs from the written one only on a non-empty
      name made of white space alone; on every other name they agree, and a
      name without white space is used unchanged. */
  lemma ComponentNameCorrection(layoutName: string)
    ensures ComponentName(layoutName) != ComponentNameAsWritten(layoutName)
        <==> layoutName != "" && IsBlank(layoutName)
    ensures layoutName != "" && (forall i :: 0 <= i < |layoutName| ==> !IsSpace(layoutName[i])) ==>
      ComponentName(layoutName) == layoutName
    ensures ComponentNameAsWritten(layoutName) == "" <==> layoutName != "" && IsBlank(layoutName)
  {
    StripWhitespaceFixes(layoutName);
  }

  /** The JSX element for one component; a type the generator does not know
      gets none. */
  function ElementOf(c: Component): (el: ReactElement)
    ensures el.NoElement? <==> c.kind !in KnownKinds
  {
    var style := ReactStyleObject(c.styles);
    if c.kind == "Button" then ButtonElement(style, ButtonText(c.styles))
    else if c.kind == "Input" then InputElement(InputPlaceholder(c.styles), style)
    else if c.kind == "Card" then CardElement(style, CardTitle(c.styles), CardContent(c.styles))
    else NoElement
  }

  function BlockOf(c: Component): ReactBlock
  {
    ReactBlock(c.position.x, c.position.y, ElementOf(c))
  }

  /** `generateReactExport()`, as structure, with the corrected component
      name: it is the name the program writes for every layout name except a
      non-empty blank one. */
  function ModuleOf(layoutName: string, cs: seq<Component>): (m: ReactModule)
    ensures m.name != "" && forall i :: 0 <= i < |m.name| ==> !IsSpace(m.name[i])
    ensures !(layoutName != "" && IsBlank(layoutName)) ==> m.name == ComponentNameAsWritten(layoutName)
    ensures |m.blocks| == |cs|
    ensures forall i :: 0 <= i < |cs| ==>
      && m.blocks[i].left == cs[i].position.x && m.blocks[i].top == cs[i].position.y
      && (m.blocks[i].element.NoElement? <==> cs[i].kind !in KnownKinds)
  {
    ComponentNameCorrection(layoutName);
    ReactModule(ComponentName(layoutName), seq(|cs|, i requires 0 <= i < |cs| => BlockOf(cs[i])))
  }

  /** The style object of a block, if it has an element. */
  function ElementStyle(el: ReactElement): Option<StyleObject>
  {
    match el
    case ButtonElement(style, _) => Some(style)
    case InputElement(_, style) => Some(style)
    case CardElement(style, _, _) => Some(style)
    case NoElement => None
  }

  /** Block i of the component source sits where the opening tag of the
      i-th markup fragment says. */
  lemma ExportsAgreeOnPosition(layoutName: string, cs: seq<Component>, i: nat, rest: string)
    requires i < |cs|
    ensures
      var b := ModuleOf(layoutName, cs).blocks[i];
      ReadPosition(WrapperOpen(cs[i].position) + rest) == Some(Position(b.left, b.top))
  {
    ReadPositionRoundTrip(cs[i].position, rest);
  }

  /** Both exports show the same texts for a component, the markup element
      carries the component's style string, and both leave out the element
      of a type they do not know. */
  lemma ExportsAgreeOnContent(c: Component)
    ensures ElementOf(c).ButtonElement? ==> ElementOf(c).text == ButtonText(c.styles)
    ensures ElementOf(c).InputElement? ==> ElementOf(c).placeholder == InputPlaceholder(c.styles)
    ensures ElementOf(c).CardElement? ==>
      ElementOf(c).title == CardTitle(c.styles) && ElementOf(c).content == CardContent(c.styles)
    ensures ElementOf(c).NoElement? <==> Element(c) == ""
    ensures ElementStyle(ElementOf(c))
         == if c.kind in KnownKinds then Some(ReactStyleObject(c.styles)) else None
    ensures ElementOf(c).ButtonElement? ==>
      Element(c) == "<button style=\"" + StyleString(c.styles) + "\">" + ElementOf(c).text + "</button>"
    ensures ElementOf(c).InputElement? ==>
      Element(c) == "<input type=\"text\" placeholder=\"" + ElementOf(c).placeholder
                    + "\" style=\"" + StyleString(c.styles) + "\" />"
    ensures ElementOf(c).CardElement? ==>
      Element(c) == "<div style=\"" + StyleString(c.styles) + "\">\n            <h3>" + ElementOf(c).title
                    + "</h3>\n            <p>" + ElementOf(c).content + "</p>\n          </div>"
  {
  }
}
