/** The stand-alone markup document of the HTML export: a fixed head, one
    absolutely positioned wrapper per component in canvas order, and a fixed
    tail. */
module HtmlExport {
  import opened Values
  import opened Styles
  import opened Canvas
  import opened StylePass
  import opened Labels

  /** `layoutName || 'UI Layout'`. */
  function Title(layoutName: string): (t: string)
    ensures layoutName != "" ==> t == layoutName
    ensures layoutName == "" ==> t == "UI Layout"
  {
    if layoutName != "" then layoutName else "UI Layout"
  }

  /** The document up to the title, and from the title to the container's
      opening tag, as fixed lines. */
  const HeadLines: seq<string> := [
    "<!DOCTYPE html>\n",
    "<html lang=\"en\">\n",
    "<head>\n",
    "  <meta charset=\"UTF-8\">\n",
    "  <meta name=\"viewport\" content=\"width=device-width, initial-scale=1.0\">\n",
    "  <title>"]

  const StyleLines: seq<string> := [
    "</title>\n",
    "  <style>\n",
    "    body { margin: 0; font-family: sans-serif; }\n",
    "    .layout-container { position: relative; width: 100%; height: 100vh; }\n",
    "    .component { position: absolute; transform: translate(-50%, -50%); }\n",
    "  </style>\n",
    "</head>\n",
    "<body>\n",
    "  <div class=\"layout-container\">\n"]

  function Head(title: string): string
  {
    Concat(HeadLines) + title + Concat(StyleLines)
  }

  const Tail: string := "  </div>\n</body>\n</html>"

  const WrapperLeft: string := "    <div class=\"component\" style=\"left: "
  const WrapperTop: string := "px; top: "
  const WrapperEnd: string := "px;\">"
  const WrapperClose: string := "</div>\n"

  /** The opening tag that pins a component at its drop point. */
  function WrapperOpen(p: Position): string
  {
    WrapperLeft + IntToString(p.x) + WrapperTop + IntToString(p.y) + WrapperEnd
  }

  /** The element for one component; a type the generator does not know gets
      no element, only the empty wrapper. */
  function Element(c: Component): (r: string)
    ensures r == "" <==> c.kind !in KnownKinds
  {
    var ss := StyleString(c.styles);
    if c.kind == "Button" then
      "<button style=\"" + ss + "\">" + ButtonText(c.styles) + "</button>"
    else if c.kind == "Input" then
      "<input type=\"text\" placeholder=\"" + InputPlaceholder(c.styles) + "\" style=\"" + ss + "\" />"
    else if c.kind == "Card" then
      "<div style=\"" + ss + "\">\n            <h3>" + CardTitle(c.styles)
      + "</h3>\n            <p>" + CardContent(c.styles) + "</p>\n          </div>"
    else ""
  }

  function Fragment(c: Component): string
  {
    WrapperOpen(c.position) + (Element(c) + WrapperClose)
  }

  /** The concatenation of `parts`, in order. */
  function Concat(parts: seq<string>): string
  {
    if parts == [] then "" else Concat(parts[..|parts| - 1]) + parts[|parts| - 1]
  }

  lemma {:induction false} ConcatAppend(a: seq<string>, b: seq<string>)
    ensures Concat(a + b) == Concat(a) + Concat(b)
    decreases |b|
  {
    if b == [] {
      assert a + b == a;
    } else {
      var b' := b[..|b| - 1];
      assert (a + b)[..|a + b| - 1] == a + b';
      ConcatAppend(a, b');
    }
  }

  function Fragments(cs: seq<Component>): (fs: seq<string>)
    ensures |fs| == |cs|
  {
    seq(|cs|, i requires 0 <= i < |cs| => Fragment(cs[i]))
  }

  /** The `forEach` that appends one fragment per component. */
  function Body(cs: seq<Component>): string
  {
    Concat(Fragments(cs))
  }

  /** `generateHtmlExport()`: the head carrying the title, the fragments,
      and the fixed tail; an empty canvas gives the head and the tail alone. */
  function Document(layoutName: string, cs: seq<Component>): (r: string)
    ensures Head(Title(layoutName)) <= r
    ensures |r| >= |Tail| && r[|r| - |Tail|..] == Tail
    ensures cs == [] ==> r == Head(Title(layoutName)) + Tail
  {
    var head, body := Head(Title(layoutName)), Body(cs);
    Framed(head, body, Tail);
    head + body + Tail
  }

  lemma Framed(head: string, body: string, tail: string)
    ensures head <= head + body + tail
    ensures |head + body + tail| >= |tail|
    ensures (head + body + tail)[|head + body + tail| - |tail|..] == tail
    ensures body == "" ==> head + body + tail == head + tail
  {
  }

  /** The body is built piece by piece: the fragments of a canvas are the
      fragments of its parts, in order. */
  lemma BodyAppend(a: seq<Component>, b: seq<Component>)
    ensures Body(a + b) == Body(a) + Body(b)
  {
    var fa, fb := Fragments(a), Fragments(b);
    forall i | 0 <= i < |a + b|
      ensures Fragments(a + b)[i] == (fa + fb)[i]
    {
      if i < |a| {
        assert (a + b)[i] == a[i];
      } else {
        assert (a + b)[i] == b[i - |a|];
      }
    }
    assert Fragments(a + b) == fa + fb;
    ConcatAppend(Fragments(a), Fragments(b));
  }

  /** The i-th component's fragment sits right after the fragments of the
      components before it. */
  lemma BodyHasFragment(cs: seq<Component>, i: nat)
    requires i < |cs|
    ensures Body(cs) == Body(cs[..i]) + Fragment(cs[i]) + Body(cs[i + 1..])
  {
    assert cs == cs[..i] + [cs[i]] + cs[i + 1..];
    BodyAppend(cs[..i] + [cs[i]], cs[i + 1..]);
    BodyAppend(cs[..i], [cs[i]]);
    BodySingle(cs[i]);
  }

  lemma BodySingle(c: Component)
    ensures Body([c]) == Fragment(c)
  {
    assert Fragments([c]) == [Fragment(c)];
    assert Concat([Fragment(c)]) == Concat([]) + Fragment(c);
  }

  /** Length of the run of decimal digits at the start of `s`. */
  function DigitRun(s: string): (n: nat)
    ensures n <= |s|
    ensures AllDigits(s[..n])
    ensures n < |s| ==> !IsDigit(s[n])
  {
    if s != [] && IsDigit(s[0]) then 1 + DigitRun(s[1..]) else 0
  }

  /** Length of the integer literal (optional minus, then digits) at the
      start of `s`. */
  function NumberRun(s: string): (n: nat)
    ensures n <= |s|
  {
    if s != [] && s[0] == '-' then 1 + DigitRun(s[1..]) else DigitRun(s)
  }

  lemma {:induction false} DigitRunOf(d: string, rest: string)
    requires AllDigits(d)
    requires rest == [] || !IsDigit(rest[0])
    ensures DigitRun(d + rest) == |d|
    decreases |d|
  {
    if d == [] {
      assert d + rest == rest;
    } else {
      assert (d + rest)[1..] == d[1..] + rest;
      DigitRunOf(d[1..], rest);
    }
  }

  /** Consumes the literal `lit` at the start of `s`. */
  function Expect(lit: string, s: string): (r: Option<string>)
    ensures r.Some? ==> s == lit + r.value
  {
    if lit <= s then Some(s[|lit|..]) else None
  }

  lemma ExpectOf(lit: string, rest: string)
    ensures Expect(lit, lit + rest) == Some(rest)
  {
    assert (lit + rest)[|lit|..] == rest;
  }

  /** Consumes an integer literal at the start of `s`. */
  function ReadNumber(s: string): (Option<int>, string)
  {
    var n := NumberRun(s);
    (ParseDecimal(s[..n]), s[n..])
  }

  /** A written integer followed by a non-digit is read back whole. */
  lemma ReadNumberOf(n: int, rest: string)
    requires rest == [] || !IsDigit(rest[0])
    ensures ReadNumber(IntToString(n) + rest) == (Some(n), rest)
  {
    var w := IntToString(n);
    if n < 0 {
      assert (w + rest)[1..] == w[1..] + rest;
      DigitRunOf(w[1..], rest);
    } else {
      assert IsDigit(w[0]);
      DigitRunOf(w, rest);
    }
    assert (w + rest)[..|w|] == w;
    assert (w + rest)[|w|..] == rest;
    IntToStringRoundTrip(n);
  }

  /** Reads a component's position back from the start of its fragment. */
  function ReadPosition(s: string): Option<Position>
  {
    match Expect(WrapperLeft, s)
    case None => None
    case Some(s1) =>
      var (x, s2) := ReadNumber(s1);
      match Expect(WrapperTop, s2)
      case None => None
      case Some(s3) =>
        var (y, s4) := ReadNumber(s3);
        if x.Some? && y.Some? && Expect(WrapperEnd, s4).Some? then Some(Position(x.value, y.value))
        else None
  }

  /** The markup keeps every position exactly: reading a fragment's opening
      tag gives back the component's drop point, whatever follows it. */
  lemma ReadPositionRoundTrip(p: Position, rest: string)
    ensures ReadPosition(WrapperOpen(p) + rest) == Some(p)
  {
    var xs, ys := IntToString(p.x), IntToString(p.y);
    var s3 := ys + (WrapperEnd + rest);
    var s2 := WrapperTop + s3;
    var s1 := xs + s2;
    Regroup6(WrapperLeft, xs, WrapperTop, ys, WrapperEnd, rest);
    ExpectOf(WrapperLeft, s1);
    ReadNumberOf(p.x, s2);
    ExpectOf(WrapperTop, s3);
    ReadNumberOf(p.y, WrapperEnd + rest);
    ExpectOf(WrapperEnd, rest);
  }

  /** The document is the head, the fragments of the components before the
      i-th, then the i-th component's opening tag: so each position can be
      read back out of the document where its fragment starts. */
  lemma DocumentLayout(layoutName: string, cs: seq<Component>, i: nat)
    requires i < |cs|
    ensures Document(layoutName, cs)
         == Head(Title(layoutName)) + Body(cs[..i]) + WrapperOpen(cs[i].position)
            + (Element(cs[i]) + WrapperClose + Body(cs[i + 1..]) + Tail)
  {
    var head, before, after := Head(Title(layoutName)), Body(cs[..i]), Body(cs[i + 1..]);
    var open, rest := WrapperOpen(cs[i].position), Element(cs[i]) + WrapperClose;
    BodyHasFragment(cs, i);
    assert Document(layoutName, cs) == head + (before + (open + rest) + after) + Tail;
    Regroup5(head, before, open, rest, after, Tail);
  }

  lemma Regroup6(a: string, b: string, c: string, d: string, e: string, f: string)
    ensures a + b + c + d + e + f == a + (b + (c + (d + (e + f))))
  {
  }

  lemma Regroup5(a: string, b: string, c: string, d: string, e: string, f: string)
    ensures a + (b + (c + d) + e) + f == a + b + c + (d + e + f)
  {
  }
}
