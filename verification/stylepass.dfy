/** The style-entry pass both code generators run over a component's styles:
    drop `variant`, `size` and `placeholder`, rename `textColor` to `color`,
    turn the `shadow` level into a box-shadow literal, and pass every other
    property through (kebab-cased in the markup). */
module StylePass {
  import opened Values
  import opened Styles
  import opened JsStrings

  const ExcludedKeys: set<string> := {"variant", "size", "placeholder"}

  const ShadowLevels: set<string> := {"none", "sm", "md", "lg", "xl"}

  /** The entries that reach the generators, in their original order. */
  function VisibleEntries(st: StyleObject): (r: StyleObject)
    ensures |r| <= |st|
    ensures forall i :: 0 <= i < |r| ==> r[i].key !in ExcludedKeys
    ensures forall e :: e in r <==> e in st && e.key !in ExcludedKeys
  {
    if st == [] then []
    else (if st[0].key in ExcludedKeys then [] else [st[0]]) + VisibleEntries(st[1..])
  }

  /** The filter works piece by piece, so the kept entries stay in their
      original order. */
  lemma {:induction false} VisibleEntriesAppend(a: StyleObject, b: StyleObject)
    ensures VisibleEntries(a + b) == VisibleEntries(a) + VisibleEntries(b)
    decreases |a|
  {
    if a == [] {
      assert a + b == b;
    } else {
      assert (a + b)[1..] == a[1..] + b;
      VisibleEntriesAppend(a[1..], b);
    }
  }

  /** Filtering loses no other property. */
  lemma {:induction false} VisibleLookup(st: StyleObject, k: string)
    ensures Get(VisibleEntries(st), k) == if k in ExcludedKeys then None else Get(st, k)
  {
    if st != [] {
      VisibleLookup(st[1..], k);
      var v, rest := VisibleEntries(st), VisibleEntries(st[1..]);
      if st[0].key !in ExcludedKeys {
        assert v[0] == st[0] && v[1..] == rest;
      } else {
        assert v == rest;
      }
    }
  }

  /** Filtering keeps keys distinct. */
  lemma {:induction false} VisibleDistinct(st: StyleObject)
    requires DistinctKeys(st)
    ensures DistinctKeys(VisibleEntries(st))
  {
    if st != [] {
      VisibleDistinct(st[1..]);
      var rest := VisibleEntries(st[1..]);
      forall i | 0 <= i < |rest|
        ensures rest[i].key != st[0].key
      {
        assert rest[i] in st[1..];
      }
    }
  }

  /** The box-shadow literals of the scale, written identically by both
      generators. */
  const ShadowSm: string := "0 1px 2px 0 rgba(0, 0, 0, 0.05)"
  const ShadowMd: string := "0 4px 6px -1px rgba(0, 0, 0, 0.1), 0 2px 4px -2px rgba(0, 0, 0, 0.1)"
  const ShadowLg: string := "0 10px 15px -3px rgba(0, 0, 0, 0.1), 0 4px 6px -4px rgba(0, 0, 0, 0.1)"
  const ShadowXl: string := "0 20px 25px -5px rgba(0, 0, 0, 0.1), 0 8px 10px -6px rgba(0, 0, 0, 0.1)"

  /** One CSS declaration, `name: value;`. */
  function Declaration(name: string, value: string): string
  {
    name + ": " + value + ";"
  }

  /** The markup generator's shadow branch. */
  function HtmlShadowDeclaration(v: Value): string
  {
    if v == Str("none") then Declaration("box-shadow", "none")
    else if v == Str("sm") then Declaration("box-shadow", ShadowSm)
    else if v == Str("md") then Declaration("box-shadow", ShadowMd)
    else if v == Str("lg") then Declaration("box-shadow", ShadowLg)
    else if v == Str("xl") then Declaration("box-shadow", ShadowXl)
    else ""
  }

  /** The component-source generator's shadow branch; `None` leaves
      `boxShadow` unset. */
  function ReactShadowValue(v: Value): Option<string>
  {
    if v == Str("none") then Some("none")
    else if v == Str("sm") then Some(ShadowSm)
    else if v == Str("md") then Some(ShadowMd)
    else if v == Str("lg") then Some(ShadowLg)
    else if v == Str("xl") then Some(ShadowXl)
    else None
  }

  /** Both generators map exactly the five string levels, and to the same
      literal; any other value (a number, null, an unknown string) is
      dropped by both. */
  lemma ShadowTablesAgree(v: Value)
    ensures ReactShadowValue(v).Some? <==> v.Str? && v.s in ShadowLevels
    ensures HtmlShadowDeclaration(v)
         == if ReactShadowValue(v).Some? then Declaration("box-shadow", ReactShadowValue(v).value) else ""
  {
  }

  /** The markup generator's per-entry declaration: empty exactly for a
      shadow whose value is not one of the five levels. */
  function HtmlDeclaration(e: Entry): (r: string)
    ensures r == "" <==> e.key == "shadow" && !(e.value.Str? && e.value.s in ShadowLevels)
  {
    ShadowTablesAgree(e.value);
    if e.key == "textColor" then Declaration("color", Render(e.value))
    else if e.key == "shadow" then HtmlShadowDeclaration(e.value)
    else Declaration(KebabCase(e.key), Render(e.value))
  }

  /** The component-source generator's reduce step: the property it writes
      into the style object for one entry, if any. */
  function ReactContribution(e: Entry): Option<Entry>
  {
    if e.key == "textColor" then Some(Entry("color", e.value))
    else if e.key == "shadow" then
      match ReactShadowValue(e.value)
      case Some(literal) => Some(Entry("boxShadow", Str(literal)))
      case None => None
    else Some(e)
  }

  /** The two generators agree entry by entry: the markup declaration is
      exactly the CSS rendering of what the component source writes into
      its style object, and empty where it writes nothing. */
  lemma DeclarationsAgree(e: Entry)
    ensures HtmlDeclaration(e)
         == match ReactContribution(e)
            case None => ""
            case Some(c) => Declaration(KebabCase(c.key), Render(c.value))
  {
    if e.key == "textColor" {
      assert KebabCase("color") == "color";
    } else if e.key == "shadow" {
      KebabCaseBoxShadow();
      ShadowTablesAgree(e.value);
    }
  }

  /** A key the pass lets through never turns into an excluded CSS name. */
  lemma KebabCaseKeepsExcludedOut(k: string)
    requires k !in ExcludedKeys
    ensures KebabCase(k) !in ExcludedKeys
  {
    if KebabCase(k) in ExcludedKeys {
      assert '-' !in KebabCase(k);
      KebabCaseWithoutHyphen(k);
    }
  }

  /** The markup style string's declarations, one per visible entry. */
  function HtmlDeclarations(st: StyleObject): (ds: seq<string>)
    ensures |ds| == |VisibleEntries(st)|
  {
    DeclarationsOf(VisibleEntries(st))
  }

  function DeclarationsOf(es: StyleObject): (ds: seq<string>)
    ensures |ds| == |es|
  {
    seq(|es|, i requires 0 <= i < |es| => HtmlDeclaration(es[i]))
  }

  lemma DeclarationsOfAppend(a: StyleObject, b: StyleObject)
    ensures DeclarationsOf(a + b) == DeclarationsOf(a) + DeclarationsOf(b)
  {
    var da, db := DeclarationsOf(a), DeclarationsOf(b);
    forall i | 0 <= i < |a| + |b|
      ensures DeclarationsOf(a + b)[i] == (da + db)[i]
    {
      if i < |a| {
        assert (a + b)[i] == a[i];
      } else {
        assert (a + b)[i] == b[i - |a|];
      }
    }
  }

  /** `Array.prototype.join`. */
  function Join(parts: seq<string>, sep: string): string
  {
    if parts == [] then ""
    else if |parts| == 1 then parts[0]
    else parts[0] + sep + Join(parts[1..], sep)
  }

  /** Joining two non-empty lists puts one separator between their joins. */
  lemma {:induction false} JoinAppend(a: seq<string>, b: seq<string>, sep: string)
    requires a != [] && b != []
    ensures Join(a + b, sep) == Join(a, sep) + sep + Join(b, sep)
    decreases |a|
  {
    if |a| == 1 {
      assert (a + b)[1..] == b;
    } else {
      assert (a + b)[1..] == a[1..] + b;
      JoinAppend(a[1..], b, sep);
    }
  }

  /** The inline `style` attribute text of the markup export. */
  function StyleString(st: StyleObject): (r: string)
    ensures VisibleEntries(st) == [] ==> r == ""
    ensures |VisibleEntries(st)| == 1 ==> r == HtmlDeclaration(VisibleEntries(st)[0])
  {
    Join(HtmlDeclarations(st), " ")
  }

  /** The style string lists the declarations of the earlier properties
      first, separated by one blank: declaration order is property order. */
  lemma StyleStringAppend(a: StyleObject, b: StyleObject)
    requires VisibleEntries(a) != [] && VisibleEntries(b) != []
    ensures StyleString(a + b) == StyleString(a) + " " + StyleString(b)
  {
    VisibleEntriesAppend(a, b);
    DeclarationsOfAppend(VisibleEntries(a), VisibleEntries(b));
    JoinAppend(HtmlDeclarations(a), HtmlDeclarations(b), " ");
  }

  /** What the pass emits for a non-excluded entry never names an excluded
      property. */
  lemma ContributionKeepsExcludedOut(e: Entry)
    requires e.key !in ExcludedKeys
    ensures ReactContribution(e).Some? ==> ReactContribution(e).value.key !in ExcludedKeys
  {
  }

  /** Every markup declaration is empty (an unrecognised shadow) or declares
      a property other than `variant`, `size` and `placeholder`, namely the
      kebab-cased name of the component-source property for the same entry. */
  lemma HtmlDeclarationsOmitExcluded(st: StyleObject, i: nat)
    requires i < |VisibleEntries(st)|
    ensures ReactContribution(VisibleEntries(st)[i]).None? ==> HtmlDeclarations(st)[i] == ""
    ensures ReactContribution(VisibleEntries(st)[i]).Some? ==>
      var c := ReactContribution(VisibleEntries(st)[i]).value;
      && HtmlDeclarations(st)[i] == Declaration(KebabCase(c.key), Render(c.value))
      && KebabCase(c.key) !in ExcludedKeys
  {
    var e := VisibleEntries(st)[i];
    assert HtmlDeclarations(st)[i] == HtmlDeclaration(e);
    DeclarationsAgree(e);
    ContributionKeepsExcludedOut(e);
    var c := ReactContribution(e);
    if c.Some? {
      KebabCaseKeepsExcludedOut(c.value.key);
    }
  }

  /** A key the component-source style object may hold. */
  predicate Emitted(k: string)
  {
    k !in ExcludedKeys && k != "textColor" && k != "shadow"
  }

  function ReactStep(acc: StyleObject, e: Entry): StyleObject
  {
    match ReactContribution(e)
    case Some(c) => Put(acc, c.key, c.value)
    case None => acc
  }

  function ReactFold(acc: StyleObject, es: StyleObject): StyleObject
    decreases |es|
  {
    if es == [] then acc else ReactFold(ReactStep(acc, es[0]), es[1..])
  }

  /** The style object literal of the component-source export: distinct
      keys, none of them excluded, `textColor` or `shadow`. */
  function ReactStyleObject(st: StyleObject): (r: StyleObject)
    ensures DistinctKeys(r)
    ensures forall i :: 0 <= i < |r| ==> Emitted(r[i].key)
  {
    ReactFoldShape([], VisibleEntries(st));
    ReactFold([], VisibleEntries(st))
  }

  lemma {:induction false} ReactFoldShape(acc: StyleObject, es: StyleObject)
    requires DistinctKeys(acc) && forall i :: 0 <= i < |acc| ==> Emitted(acc[i].key)
    requires forall i :: 0 <= i < |es| ==> es[i].key !in ExcludedKeys
    ensures DistinctKeys(ReactFold(acc, es))
    ensures forall i :: 0 <= i < |ReactFold(acc, es)| ==> Emitted(ReactFold(acc, es)[i].key)
    decreases |es|
  {
    if es != [] {
      var c := ReactContribution(es[0]);
      if c.Some? {
        PutKeepsDistinct(acc, c.value.key, c.value.value);
      }
      ReactFoldShape(ReactStep(acc, es[0]), es[1..]);
    }
  }

  /** Keys other than `color` and `boxShadow` are copied from the entry of
      the same name. */
  lemma {:induction false} ReactFoldPlainKey(acc: StyleObject, es: StyleObject, k: string)
    requires DistinctKeys(es)
    requires Emitted(k) && k != "color" && k != "boxShadow"
    ensures Get(ReactFold(acc, es), k) == if HasKey(es, k) then Get(es, k) else Get(acc, k)
    decreases |es|
  {
    if es != [] {
      var e := es[0];
      var next := ReactStep(acc, e);
      ReactFoldPlainKey(next, es[1..], k);
      var c := ReactContribution(e);
      if c.Some? {
        PutLookup(acc, c.value.key, c.value.value);
      }
      if e.key == k {
        assert !HasKey(es[1..], k);
      }
    }
  }

  /** Without an own `color` entry, `color` carries the `textColor` value. */
  lemma {:induction false} ReactFoldColor(acc: StyleObject, es: StyleObject)
    requires DistinctKeys(es) && !HasKey(es, "color")
    ensures Get(ReactFold(acc, es), "color")
         == if HasKey(es, "textColor") then Get(es, "textColor") else Get(acc, "color")
    decreases |es|
  {
    if es != [] {
      var e := es[0];
      var next := ReactStep(acc, e);
      ReactFoldColor(next, es[1..]);
      var c := ReactContribution(e);
      if c.Some? {
        PutLookup(acc, c.value.key, c.value.value);
      }
      if e.key == "textColor" {
        assert !HasKey(es[1..], "textColor");
      }
    }
  }

  /** Without an own `boxShadow` entry, `boxShadow` carries the literal of a
      recognised `shadow` level and is left alone otherwise. */
  lemma {:induction false} ReactFoldBoxShadow(acc: StyleObject, es: StyleObject)
    requires DistinctKeys(es) && !HasKey(es, "boxShadow")
    ensures Get(ReactFold(acc, es), "boxShadow")
         == if HasKey(es, "shadow") && ReactShadowValue(Get(es, "shadow").value).Some?
            then Some(Str(ReactShadowValue(Get(es, "shadow").value).value))
            else Get(acc, "boxShadow")
    decreases |es|
  {
    if es != [] {
      var e := es[0];
      var next := ReactStep(acc, e);
      ReactFoldBoxShadow(next, es[1..]);
      var c := ReactContribution(e);
      if c.Some? {
        PutLookup(acc, c.value.key, c.value.value);
      }
      if e.key == "shadow" {
        assert !HasKey(es[1..], "shadow");
      }
    }
  }

  /** Every plain property of a component is copied into the component-source
      style object unchanged. */
  lemma ReactStyleObjectPlainKey(st: StyleObject, k: string)
    requires DistinctKeys(st)
    requires Emitted(k) && k != "color" && k != "boxShadow"
    ensures Get(ReactStyleObject(st), k) == Get(st, k)
  {
    VisibleDistinct(st);
    VisibleLookup(st, k);
    ReactFoldPlainKey([], VisibleEntries(st), k);
  }

  /** Without an own `color` property, `color` carries the `textColor` value. */
  lemma ReactStyleObjectColor(st: StyleObject)
    requires DistinctKeys(st) && !HasKey(st, "color")
    ensures Get(ReactStyleObject(st), "color") == Get(st, "textColor")
  {
    VisibleDistinct(st);
    VisibleLookup(st, "color");
    VisibleLookup(st, "textColor");
    ReactFoldColor([], VisibleEntries(st));
  }

  /** Without an own `boxShadow` property, `boxShadow` carries the literal of a
      recognised `shadow` level and is absent otherwise. */
  lemma ReactStyleObjectBoxShadow(st: StyleObject)
    requires DistinctKeys(st) && !HasKey(st, "boxShadow")
    ensures Get(ReactStyleObject(st), "boxShadow")
         == if HasKey(st, "shadow") && ReactShadowValue(Get(st, "shadow").value).Some?
            then Some(Str(ReactShadowValue(Get(st, "shadow").value).value))
            else None
  {
    VisibleDistinct(st);
    VisibleLookup(st, "boxShadow");
    VisibleLookup(st, "shadow");
    ReactFoldBoxShadow([], VisibleEntries(st));
  }
}
