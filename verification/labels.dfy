/** The text both generators put inside a component: a label read from the
    styles with a fallback. Button text and card texts fall back only when
    the value is `undefined` or `null`; the input placeholder falls back on
    any falsy value. */
module Labels {
  import opened Values
  import opened Styles
  import opened Canvas

  /** `v === undefined || v === null ? fallback : v`, interpolated. */
  function NullishOr(st: StyleObject, key: string, fallback: string): (r: string)
    ensures Get(st, key).None? ==> r == fallback
    ensures Get(st, key) == Some(Null) ==> r == fallback
    ensures Get(st, key).Some? && !Get(st, key).value.Null? ==> r == Render(Get(st, key).value)
  {
    match Get(st, key)
    case None => fallback
    case Some(v) => if v.Null? then fallback else Render(v)
  }

  /** `v || fallback`, interpolated. */
  function FalsyOr(st: StyleObject, key: string, fallback: string): (r: string)
    ensures Get(st, key).Some? && Truthy(Get(st, key).value) ==> r == Render(Get(st, key).value)
    ensures !(Get(st, key).Some? && Truthy(Get(st, key).value)) ==> r == fallback
  {
    match Get(st, key)
    case Some(v) => if Truthy(v) then Render(v) else fallback
    case None => fallback
  }

  /** A button reads its label from `buttonText`; it is empty only when
      that property is the empty string. */
  function ButtonText(st: StyleObject): (r: string)
    ensures !HasKey(st, "buttonText") ==> r == "Button"
    ensures r == "" <==> Get(st, "buttonText") == Some(Str(""))
  {
    NullishOr(st, "buttonText", "Button")
  }

  function CardTitle(st: StyleObject): string
  {
    NullishOr(st, "cardTitle", "Card Title")
  }

  function CardContent(st: StyleObject): string
  {
    NullishOr(st, "cardContent", "Card Content")
  }

  /** An input reads its placeholder from `placeholder`; the placeholder
      is never empty, and a non-empty string is shown as written. */
  function InputPlaceholder(st: StyleObject): (r: string)
    ensures r != ""
    ensures !HasKey(st, "placeholder") ==> r == "Input field"
    ensures (Get(st, "placeholder").Some? && Get(st, "placeholder").value.Str?
             && Get(st, "placeholder").value.s != "") ==> r == Get(st, "placeholder").value.s
  {
    FalsyOr(st, "placeholder", "Input field")
  }

  /** The two fallback styles agree on every truthy or missing value; they
      part exactly on an empty string and on zero, which the nullish test
      keeps and the falsy test replaces. */
  lemma NullishAndFalsyAgree(st: StyleObject, key: string, fallback: string)
    ensures NullishOr(st, key, fallback) != FalsyOr(st, key, fallback) ==>
      Get(st, key) == Some(Str("")) || Get(st, key) == Some(Num(0))
    ensures Get(st, key) == Some(Str("")) ==> NullishOr(st, key, fallback) == ""
    ensures Get(st, key) == Some(Num(0)) ==> NullishOr(st, key, fallback) == "0"
    ensures (Get(st, key) == Some(Str("")) || Get(st, key) == Some(Num(0))) ==>
      FalsyOr(st, key, fallback) == fallback
  {
    if Get(st, key) == Some(Num(0)) {
      assert IntToString(0) == "0";
    }
  }

  lemma ButtonDefaultsLabel()
    ensures ButtonText(ButtonDefaults) == "Button"
  {
    GetFirst(ButtonDefaults, 14, "buttonText");
  }

  lemma InputDefaultsLabel()
    ensures InputPlaceholder(InputDefaults) == "Input field"
  {
    GetFirst(InputDefaults, 0, "placeholder");
  }

  lemma CardDefaultsTitle()
    ensures CardTitle(CardDefaults) == "Card Title"
  {
    GetFirst(CardDefaults, 10, "cardTitle");
  }

  lemma CardDefaultsContent()
    ensures CardContent(CardDefaults) == "Card Content"
  {
    GetFirst(CardDefaults, 11, "cardContent");
  }

  /** A label's fallback is the very value the per-type defaults hold: a
      component dropped without overrides shows the same text whether it is
      read from its styles or falls back. */
  lemma DefaultLabels()
    ensures ButtonText(DefaultStyles("Button")) == "Button"
    ensures InputPlaceholder(DefaultStyles("Input")) == "Input field"
    ensures CardTitle(DefaultStyles("Card")) == "Card Title"
    ensures CardContent(DefaultStyles("Card")) == "Card Content"
  {
    ButtonDefaultsLabel();
    InputDefaultsLabel();
    CardDefaultsTitle();
    CardDefaultsContent();
  }

  /** The label of a dropped component: an override of the label key wins,
      otherwise the per-type default does. */
  lemma NewComponentLabel(p: DropPayload, at: Position, now: nat, key: string, fallback: string)
    requires DistinctKeys(p.overrides)
    ensures NullishOr(NewComponent(p, at, now).styles, key, fallback)
         == if HasKey(p.overrides, key) then NullishOr(p.overrides, key, fallback)
            else NullishOr(DefaultStyles(p.kind), key, fallback)
  {
  }
}
