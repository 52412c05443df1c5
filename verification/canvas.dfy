/** The canvas: placed component instances, the per-type style defaults, and
    the pure transitions the editor applies to them on drop and on a style
    update. */
module Canvas {
  import opened Values
  import opened Styles

  datatype Position = Position(x: int, y: int)

  /** One placed instance. `kind` is the component's `type` field; `library` is
      optional because a stored layout may lack it. */
  datatype Component = Component(
    id: string,
    kind: string,
    position: Position,
    styles: StyleObject,
    library: Option<string>)

  /** The parsed contents of a palette drag: `componentType`, the parsed
      `componentStyles` object and `componentLibrary` (empty when not set). */
  datatype DropPayload = DropPayload(kind: string, overrides: StyleObject, library: string)

  const DefaultLibrary: string := "shadcn"

  const KnownKinds: set<string> := {"Button", "Input", "Card"}

  /** The per-type baseline styles, property order as written in the editor. */
  const ButtonDefaults: StyleObject :=
    [ Entry("variant", Str("default")),
      Entry("size", Str("default")),
      Entry("backgroundColor", Str("#3b82f6")),
      Entry("textColor", Str("#ffffff")),
      Entry("borderColor", Str("transparent")),
      Entry("borderWidth", Str("1px")),
      Entry("borderStyle", Str("solid")),
      Entry("borderRadius", Str("0.375rem")),
      Entry("padding", Str("0.5rem 1rem")),
      Entry("fontSize", Str("0.875rem")),
      Entry("fontWeight", Str("500")),
      Entry("width", Str("auto")),
      Entry("height", Str("auto")),
      Entry("shadow", Str("sm")),
      Entry("buttonText", Str("Button")) ]

  const InputDefaults: StyleObject :=
    [ Entry("placeholder", Str("Input field")),
      Entry("backgroundColor", Str("#ffffff")),
      Entry("borderColor", Str("#d1d5db")),
      Entry("borderWidth", Str("1px")),
      Entry("borderStyle", Str("solid")),
      Entry("borderRadius", Str("0.375rem")),
      Entry("padding", Str("0.5rem 0.75rem")),
      Entry("fontSize", Str("0.875rem")),
      Entry("width", Str("100%")),
      Entry("height", Str("auto")),
      Entry("textColor", Str("#374151")) ]

  const CardDefaults: StyleObject :=
    [ Entry("backgroundColor", Str("#ffffff")),
      Entry("borderColor", Str("#e5e7eb")),
      Entry("borderWidth", Str("1px")),
      Entry("borderStyle", Str("solid")),
      Entry("borderRadius", Str("0.5rem")),
      Entry("padding", Str("1rem")),
      Entry("width", Str("100%")),
      Entry("height", Str("auto")),
      Entry("shadow", Str("sm")),
      Entry("textColor", Str("#374151")),
      Entry("cardTitle", Str("Card Title")),
      Entry("cardContent", Str("Card Content")) ]

  lemma ButtonDefaultsDistinct()
    ensures DistinctKeys(ButtonDefaults)
  {
    var st := ButtonDefaults;
    forall i, j | 0 <= i < j < |st|
      ensures st[i].key != st[j].key
    {
      assert |st[i].key| != |st[j].key| || st[i].key[0] != st[j].key[0] || st[i].key != st[j].key;
    }
  }

  lemma InputDefaultsDistinct()
    ensures DistinctKeys(InputDefaults)
  {
    var st := InputDefaults;
    forall i, j | 0 <= i < j < |st|
      ensures st[i].key != st[j].key
    {
      assert |st[i].key| != |st[j].key| || st[i].key[0] != st[j].key[0] || st[i].key != st[j].key;
    }
  }

  lemma CardDefaultsDistinct()
    ensures DistinctKeys(CardDefaults)
  {
    var st := CardDefaults;
    forall i, j | 0 <= i < j < |st|
      ensures st[i].key != st[j].key
    {
      assert |st[i].key| != |st[j].key| || st[i].key[0] != st[j].key[0] || st[i].key != st[j].key;
    }
  }

  /** `defaultStyles[componentType] || {}`. */
  function DefaultStyles(kind: string): (r: StyleObject)
    ensures DistinctKeys(r)
    ensures kind !in KnownKinds ==> r == []
  {
    ButtonDefaultsDistinct();
    InputDefaultsDistinct();
    CardDefaultsDistinct();
    if kind == "Button" then ButtonDefaults
    else if kind == "Input" then InputDefaults
    else if kind == "Card" then CardDefaults
    else []
  }

  /** The id minted for a new instance: `${componentType}-${Date.now()}`. */
  function IdOf(kind: string, now: nat): (id: string)
    ensures kind + "-" <= id
    ensures |id| > |kind| + 1
  {
    kind + "-" + NatToString(now)
  }

  /** The minted id is the type, a hyphen, then decimal digits only. */
  lemma IdShape(kind: string, now: nat)
    ensures IdOf(kind, now)[|kind|] == '-'
    ensures forall i :: |kind| < i < |IdOf(kind, now)| ==> IsDigit(IdOf(kind, now)[i])
  {
    var s := NatToString(now);
    assert forall i :: |kind| < i < |IdOf(kind, now)| ==> IdOf(kind, now)[i] == s[i - |kind| - 1];
  }

  /** Ids minted from different types or at different instants never clash:
      the type is what precedes the last hyphen, the instant what follows. */
  lemma IdOfInjective(k1: string, n1: nat, k2: string, n2: nat)
    requires IdOf(k1, n1) == IdOf(k2, n2)
    ensures k1 == k2 && n1 == n2
  {
    var id := IdOf(k1, n1);
    var s1, s2 := NatToString(n1), NatToString(n2);
    IdShape(k1, n1);
    IdShape(k2, n2);
    assert |k1| == |k2|;
    assert s1 == id[|id| - |s1|..] == s2;
    assert k1 == id[..|k1|] == k2;
    NatToStringRoundTrip(n1);
    NatToStringRoundTrip(n2);
  }

  /** The styles a created instance gets: `{...defaults, ...overrides}`. */
  lemma CreateStylesLookup(kind: string, overrides: StyleObject)
    ensures overrides == [] ==> Spread(DefaultStyles(kind), overrides) == DefaultStyles(kind)
    ensures DistinctKeys(overrides) ==> DistinctKeys(Spread(DefaultStyles(kind), overrides))
    ensures DistinctKeys(overrides) ==>
      forall k :: Get(Spread(DefaultStyles(kind), overrides), k)
               == if HasKey(overrides, k) then Get(overrides, k) else Get(DefaultStyles(kind), k)
    ensures DistinctKeys(overrides) && kind !in KnownKinds ==>
      Spread(DefaultStyles(kind), overrides) == overrides
  {
    var defaults := DefaultStyles(kind);
    SpreadIntoEmpty(defaults);
    if DistinctKeys(overrides) {
      SpreadLookup(defaults, overrides);
      if kind !in KnownKinds {
        SpreadIntoEmpty(overrides);
      }
    }
  }

  /** The create-on-drop instance: defaults for its type overridden by the
      payload's styles, library `shadcn` unless the payload names one. */
  function NewComponent(p: DropPayload, at: Position, now: nat): (c: Component)
    ensures c.id == IdOf(p.kind, now) && c.kind == p.kind && c.position == at
    ensures p.library == "" ==> c.library == Some(DefaultLibrary)
    ensures p.library != "" ==> c.library == Some(p.library)
    ensures DistinctKeys(p.overrides) ==> DistinctKeys(c.styles)
    ensures DistinctKeys(p.overrides) ==>
      forall k :: Get(c.styles, k)
               == if HasKey(p.overrides, k) then Get(p.overrides, k)
                  else Get(DefaultStyles(p.kind), k)
    ensures p.overrides == [] ==> c.styles == DefaultStyles(p.kind)
    ensures DistinctKeys(p.overrides) && p.kind !in KnownKinds ==> c.styles == p.overrides
  {
    CreateStylesLookup(p.kind, p.overrides);
    Component(IdOf(p.kind, now), p.kind, at, Spread(DefaultStyles(p.kind), p.overrides),
              Some(if p.library == "" then DefaultLibrary else p.library))
  }

  function Ids(cs: seq<Component>): seq<string>
  {
    seq(|cs|, i requires 0 <= i < |cs| => cs[i].id)
  }

  predicate UniqueIds(cs: seq<Component>)
  {
    forall i, j :: 0 <= i < j < |cs| ==> cs[i].id != cs[j].id
  }

  /** The move-on-drop update: every instance whose id matches gets the new
      position; nothing else about any instance changes. */
  function MoveComponents(cs: seq<Component>, id: string, at: Position): (r: seq<Component>)
    ensures |r| == |cs| && Ids(r) == Ids(cs)
    ensures forall i :: 0 <= i < |cs| ==>
      && r[i].kind == cs[i].kind && r[i].styles == cs[i].styles && r[i].library == cs[i].library
      && r[i].position == (if cs[i].id == id then at else cs[i].position)
  {
    seq(|cs|, i requires 0 <= i < |cs| =>
      if cs[i].id == id then cs[i].(position := at) else cs[i])
  }

  /** `handleStyleChange`: the target's styles become `{...old, ...update}`;
      every other instance, and every other field, stays as it was. */
  function UpdateStyles(cs: seq<Component>, id: string, update: StyleObject): (r: seq<Component>)
    ensures |r| == |cs| && Ids(r) == Ids(cs)
    ensures forall i :: 0 <= i < |cs| ==>
      && r[i].kind == cs[i].kind && r[i].position == cs[i].position && r[i].library == cs[i].library
      && (cs[i].id != id ==> r[i].styles == cs[i].styles)
      && (cs[i].id == id ==> r[i].styles == Spread(cs[i].styles, update))
  {
    seq(|cs|, i requires 0 <= i < |cs| =>
      if cs[i].id == id then cs[i].(styles := Spread(cs[i].styles, update)) else cs[i])
  }

  /** A style update reads back as "new keys win, unmentioned keys kept". */
  lemma UpdateStylesLookup(cs: seq<Component>, id: string, update: StyleObject, i: nat)
    requires i < |cs| && cs[i].id == id
    requires DistinctKeys(cs[i].styles) && DistinctKeys(update)
    ensures DistinctKeys(UpdateStyles(cs, id, update)[i].styles)
    ensures forall k :: Get(UpdateStyles(cs, id, update)[i].styles, k)
                     == if HasKey(update, k) then Get(update, k) else Get(cs[i].styles, k)
  {
    SpreadLookup(cs[i].styles, update);
  }

  /** Two style updates on disjoint keys give every instance the same
      key-to-value styles whichever is applied first. */
  lemma UpdateStylesCommute(cs: seq<Component>, id: string, u1: StyleObject, u2: StyleObject)
    requires forall i :: 0 <= i < |cs| ==> DistinctKeys(cs[i].styles)
    requires DistinctKeys(u1) && DistinctKeys(u2)
    requires forall k :: !(HasKey(u1, k) && HasKey(u2, k))
    ensures |UpdateStyles(UpdateStyles(cs, id, u1), id, u2)| == |cs|
    ensures |UpdateStyles(UpdateStyles(cs, id, u2), id, u1)| == |cs|
    ensures forall i :: 0 <= i < |cs| ==>
      View(UpdateStyles(UpdateStyles(cs, id, u1), id, u2)[i].styles)
      == View(UpdateStyles(UpdateStyles(cs, id, u2), id, u1)[i].styles)
  {
    forall i | 0 <= i < |cs| && cs[i].id == id
      ensures View(UpdateStyles(UpdateStyles(cs, id, u1), id, u2)[i].styles)
           == View(UpdateStyles(UpdateStyles(cs, id, u2), id, u1)[i].styles)
    {
      SpreadCommutesOnDisjointKeys(cs[i].styles, u1, u2);
    }
  }

  /** Moving keeps ids unique, and a second move of the same id simply
      overrides the first. */
  lemma MoveComponentsTwice(cs: seq<Component>, id: string, a: Position, b: Position)
    ensures MoveComponents(MoveComponents(cs, id, a), id, b) == MoveComponents(cs, id, b)
    ensures UniqueIds(cs) ==> UniqueIds(MoveComponents(cs, id, a))
  {
    var r1 := MoveComponents(MoveComponents(cs, id, a), id, b);
    var r2 := MoveComponents(cs, id, b);
    assert forall i :: 0 <= i < |cs| ==> r1[i] == r2[i];
  }

  /** An id that matches no instance leaves the canvas untouched. */
  lemma AbsentIdIsNoOp(cs: seq<Component>, id: string, at: Position, update: StyleObject)
    requires id !in Ids(cs)
    ensures MoveComponents(cs, id, at) == cs
    ensures UpdateStyles(cs, id, update) == cs
  {
    assert forall i :: 0 <= i < |cs| ==> cs[i].id == Ids(cs)[i];
  }

  /** Appending an instance whose id is new keeps the ids unique. */
  lemma AppendKeepsIdsUnique(cs: seq<Component>, c: Component)
    requires UniqueIds(cs) && c.id !in Ids(cs)
    ensures UniqueIds(cs + [c])
  {
    forall i | 0 <= i < |cs|
      ensures cs[i].id != c.id
    {
      assert Ids(cs)[i] == cs[i].id;
    }
  }
}
