/** The handful of JavaScript string operations the editor relies on:
    `trim`, removal of `\s` runs, and the camelCase to kebab-case rewrite
    `key.replace(/([A-Z])/g, '-$1').toLowerCase()`. */
module JsStrings {

  /** The characters JavaScript's `trim` and the `\s` class treat as white
      space: the WhiteSpace and LineTerminator productions of ECMAScript. */
  predicate IsSpace(c: char)
  {
    || c == '\t' || c == '\n' || c == '\U{000B}' || c == '\U{000C}' || c == '\r'
    || c == ' ' || c == '\U{00A0}' || c == '\U{1680}'
    || ('\U{2000}' <= c <= '\U{200A}')
    || c == '\U{2028}' || c == '\U{2029}' || c == '\U{202F}' || c == '\U{205F}'
    || c == '\U{3000}' || c == '\U{FEFF}'
  }

  predicate IsBlank(s: string)
  {
    forall i :: 0 <= i < |s| ==> IsSpace(s[i])
  }

  function TrimStart(s: string): (r: string)
    ensures |r| <= |s| && r == s[|s| - |r|..]
    ensures r == [] || !IsSpace(r[0])
    ensures forall i :: 0 <= i < |s| - |r| ==> IsSpace(s[i])
  {
    if s != [] && IsSpace(s[0]) then TrimStart(s[1..]) else s
  }

  function TrimEnd(s: string): (r: string)
    ensures |r| <= |s| && r == s[..|r|]
    ensures r == [] || !IsSpace(r[|r| - 1])
    ensures forall i :: |r| <= i < |s| ==> IsSpace(s[i])
  {
    if s != [] && IsSpace(s[|s| - 1]) then TrimEnd(s[..|s| - 1]) else s
  }

  /** `s.trim()`: the longest slice of `s` that neither starts nor ends with
      white space. */
  function Trim(s: string): (r: string)
    ensures r == [] || (!IsSpace(r[0]) && !IsSpace(r[|r| - 1]))
    ensures |r| <= |s|
  {
    TrimEnd(TrimStart(s))
  }

  /** `!s.trim()` holds exactly for the strings made only of white space
      (the empty string included). */
  lemma TrimEmptyIffBlank(s: string)
    ensures Trim(s) == "" <==> IsBlank(s)
  {
    var t := TrimStart(s);
    if Trim(s) == "" {
      assert |t| == 0;
    }
  }

  /** `s.replace(/\s+/g, '')`: every white-space character removed. */
  function StripWhitespace(s: string): (r: string)
    ensures |r| <= |s|
    ensures forall i :: 0 <= i < |r| ==> !IsSpace(r[i])
    ensures forall c :: c in r <==> c in s && !IsSpace(c)
  {
    if s == [] then []
    else (if IsSpace(s[0]) then [] else [s[0]]) + StripWhitespace(s[1..])
  }

  /** Stripping keeps the order of the remaining characters: it works piece by
      piece. */
  lemma {:induction false} StripWhitespaceAppend(a: string, b: string)
    ensures StripWhitespace(a + b) == StripWhitespace(a) + StripWhitespace(b)
    decreases |a|
  {
    if a != [] {
      assert (a + b)[1..] == a[1..] + b;
      StripWhitespaceAppend(a[1..], b);
    } else {
      assert a + b == b;
    }
  }

  /** A string without white space is left as it is. */
  lemma {:induction false} StripWhitespaceKeepsClean(s: string)
    requires forall i :: 0 <= i < |s| ==> !IsSpace(s[i])
    ensures StripWhitespace(s) == s
    decreases |s|
  {
    if s != [] {
      StripWhitespaceKeepsClean(s[1..]);
    }
  }

  /** Only a blank string strips to nothing. */
  lemma {:induction false} StripWhitespaceEmptyIffBlank(s: string)
    ensures StripWhitespace(s) == "" <==> IsBlank(s)
    decreases |s|
  {
    if s != [] {
      StripWhitespaceEmptyIffBlank(s[1..]);
      if StripWhitespace(s) == "" {
        assert !(s[0] in StripWhitespace(s));
      }
    }
  }

  lemma StripWhitespaceFixes(s: string)
    ensures (forall i :: 0 <= i < |s| ==> !IsSpace(s[i])) ==> StripWhitespace(s) == s
    ensures StripWhitespace(s) == "" <==> IsBlank(s)
  {
    if forall i :: 0 <= i < |s| ==> !IsSpace(s[i]) {
      StripWhitespaceKeepsClean(s);
    }
    StripWhitespaceEmptyIffBlank(s);
  }

  predicate IsUpper(c: char)
  {
    'A' <= c <= 'Z'
  }

  predicate IsLower(c: char)
  {
    'a' <= c <= 'z'
  }

  function ToLower(c: char): (r: char)
    ensures IsUpper(c) ==> IsLower(r)
    ensures !IsUpper(c) ==> r == c
  {
    if IsUpper(c) then (c as int + 32) as char else c
  }

  function ToUpper(c: char): (r: char)
    ensures IsLower(c) ==> IsUpper(r) && ToLower(r) == c
    ensures !IsLower(c) ==> r == c
  {
    if IsLower(c) then (c as int - 32) as char else c
  }

  /** `s.replace(/([A-Z])/g, '-$1')`: a hyphen before every capital letter. */
  function HyphenateCapitals(s: string): (r: string)
    ensures |r| >= |s|
    ensures (forall i :: 0 <= i < |s| ==> !IsUpper(s[i])) ==> r == s
  {
    if s == [] then []
    else (if IsUpper(s[0]) then ['-', s[0]] else [s[0]]) + HyphenateCapitals(s[1..])
  }

  /** `s.toLowerCase()` on the ASCII letters. */
  function LowerCase(s: string): (r: string)
    ensures |r| == |s|
    ensures forall i :: 0 <= i < |r| ==> !IsUpper(r[i])
  {
    seq(|s|, i requires 0 <= i < |s| => ToLower(s[i]))
  }

  /** The CSS property name the markup export writes for a style key: each
      capital letter becomes a hyphen and the lower-case letter. */
  function KebabCase(key: string): (r: string)
    ensures |r| >= |key|
    ensures forall i :: 0 <= i < |r| ==> !IsUpper(r[i])
    ensures (forall i :: 0 <= i < |key| ==> !IsUpper(key[i])) ==> r == key
  {
    if key == [] then []
    else (if IsUpper(key[0]) then ['-', ToLower(key[0])] else [key[0]]) + KebabCase(key[1..])
  }

  /** The character-wise definition is the editor's two-step rewrite:
      hyphenate the capitals, then lower-case the whole string. */
  lemma {:induction false} KebabCaseIsRewrite(key: string)
    ensures KebabCase(key) == LowerCase(HyphenateCapitals(key))
    decreases |key|
  {
    if key != [] {
      KebabCaseIsRewrite(key[1..]);
      var piece := if IsUpper(key[0]) then ['-', key[0]] else [key[0]];
      assert HyphenateCapitals(key) == piece + HyphenateCapitals(key[1..]);
      assert LowerCase(piece + HyphenateCapitals(key[1..]))
          == LowerCase(piece) + LowerCase(HyphenateCapitals(key[1..]));
    }
  }

  /** KebabCase works one character at a time. */
  lemma KebabCaseCons(c: char, rest: string)
    ensures KebabCase([c] + rest)
         == (if IsUpper(c) then ['-', ToLower(c)] else [c]) + KebabCase(rest)
  {
    assert ([c] + rest)[1..] == rest;
  }

  /** The reverse rewrite: a hyphen followed by a lower-case letter becomes
      that letter in upper case. */
  function CamelCase(s: string): string
  {
    if |s| >= 2 && s[0] == '-' && IsLower(s[1]) then [ToUpper(s[1])] + CamelCase(s[2..])
    else if s == [] then []
    else [s[0]] + CamelCase(s[1..])
  }

  /** For a style key without hyphens, the CSS property name determines the
      key: CamelCase undoes KebabCase. */
  lemma {:induction false} KebabCaseRoundTrip(key: string)
    requires '-' !in key
    ensures CamelCase(KebabCase(key)) == key
    decreases |key|
  {
    if key != [] {
      var c, rest := key[0], key[1..];
      assert key == [c] + rest;
      KebabCaseCons(c, rest);
      KebabCaseRoundTrip(rest);
      var k := KebabCase(key);
      if IsUpper(c) {
        assert k[2..] == KebabCase(rest);
      } else {
        assert k[1..] == KebabCase(rest);
      }
    }
  }

  /** Two hyphen-free keys never collide on one CSS property name. */
  lemma KebabCaseInjective(a: string, b: string)
    requires '-' !in a && '-' !in b
    requires KebabCase(a) == KebabCase(b)
    ensures a == b
  {
    KebabCaseRoundTrip(a);
    KebabCaseRoundTrip(b);
  }

  /** A key with a capital letter always gets a hyphen; so a kebab-cased name
      without hyphens is the key itself. */
  lemma {:induction false} KebabCaseWithoutHyphen(key: string)
    requires '-' !in KebabCase(key)
    ensures KebabCase(key) == key
    decreases |key|
  {
    if key != [] {
      var c, rest := key[0], key[1..];
      assert key == [c] + rest;
      KebabCaseCons(c, rest);
      assert !IsUpper(c);
      assert '-' !in KebabCase(rest) by {
        assert KebabCase(key) == [c] + KebabCase(rest);
      }
      KebabCaseWithoutHyphen(rest);
    }
  }

  /** KebabCase works piece by piece. */
  lemma {:induction false} KebabCaseAppend(a: string, b: string)
    ensures KebabCase(a + b) == KebabCase(a) + KebabCase(b)
    decreases |a|
  {
    if a == [] {
      assert a + b == b;
    } else {
      assert (a + b)[1..] == a[1..] + b;
      KebabCaseAppend(a[1..], b);
    }
  }

  /** A key with one capital letter between two lower-case runs gets one
      hyphen, before the lowered capital. */
  lemma KebabCaseOneCapital(a: string, c: char, b: string)
    requires forall i :: 0 <= i < |a| ==> !IsUpper(a[i])
    requires forall i :: 0 <= i < |b| ==> !IsUpper(b[i])
    requires IsUpper(c)
    ensures KebabCase(a + [c] + b) == a + ['-', ToLower(c)] + b
  {
    assert KebabCase([c]) == ['-', ToLower(c)] by {
      assert [c][1..] == [];
    }
    KebabCaseAppend(a, [c]);
    KebabCaseAppend(a + [c], b);
  }

  /** The one camelCase key the generators introduce themselves. */
  lemma KebabCaseBoxShadow()
    ensures KebabCase("boxShadow") == "box-shadow"
  {
    KebabCaseOneCapital("box", 'S', "hadow");
    assert "boxShadow" == "box" + ['S'] + "hadow";
    assert "box" + ['-', 's'] + "hadow" == "box-shadow";
  }
}
