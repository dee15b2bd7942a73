/** `EntryCleaner.clean_text`: the two cleaning modes for channel names and
    attribute values, with `html.unescape` taken as a parameter. */
module TextCleaning {
  import opened Text

  /** The characters the aggressive mode deletes: ``& < > ' " \ [ ] { }``. */
  predicate IsSpecial(c: char)
  {
    c in "&<>'\"\\[]{}"
  }

  predicate NoSpecials(s: string)
  {
    forall k :: 0 <= k < |s| ==> !IsSpecial(s[k])
  }

  predicate NoDoubleSpace(s: string)
  {
    forall k :: 0 <= k < |s| - 1 ==> !(IsSpace(s[k]) && IsSpace(s[k + 1]))
  }

  /** The five `str.replace` calls that decode the basic entities left after unescaping. */
  function DecodeBasicEntities(s: string): (r: string)
    ensures '&' !in s ==> r == s
    ensures |r| <= |s|
  {
    var t := ReplaceAll(ReplaceAll(s, "&amp;", "&"), "&lt;", "<");
    ReplaceAll(ReplaceAll(ReplaceAll(t, "&gt;", ">"), "&quot;", "\""), "&apos;", "'")
  }

  /** `re.sub(r'<[^>]+>', '', s)`: a `<` is removed together with everything up
      to the next `>` when at least one character lies between them. */
  function RemoveTags(s: string): (r: string)
    ensures '<' !in s ==> r == s
    ensures |r| <= |s|
    decreases |s|
  {
    if s == [] then []
    else
      var close := FirstIn(s[1..], Just('>'));
      if s[0] == '<' && 0 < close < |s| - 1 then RemoveTags(s[close + 2..])
      else [s[0]] + RemoveTags(s[1..])
  }

  /** `re.sub(r'[&<>\'"\\\[\]{}]', '', s)`. */
  function DropSpecials(s: string): (r: string)
    ensures NoSpecials(r)
    ensures |r| <= |s|
  {
    if s == [] then []
    else if IsSpecial(s[0]) then DropSpecials(s[1..])
    else [s[0]] + DropSpecials(s[1..])
  }

  /** `re.sub(r'\s+', ' ', s)`: every run of whitespace becomes one space. */
  function CollapseSpaces(s: string): (r: string)
    ensures s == [] <==> r == []
    ensures s != [] ==> r[0] == if IsSpace(s[0]) then ' ' else s[0]
    decreases |s|
  {
    if s == [] then []
    else if IsSpace(s[0]) then [' '] + CollapseSpaces(TrimLeft(s[1..], Spaces))
    else [s[0]] + CollapseSpaces(s[1..])
  }

  /** The entity-escaping substitutions of the standard mode. */
  datatype Escaping = Amp | Lt | Gt | DoubleQuote | SingleQuote

  function Target(e: Escaping): char
  {
    match e
    case Amp => '&'
    case Lt => '<'
    case Gt => '>'
    case DoubleQuote => '"'
    case SingleQuote => '\''
  }

  function Replacement(e: Escaping): string
  {
    match e
    case Amp => "&amp;"
    case Lt => "&lt;"
    case Gt => "&gt;"
    case DoubleQuote => "&quot;"
    case SingleQuote => "&apos;"
  }

  /** The negative lookahead of each substitution: the target is left alone
      when the text after it matches. `&` is kept before an entity body, `<`
      when a `>` follows somewhere, `>` when a `<` follows somewhere; quotes
      are always replaced. */
  predicate Keeps(e: Escaping, tail: string)
  {
    match e
    case Amp => "amp;" <= tail || "lt;" <= tail || "gt;" <= tail || "quot;" <= tail || "apos;" <= tail
    case Lt => '>' in tail
    case Gt => '<' in tail
    case DoubleQuote => false
    case SingleQuote => false
  }

  /** One substitution over the whole string, with the lookahead reading the
      string as it was before this substitution. */
  function Escape(s: string, e: Escaping): (r: string)
    ensures |s| <= |r|
    ensures r == [] <==> s == []
    decreases |s|
  {
    if s == [] then []
    else if s[0] == Target(e) && !Keeps(e, s[1..]) then Replacement(e) + Escape(s[1..], e)
    else [s[0]] + Escape(s[1..], e)
  }

  /** The five substitutions of the standard mode, in order. */
  function EscapeStandard(s: string): (r: string)
    ensures |s| <= |r|
  {
    Escape(Escape(Escape(Escape(Escape(s, Amp), Lt), Gt), DoubleQuote), SingleQuote)
  }

  /** `clean_text`: empty text is returned as it is; otherwise the text is
      unescaped, cleaned in the chosen mode and stripped. */
  function CleanText(text: string, aggressive: bool, unescape: string -> string): (r: string)
    ensures text == [] ==> r == []
    ensures Stripped(r)
  {
    if text == [] then text
    else
      var t := unescape(text);
      if aggressive then Strip(CollapseSpaces(DropSpecials(RemoveTags(DecodeBasicEntities(t)))))
      else Strip(EscapeStandard(t))
  }

  /** A string that starts with one of the five entities the standard mode leaves alone. */
  predicate StartsEntity(t: string)
  {
    "&amp;" <= t || "&lt;" <= t || "&gt;" <= t || "&quot;" <= t || "&apos;" <= t
  }

  /** Every `&` begins an entity. */
  predicate AmpsOk(s: string)
  {
    forall k :: 0 <= k < |s| && s[k] == '&' ==> StartsEntity(s[k..])
  }

  // ---------------------------------------------------------------------
  // Aggressive mode

  /** Collapsing whitespace adds only spaces. */
  lemma {:induction false} CollapseKeepsNoSpecials(s: string)
    requires NoSpecials(s)
    ensures NoSpecials(CollapseSpaces(s))
    decreases |s|
  {
    if s != [] {
      if IsSpace(s[0]) {
        var t := TrimLeft(s[1..], Spaces);
        TrimLeftIsSuffix(s[1..], Spaces);
        assert forall k :: 0 <= k < |t| ==> t[k] == s[1..][|s[1..]| - |t| + k];
        CollapseKeepsNoSpecials(t);
      } else {
        assert forall k :: 0 <= k < |s[1..]| ==> s[1..][k] == s[k + 1];
        CollapseKeepsNoSpecials(s[1..]);
      }
    }
  }

  /** After collapsing, no two whitespace characters are adjacent. */
  lemma {:induction false} CollapseNoDoubleSpace(s: string)
    ensures NoDoubleSpace(CollapseSpaces(s))
    decreases |s|
  {
    if s != [] {
      var rest := if IsSpace(s[0]) then TrimLeft(s[1..], Spaces) else s[1..];
      CollapseNoDoubleSpace(rest);
      var r, tail := CollapseSpaces(s), CollapseSpaces(rest);
      assert r == [r[0]] + tail;
      assert tail != [] ==> !IsSpace(r[0]) || !IsSpace(tail[0]);
      forall k | 0 <= k < |r| - 1
        ensures !(IsSpace(r[k]) && IsSpace(r[k + 1]))
      {
        if k > 0 {
          assert r[k] == tail[k - 1] && r[k + 1] == tail[k];
        }
      }
    }
  }

  /** Stripping keeps an infix, so it keeps both properties. */
  lemma StripKeeps(s: string)
    ensures NoSpecials(s) ==> NoSpecials(Strip(s))
    ensures NoDoubleSpace(s) ==> NoDoubleSpace(Strip(s))
  {
    StripIsInfix(s, Spaces);
    var r, i := Strip(s), StripStart(s, Spaces);
    assert forall k :: 0 <= k < |r| ==> r[k] == s[i + k];
  }

  /** In aggressive mode the cleaned text contains none of
      ``& < > ' " \ [ ] { }`` and no two adjacent whitespace characters,
      whatever the unescaping returns. */
  lemma AggressiveOutputIsClean(text: string, unescape: string -> string)
    ensures NoSpecials(CleanText(text, true, unescape))
    ensures NoDoubleSpace(CleanText(text, true, unescape))
  {
    if text != [] {
      var d := DropSpecials(RemoveTags(DecodeBasicEntities(unescape(text))));
      CollapseKeepsNoSpecials(d);
      CollapseNoDoubleSpace(d);
      StripKeeps(CollapseSpaces(d));
    }
  }

  /** Collapsing turns every whitespace character, line breaks included, into a space. */
  lemma {:induction false} CollapseOneLine(s: string)
    ensures OneLine(CollapseSpaces(s))
    decreases |s|
  {
    if s != [] {
      if IsSpace(s[0]) {
        CollapseOneLine(TrimLeft(s[1..], Spaces));
      } else {
        CollapseOneLine(s[1..]);
      }
    }
  }

  /** In aggressive mode the cleaned text is one line, whatever the unescaping returns. */
  lemma AggressiveOutputOneLine(text: string, unescape: string -> string)
    ensures OneLine(CleanText(text, true, unescape))
  {
    if text != [] {
      var c := CollapseSpaces(DropSpecials(RemoveTags(DecodeBasicEntities(unescape(text)))));
      CollapseOneLine(DropSpecials(RemoveTags(DecodeBasicEntities(unescape(text)))));
      StripKeepsAbsent(c, '\n');
      StripKeepsAbsent(c, '\r');
    }
  }

  // ---------------------------------------------------------------------
  // Standard mode

  /** A character other than the target passes through a substitution unchanged. */
  lemma EscapeCons(c: char, t: string, e: Escaping)
    requires c != Target(e)
    ensures Escape([c] + t, e) == [c] + Escape(t, e)
  {
    assert ([c] + t)[1..] == t;
  }

  /** A prefix free of the target passes through a substitution unchanged. */
  lemma {:induction false} EscapePrefix(w: string, rest: string, e: Escaping)
    requires Target(e) !in w
    ensures Escape(w + rest, e) == w + Escape(rest, e)
    decreases |w|
  {
    if w == [] {
      assert w + rest == rest;
    } else {
      assert w + rest == [w[0]] + (w[1..] + rest);
      EscapeCons(w[0], w[1..] + rest, e);
      EscapePrefix(w[1..], rest, e);
      assert w == [w[0]] + w[1..];
    }
  }

  /** Text with none of `& < > " '` passes through the standard mode's
      substitutions unchanged. */
  lemma EscapeStandardUnchanged(s: string)
    requires forall k :: 0 <= k < |s| ==> !(s[k] in "&<>\"'")
    ensures EscapeStandard(s) == s
  {
    assert s + [] == s;
    EscapePrefix(s, [], Amp);
    EscapePrefix(s, [], Lt);
    EscapePrefix(s, [], Gt);
    EscapePrefix(s, [], DoubleQuote);
    EscapePrefix(s, [], SingleQuote);
  }

  /** A target that does not occur is never introduced by another substitution. */
  lemma {:induction false} EscapeKeepsAbsent(s: string, e: Escaping, c: char)
    requires c !in s && c !in Replacement(e)
    ensures c !in Escape(s, e)
    decreases |s|
  {
    if s != [] {
      assert s == [s[0]] + s[1..];
      EscapeKeepsAbsent(s[1..], e, c);
    }
  }

  /** A quote substitution removes every occurrence of its quote. */
  lemma {:induction false} EscapeRemovesQuote(s: string, e: Escaping)
    requires e == DoubleQuote || e == SingleQuote
    ensures Target(e) !in Escape(s, e)
    decreases |s|
  {
    if s != [] {
      EscapeRemovesQuote(s[1..], e);
    }
  }

  /** An entity body after a `&` passes through any substitution unchanged. */
  lemma AmpBeforeBody(s: string, body: string, e: Escaping)
    requires s != [] && body <= s[1..] && Target(e) !in body
    ensures [s[0]] + Escape(s[1..], e) == [s[0]] + body + Escape(s[1..][|body|..], e)
  {
    var t := s[1..];
    assert t == body + t[|body|..];
    EscapePrefix(body, t[|body|..], e);
  }

  /** No substitution targets a character of an entity body. */
  lemma BodiesFreeOfTargets(e: Escaping)
    ensures Target(e) !in "amp;" && Target(e) !in "lt;" && Target(e) !in "gt;"
    ensures Target(e) !in "quot;" && Target(e) !in "apos;"
  {
  }

  /** A `&` and an entity body make an entity, whatever follows. */
  lemma EntityOfBody(body: string, x: string)
    requires body in ["amp;", "lt;", "gt;", "quot;", "apos;"]
    ensures StartsEntity(['&'] + body + x)
  {
    var w := ['&'] + body;
    assert (w + x)[..|w|] == w;
  }

  /** A `&` before an entity body stays the start of an entity after any substitution. */
  lemma AmpBeforeEntity(s: string, e: Escaping)
    requires s != [] && s[0] == '&' && Keeps(Amp, s[1..])
    ensures StartsEntity([s[0]] + Escape(s[1..], e))
  {
    var t := s[1..];
    var body := if "amp;" <= t then "amp;" else if "lt;" <= t then "lt;"
                else if "gt;" <= t then "gt;" else if "quot;" <= t then "quot;" else "apos;";
    assert body <= t;
    BodiesFreeOfTargets(e);
    AmpBeforeBody(s, body, e);
    EntityOfBody(body, Escape(t[|body|..], e));
  }

  /** Prepending characters keeps `AmpsOk` when each new `&` begins an entity. */
  lemma AmpsOkPrepend(w: string, r: string)
    requires AmpsOk(r)
    requires forall k :: 0 <= k < |w| && w[k] == '&' ==> StartsEntity((w + r)[k..])
    ensures AmpsOk(w + r)
  {
    forall k | |w| <= k < |w + r| && (w + r)[k] == '&'
      ensures StartsEntity((w + r)[k..])
    {
      assert (w + r)[k..] == r[k - |w|..];
    }
  }

  /** A suffix of a string with `AmpsOk` has it too. */
  lemma AmpsOkTail(s: string)
    requires s != [] && AmpsOk(s)
    ensures AmpsOk(s[1..])
  {
    forall k | 0 <= k < |s[1..]| && s[1..][k] == '&'
      ensures StartsEntity(s[1..][k..])
    {
      assert s[1..][k..] == s[k + 1..];
    }
  }

  /** A replacement text begins an entity. */
  lemma ReplacementStartsEntity(e: Escaping, r: string)
    ensures StartsEntity(Replacement(e) + r)
    ensures forall k :: 1 <= k < |Replacement(e)| ==> Replacement(e)[k] != '&'
  {
    var w := Replacement(e);
    assert (w + r)[..|w|] == w;
  }

  /** After the `&` substitution every `&` begins an entity. */
  lemma {:induction false} EscapeAmpGivesAmpsOk(s: string)
    ensures AmpsOk(Escape(s, Amp))
    decreases |s|
  {
    if s != [] {
      var rest := Escape(s[1..], Amp);
      EscapeAmpGivesAmpsOk(s[1..]);
      if s[0] == '&' && !Keeps(Amp, s[1..]) {
        ReplacementStartsEntity(Amp, rest);
        AmpsOkPrepend(Replacement(Amp), rest);
      } else {
        if s[0] == '&' {
          AmpBeforeEntity(s, Amp);
        }
        AmpsOkPrepend([s[0]], rest);
      }
    }
  }

  /** The other substitutions keep every `&` at the start of an entity. */
  lemma {:induction false} EscapeKeepsAmpsOk(s: string, e: Escaping)
    requires e != Amp
    requires AmpsOk(s)
    ensures AmpsOk(Escape(s, e))
    decreases |s|
  {
    if s != [] {
      var rest := Escape(s[1..], e);
      AmpsOkTail(s);
      EscapeKeepsAmpsOk(s[1..], e);
      if s[0] == Target(e) && !Keeps(e, s[1..]) {
        ReplacementStartsEntity(e, rest);
        AmpsOkPrepend(Replacement(e), rest);
      } else {
        if s[0] == '&' {
          assert StartsEntity(s[0..]);
          assert s[0..] == s;
          EntityBody(s);
          AmpBeforeEntity(s, e);
        }
        AmpsOkPrepend([s[0]], rest);
      }
    }
  }

  /** An entity is a `&` followed by an entity body. */
  lemma EntityBody(s: string)
    requires StartsEntity(s)
    ensures s != [] && s[0] == '&' && Keeps(Amp, s[1..])
  {
    if "&amp;" <= s { assert s[1..][..4] == s[1..5]; }
    else if "&lt;" <= s { assert s[1..][..3] == s[1..4]; }
    else if "&gt;" <= s { assert s[1..][..3] == s[1..4]; }
    else if "&quot;" <= s { assert s[1..][..5] == s[1..6]; }
    else { assert s[1..][..5] == s[1..6]; }
  }

  /** No entity contains whitespace. */
  lemma EntitiesHaveNoSpace(ent: string)
    requires ent in ["&amp;", "&lt;", "&gt;", "&quot;", "&apos;"]
    ensures ent != [] && forall q :: 0 <= q < |ent| ==> !IsSpace(ent[q])
  {
  }

  /** A non-blank word found at `k`, where only whitespace follows position
      `j`, ends before `j`. */
  lemma WordBeforeSpaces(s: string, k: nat, j: nat, w: string)
    requires k < j <= |s|
    requires forall p :: j <= p < |s| ==> IsSpace(s[p])
    requires w != [] && w <= s[k..]
    requires forall q :: 0 <= q < |w| ==> !IsSpace(w[q])
    ensures w <= s[k..j]
  {
    forall q | 0 <= q < |w|
      ensures k + q < j && s[k + q] == w[q]
    {
      assert s[k + q] == s[k..][q] == w[q];
      assert !IsSpace(s[k + q]);
    }
    assert s[k + (|w| - 1)] == w[|w| - 1] && k + (|w| - 1) < j;
    assert s[k..j][..|w|] == w;
  }

  /** An entity that starts before position `j`, where only whitespace follows,
      ends before `j`. */
  lemma EntityBeforeSpaces(s: string, k: nat, j: nat)
    requires k < j <= |s|
    requires forall p :: j <= p < |s| ==> IsSpace(s[p])
    requires StartsEntity(s[k..])
    ensures StartsEntity(s[k..j])
  {
    var ent := if "&amp;" <= s[k..] then "&amp;" else if "&lt;" <= s[k..] then "&lt;"
               else if "&gt;" <= s[k..] then "&gt;" else if "&quot;" <= s[k..] then "&quot;" else "&apos;";
    assert ent <= s[k..];
    EntitiesHaveNoSpace(ent);
    WordBeforeSpaces(s, k, j, ent);
  }

  /** An `&` kept by stripping still begins an entity. */
  lemma StrippedAmp(s: string, k: nat)
    requires AmpsOk(s)
    requires k < |Strip(s)| && Strip(s)[k] == '&'
    ensures StartsEntity(Strip(s)[k..])
  {
    StripIsInfix(s, Spaces);
    var r, i := Strip(s), StripStart(s, Spaces);
    var j := i + |r|;
    assert r == s[i..j];
    assert s[i + k] == '&' by { assert r[k] == s[i..j][k]; }
    assert forall p :: j <= p < |s| ==> IsSpace(s[p]) by {
      assert forall p :: j <= p < |s| ==> In(s[p], Spaces);
    }
    EntityBeforeSpaces(s, i + k, j);
    assert r[k..] == s[i + k..j] by { assert s[i..j][k..] == s[i + k..j]; }
  }

  /** Stripping keeps `AmpsOk`: no entity is cut. */
  lemma StripKeepsAmpsOk(s: string)
    requires AmpsOk(s)
    ensures AmpsOk(Strip(s))
  {
    forall k | 0 <= k < |Strip(s)| && Strip(s)[k] == '&'
      ensures StartsEntity(Strip(s)[k..])
    {
      StrippedAmp(s, k);
    }
  }

  /** The standard-mode escaping leaves no quote, and every `&` it leaves
      begins an entity. */
  lemma EscapeStandardIsEscaped(t: string)
    ensures var e := EscapeStandard(t);
            '"' !in e && '\'' !in e && AmpsOk(e)
  {
    var a := Escape(t, Amp);
    var l := Escape(a, Lt);
    var g := Escape(l, Gt);
    var dq := Escape(g, DoubleQuote);
    EscapeAmpGivesAmpsOk(t);
    EscapeKeepsAmpsOk(a, Lt);
    EscapeKeepsAmpsOk(l, Gt);
    EscapeKeepsAmpsOk(g, DoubleQuote);
    EscapeKeepsAmpsOk(dq, SingleQuote);
    EscapeRemovesQuote(g, DoubleQuote);
    EscapeKeepsAbsent(dq, SingleQuote, '"');
    EscapeRemovesQuote(dq, SingleQuote);
  }

  /** Stripping adds no character. */
  lemma StripKeepsAbsent(s: string, c: char)
    requires c !in s
    ensures c !in Strip(s)
  {
    StripIsInfix(s, Spaces);
    var r, i := Strip(s), StripStart(s, Spaces);
    assert forall k :: 0 <= k < |r| ==> r[k] == s[i + k];
  }

  /** The standard mode returns the unescaped text itself when it has
      nothing to escape and nothing to strip. */
  lemma StandardUnchanged(text: string, unescape: string -> string)
    requires text != []
    requires forall k :: 0 <= k < |unescape(text)| ==> !(unescape(text)[k] in "&<>\"'")
    requires Stripped(unescape(text))
    ensures CleanText(text, false, unescape) == unescape(text)
  {
    var u := unescape(text);
    EscapeStandardUnchanged(u);
    StripCharsOfStripped(u, Spaces);
  }

  /** The standard mode keeps a line break that unescaping produces inside
      the text, as `html.unescape` does for `A&#10;B`. */
  lemma StandardKeepsLineBreak(text: string, unescape: string -> string)
    requires text != [] && unescape(text) == "A\nB"
    ensures CleanText(text, false, unescape) == "A\nB"
    ensures !OneLine(CleanText(text, false, unescape))
  {
    var u := "A\nB";
    assert |u| == 3 && u[0] == 'A' && u[1] == '\n' && u[2] == 'B';
    StandardUnchanged(text, unescape);
  }

  /** In standard mode the cleaned text contains no `'` or `"`, and every `&`
      in it begins one of `&amp;` `&lt;` `&gt;` `&quot;` `&apos;`, whatever the
      unescaping returns. */
  lemma StandardOutputIsEscaped(text: string, unescape: string -> string)
    ensures var r := CleanText(text, false, unescape);
            '"' !in r && '\'' !in r && AmpsOk(r)
  {
    var e := EscapeStandard(unescape(text));
    EscapeStandardIsEscaped(unescape(text));
    StripKeepsAmpsOk(e);
    StripKeepsAbsent(e, '"');
    StripKeepsAbsent(e, '\'');
  }
}
