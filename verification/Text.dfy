/** The Python `str` operations the playlist pipeline relies on, over `seq<char>`. */
module Text {

  /** The characters for which Python's `str.isspace()` holds. `str.strip()`,
      `str.split()` and the regular-expression class `\s` all use this class. */
  predicate IsSpace(c: char)
  {
    || c == ' ' || ('\t' <= c <= '\r') || ('\U{001C}' <= c <= '\U{001F}')
    || c == '\U{0085}' || c == '\U{00A0}' || c == '\U{1680}'
    || ('\U{2000}' <= c <= '\U{200A}') || c == '\U{2028}' || c == '\U{2029}'
    || c == '\U{202F}' || c == '\U{205F}' || c == '\U{3000}'
  }

  /** A class of characters that `strip` may remove or `split` may cut at. */
  datatype CharClass = Spaces | Quotes | LineBreaks | Just(c: char)

  /** Membership in a class; `Quotes` are the characters of Python's `'"\''`,
      `LineBreaks` the characters at which reading a text file ends a line. */
  predicate In(c: char, cls: CharClass)
  {
    match cls
    case Spaces => IsSpace(c)
    case Quotes => c == '"' || c == '\''
    case LineBreaks => c == '\n' || c == '\r'
    case Just(d) => c == d
  }

  /** `s` with its leading characters from `cs` removed. */
  function TrimLeft(s: string, cs: CharClass): (r: string)
    ensures |r| <= |s|
    ensures r == [] || !In(r[0], cs)
  {
    if s != [] && In(s[0], cs) then TrimLeft(s[1..], cs) else s
  }

  /** `s` with its trailing characters from `cs` removed. */
  function TrimRight(s: string, cs: CharClass): (r: string)
    ensures |r| <= |s|
    ensures r == [] || !In(r[|r| - 1], cs)
  {
    if s != [] && In(s[|s| - 1], cs) then TrimRight(s[..|s| - 1], cs) else s
  }

  /** What `TrimLeft` cut off are characters of `cs`, and the rest is a suffix. */
  lemma {:induction false} TrimLeftIsSuffix(s: string, cs: CharClass)
    ensures var r := TrimLeft(s, cs);
            r == s[|s| - |r|..] && forall k :: 0 <= k < |s| - |r| ==> In(s[k], cs)
    decreases |s|
  {
    if s != [] && In(s[0], cs) {
      TrimLeftIsSuffix(s[1..], cs);
    }
  }

  /** A trailing character of `cs` is trimmed from the left along with the
      rest when nothing else is left, and is kept otherwise. */
  lemma {:induction false} TrimLeftAppend(s: string, c: char, cs: CharClass)
    requires In(c, cs)
    ensures TrimLeft(s + [c], cs) == if TrimLeft(s, cs) == [] then [] else TrimLeft(s, cs) + [c]
    decreases |s|
  {
    if s == [] {
      assert TrimLeft([c], cs) == TrimLeft([c][1..], cs);
    } else {
      assert (s + [c])[0] == s[0] && (s + [c])[1..] == s[1..] + [c];
      if In(s[0], cs) {
        TrimLeftAppend(s[1..], c, cs);
      }
    }
  }

  /** Stripping ignores one more trailing character of `cs`. */
  lemma StripAppend(s: string, c: char, cs: CharClass)
    requires In(c, cs)
    ensures StripChars(s + [c], cs) == StripChars(s, cs)
  {
    TrimLeftAppend(s, c, cs);
    var t := TrimLeft(s, cs);
    if t != [] {
      assert (t + [c])[..|t|] == t;
    }
  }

  /** What `TrimRight` cut off are characters of `cs`, and the rest is a prefix. */
  lemma {:induction false} TrimRightIsPrefix(s: string, cs: CharClass)
    ensures var r := TrimRight(s, cs);
            r == s[..|r|] && forall k :: |r| <= k < |s| ==> In(s[k], cs)
    decreases |s|
  {
    if s != [] && In(s[|s| - 1], cs) {
      TrimRightIsPrefix(s[..|s| - 1], cs);
    }
  }

  /** Where `StripChars(s, cs)` starts inside `s`. */
  function StripStart(s: string, cs: CharClass): nat
  {
    |s| - |TrimLeft(s, cs)|
  }

  /** Python's `s.strip(chars)`: `s` without its leading and trailing characters of `cs`. */
  function StripChars(s: string, cs: CharClass): (r: string)
    ensures |r| <= |s|
    ensures IsStripped(r, cs)
  {
    TrimRightIsPrefix(TrimLeft(s, cs), cs);
    TrimRight(TrimLeft(s, cs), cs)
  }

  predicate IsStripped(s: string, cs: CharClass)
  {
    s == [] || (!In(s[0], cs) && !In(s[|s| - 1], cs))
  }

  /** The result of `StripChars` is the infix of `s` starting at `StripStart`,
      and everything cut off on either side belongs to `cs`. */
  lemma StripIsInfix(s: string, cs: CharClass)
    ensures var r, i := StripChars(s, cs), StripStart(s, cs);
            && i + |r| <= |s|
            && r == s[i..i + |r|]
            && (forall k :: 0 <= k < i ==> In(s[k], cs))
            && (forall k :: i + |r| <= k < |s| ==> In(s[k], cs))
  {
    TrimLeftIsSuffix(s, cs);
    TrimRightIsPrefix(TrimLeft(s, cs), cs);
  }

  /** Stripping a string that has nothing to strip leaves it alone. */
  lemma StripCharsOfStripped(s: string, cs: CharClass)
    requires IsStripped(s, cs)
    ensures StripChars(s, cs) == s
  {
  }

  /** Python's `s.strip()`. */
  function Strip(s: string): string
  {
    StripChars(s, Spaces)
  }

  predicate Stripped(s: string)
  {
    IsStripped(s, Spaces)
  }

  /** A string that a text file holds as one line: it has no line break. */
  predicate OneLine(s: string)
  {
    '\n' !in s && '\r' !in s
  }

  /** The first index of `s` holding a character of `cs`, or `|s|` if none. */
  function FirstIn(s: string, cs: CharClass): (n: nat)
    ensures n <= |s|
    ensures n < |s| ==> In(s[n], cs)
    ensures forall k :: 0 <= k < n ==> !In(s[k], cs)
  {
    if s == [] || In(s[0], cs) then 0 else 1 + FirstIn(s[1..], cs)
  }

  /** The first-index search stops at the first character of `cs`, whatever follows. */
  lemma FirstInAfter(w: string, y: string, cs: CharClass)
    requires forall k :: 0 <= k < |w| ==> !In(w[k], cs)
    requires y != [] && In(y[0], cs)
    ensures FirstIn(w + y, cs) == |w|
  {
    assert forall k :: 0 <= k < |w| ==> (w + y)[k] == w[k];
    assert (w + y)[|w|] == y[0];
  }

  /** Python's `s.split(sep, 1)` for a separator that occurs in `s`. */
  function SplitOnce(s: string, sep: char): (parts: (string, string))
    requires sep in s
    ensures s == parts.0 + [sep] + parts.1
    ensures sep !in parts.0
  {
    var i := FirstIn(s, Just(sep));
    (s[..i], s[i + 1..])
  }

  /** Python's `s.split(sep)[1]` for a separator that occurs in `s`: the text
      between the first and the second separator (or to the end). */
  function SecondField(s: string, sep: char): (f: string)
    requires sep in s
    ensures sep !in f
  {
    var rest := SplitOnce(s, sep).1;
    rest[..FirstIn(rest, Just(sep))]
  }

  /** Splitting at the first separator finds the part with no separator in it. */
  lemma SplitOnceOf(a: string, sep: char, b: string)
    requires sep !in a
    ensures sep in a + [sep] + b
    ensures SplitOnce(a + [sep] + b, sep) == (a, b)
  {
    var s := a + [sep] + b;
    assert s == a + ([sep] + b);
    FirstInAfter(a, [sep] + b, Just(sep));
    assert s[..|a|] == a && s[|a| + 1..] == b;
  }

  /** The second field of a string with exactly one separator is what follows it. */
  lemma SecondFieldOf(a: string, sep: char, b: string)
    requires sep !in a && sep !in b
    ensures sep in a + [sep] + b
    ensures SecondField(a + [sep] + b, sep) == b
  {
    SplitOnceOf(a, sep, b);
  }

  /** Stripping the characters of `cs` from a string enclosed in one of them,
      with none of them inside, gives back the inside. */
  lemma StripEnclosed(c: char, v: string, cs: CharClass)
    requires In(c, cs)
    requires forall k :: 0 <= k < |v| ==> !In(v[k], cs)
    ensures StripChars([c] + v + [c], cs) == v
  {
    var s := [c] + v + [c];
    assert s[1..] == v + [c];
    if v == [] {
      assert TrimLeft([c], cs) == TrimLeft([], cs);
    } else {
      assert (v + [c])[0] == v[0];
      assert TrimLeft(s, cs) == v + [c];
      assert (v + [c])[..|v|] == v;
      assert TrimRight(v + [c], cs) == TrimRight(v, cs);
    }
  }

  /** A maximal run of non-whitespace characters. */
  predicate IsWord(w: string)
  {
    w != [] && forall k :: 0 <= k < |w| ==> !IsSpace(w[k])
  }

  /** Python's `s.split()`: the maximal runs of non-whitespace characters. */
  function Words(s: string): (ws: seq<string>)
    ensures forall i :: 0 <= i < |ws| ==> IsWord(ws[i])
    decreases |s|
  {
    var t := TrimLeft(s, Spaces);
    if t == [] then []
    else
      var n := FirstIn(t, Spaces);
      assert IsWord(t[..n]);
      [t[..n]] + Words(t[n..])
  }

  /** Python's `sep.join(ws)`. */
  function Join(ws: seq<string>, sep: string): string
  {
    if ws == [] then []
    else if |ws| == 1 then ws[0]
    else ws[0] + sep + Join(ws[1..], sep)
  }

  /** A leading whitespace character does not change the words. */
  lemma WordsSkipSpace(c: char, s: string)
    requires IsSpace(c)
    ensures Words([c] + s) == Words(s)
  {
    assert ([c] + s)[1..] == s;
  }

  /** A single word splits to itself. */
  lemma WordsOfWord(w: string)
    requires IsWord(w)
    ensures Words(w) == [w]
  {
    assert TrimLeft(w, Spaces) == w;
    var n := FirstIn(w, Spaces);
    assert n == |w|;
    assert w[..n] == w && w[n..] == [];
    assert Words([]) == [];
  }

  /** A word followed by a space splits off as the first word. */
  lemma WordsOfSpaced(w: string, rest: string)
    requires IsWord(w)
    ensures Words(w + [' '] + rest) == [w] + Words(rest)
  {
    var s := w + ([' '] + rest);
    assert s[0] == w[0];
    assert TrimLeft(s, Spaces) == s;
    FirstInAfter(w, [' '] + rest, Spaces);
    assert Words(s) == [s[..|w|]] + Words(s[|w|..]);
    assert s[..|w|] == w && s[|w|..] == [' '] + rest;
    WordsSkipSpace(' ', rest);
    assert w + [' '] + rest == s;
  }

  /** Splitting a string joined with single spaces gives back its words. */
  lemma {:induction false} WordsOfJoin(ws: seq<string>)
    requires forall i :: 0 <= i < |ws| ==> IsWord(ws[i])
    ensures Words(Join(ws, " ")) == ws
  {
    if |ws| == 1 {
      WordsOfWord(ws[0]);
    } else if |ws| > 1 {
      var tail := ws[1..];
      assert ws == [ws[0]] + tail;
      assert forall i :: 0 <= i < |tail| ==> IsWord(tail[i]) by {
        forall i | 0 <= i < |tail| ensures IsWord(tail[i]) {
          assert tail[i] == ws[i + 1];
        }
      }
      WordsOfJoin(tail);
      var joined := Join(tail, " ");
      assert Join(ws, " ") == ws[0] + " " + joined;
      WordsOfSpaced(ws[0], joined);
    }
  }

  /** Python's `s.replace(pattern, replacement)`: non-overlapping occurrences, left to right. */
  function ReplaceAll(s: string, pattern: string, replacement: string): (r: string)
    requires pattern != []
    ensures pattern[0] !in s ==> r == s
    ensures |replacement| <= |pattern| ==> |r| <= |s|
    decreases |s|
  {
    if s == [] then []
    else if pattern <= s then replacement + ReplaceAll(s[|pattern|..], pattern, replacement)
    else [s[0]] + ReplaceAll(s[1..], pattern, replacement)
  }

  function DigitChar(d: nat): char
    requires d < 10
  {
    "0123456789"[d]
  }

  /** Python's `str(n)` for a non-negative integer. */
  function NatToString(n: nat): (r: string)
    ensures r != [] && forall k :: 0 <= k < |r| ==> '0' <= r[k] <= '9'
  {
    if n < 10 then [DigitChar(n)] else NatToString(n / 10) + [DigitChar(n % 10)]
  }

  /** Python's `str(i)` for an integer. */
  function IntToString(i: int): string
  {
    if i < 0 then "-" + NatToString(-i) else NatToString(i)
  }
}
