/** `M3UParser.parse`: a line-by-line state machine over the lines of an
    extended-M3U playlist, taken over the lines already read from the file. */
module Parser {
  import opened Wrappers
  import opened Text
  import opened Entries

  /** The tag of a metadata line. */
  const InfoTag := "#EXTINF:"

  /** The `ValueError` raised for input that is not an extended-M3U playlist. */
  datatype ParseError = NotM3U

  /** A pending metadata line and the comment lines seen after it so far. */
  datatype Pending = Pending(info: string, comments: seq<string>)

  /** What the parser has read once it has seen the URL line of an entry:
      either a metadata line with its comments, or a URL alone. */
  datatype Item =
    | Described(info: string, comments: seq<string>, url: string)
    | Orphan(url: string, lineNumber: nat)

  /** The parser's state between lines: what was read so far, and the
      metadata line still waiting for its URL, if any. */
  datatype ParseState = ParseState(items: seq<Item>, pending: Option<Pending>)

  const Start := ParseState([], None)

  /** A stripped line that becomes (or completes) an entry. */
  predicate IsUrlLine(line: string)
  {
    line != [] && !("#" <= line)
  }

  /** A stripped line that may sit between a metadata line and its URL. */
  predicate IsCommentLine(line: string)
  {
    "#" <= line && !(InfoTag <= line)
  }

  /** The attribute part of a metadata line: everything before its first comma. */
  function AttrsPart(line: string): string
  {
    if ',' in line then SplitOnce(line, ',').0 else line
  }

  /** The channel name of a metadata line, unstripped: everything after its first comma. */
  function ChannelName(line: string): string
  {
    if ',' in line then SplitOnce(line, ',').1 else ""
  }

  /** The effect of one whitespace token of the attribute part on the pending entry. */
  function ApplyToken(e: Entry, part: string): Entry
  {
    if InfoTag <= part then
      assert part[7] == ':';
      e.(duration := Some(Strip(SecondField(part, ':'))))
    else if '=' in part then
      var (key, value) := SplitOnce(part, '=');
      e.(attributes := Put(e.attributes, key, StripChars(value, Quotes)))
    else e
  }

  /** The pending entry after the first `k` tokens of `parts`. */
  function ApplyTokens(e: Entry, parts: seq<string>, k: nat): Entry
    requires k <= |parts|
  {
    if k == 0 then e else ApplyToken(ApplyTokens(e, parts, k - 1), parts[k - 1])
  }

  /** The pending entry a stripped metadata line starts. */
  function InfoEntry(line: string): Entry
  {
    var pending := Entry(None, Some(Strip(ChannelName(line))), None, [], Some(line), None);
    var parts := Words(AttrsPart(line));
    ApplyTokens(pending, parts, |parts|)
  }

  /** A comment line stored in the pending entry's `additional_info`. */
  function AddInfo(e: Entry, line: string): Entry
  {
    e.(additionalInfo := Some(e.additionalInfo.GetOr([]) + [line]))
  }

  /** The entry made for a URL line that has no metadata line before it. */
  function OrphanEntry(url: string, lineNumber: nat): Entry
  {
    var name := "Unknown Channel " + NatToString(lineNumber);
    Entry(Some(url), Some(name), None, [], Some("#EXTINF:-1," + name), None)
  }

  /** The pending entry once the comment lines `cs` have been stored in it;
      `additional_info` exists only once there is a comment. */
  function WithInfo(e: Entry, cs: seq<string>): Entry
  {
    if cs == [] then e else e.(additionalInfo := Some(e.additionalInfo.GetOr([]) + cs))
  }

  /** The `current_entry` dict the parser holds for a pending metadata line. */
  function PendingEntry(p: Pending): Entry
  {
    WithInfo(InfoEntry(p.info), p.comments)
  }

  /** The entry dict the parser appends for an item. */
  function ToEntry(item: Item): Entry
  {
    match item
    case Described(info, cs, url) => PendingEntry(Pending(info, cs)).(url := Some(url))
    case Orphan(url, n) => OrphanEntry(url, n)
  }

  function ToEntries(items: seq<Item>): (es: seq<Entry>)
    ensures |es| == |items| && forall j :: 0 <= j < |items| ==> es[j] == ToEntry(items[j])
  {
    seq(|items|, j requires 0 <= j < |items| => ToEntry(items[j]))
  }

  /** What line number `lineNumber` (1-based) does to the parser's state. */
  function Step(st: ParseState, raw: string, lineNumber: nat): ParseState
  {
    var line := Strip(raw);
    if line == [] then st
    else if InfoTag <= line then ParseState(st.items, Some(Pending(line, [])))
    else if "#" <= line then
      match st.pending
      case Some(p) => ParseState(st.items, Some(Pending(p.info, p.comments + [line])))
      case None => st
    else
      match st.pending
      case Some(p) => ParseState(st.items + [Described(p.info, p.comments, line)], None)
      case None => ParseState(st.items + [Orphan(line, lineNumber)], None)
  }

  /** The state after the lines `lines`, the first of which is line number `lineNumber`. */
  function Run(st: ParseState, lines: seq<string>, lineNumber: nat): ParseState
    decreases |lines|
  {
    if lines == [] then st else Run(Step(st, lines[0], lineNumber), lines[1..], lineNumber + 1)
  }

  /** `readlines` on a file opened in text mode: the text cut into lines at
      each `\n`, `\r` or `\r\n`. The line ends themselves are dropped, since
      the parser strips every line it reads and they are whitespace. */
  function ReadLines(text: string): (lines: seq<string>)
    ensures text == [] <==> lines == []
    ensures forall j :: 0 <= j < |lines| ==> OneLine(lines[j])
    decreases |text|
  {
    if text == [] then []
    else
      var n := FirstIn(text, LineBreaks);
      assert OneLine(text[..n]) by {
        forall c | c in text[..n] ensures !In(c, LineBreaks) {
          var k :| 0 <= k < n && text[..n][k] == c;
        }
      }
      if n == |text| then [text]
      else
        var next := if text[n] == '\r' && n + 1 < |text| && text[n + 1] == '\n' then n + 2 else n + 1;
        [text[..n]] + ReadLines(text[next..])
  }

  /** The result of `parse` on the lines of a file. */
  function ParseLines(lines: seq<string>): Result<seq<Entry>, ParseError>
  {
    if |lines| == 0 || !(Header <= Strip(lines[0])) then Failure(NotM3U)
    else Success(ToEntries(Run(Start, lines, 1).items))
  }

  /** The tokens of the attribute part only set `duration` and `attributes`. */
  lemma {:induction false} TokensKeepOtherFields(e: Entry, parts: seq<string>, k: nat)
    requires k <= |parts|
    ensures var r := ApplyTokens(e, parts, k);
            r.url == e.url && r.name == e.name && r.rawInfo == e.rawInfo && r.additionalInfo == e.additionalInfo
  {
    if k > 0 {
      var prev := ApplyTokens(e, parts, k - 1);
      TokensKeepOtherFields(e, parts, k - 1);
      TokenKeepsOtherFields(prev, parts[k - 1]);
      assert ApplyTokens(e, parts, k) == ApplyToken(prev, parts[k - 1]);
    }
  }

  /** One token only sets `duration` or `attributes`. */
  lemma TokenKeepsOtherFields(e: Entry, part: string)
    ensures var r := ApplyToken(e, part);
            r.url == e.url && r.name == e.name && r.rawInfo == e.rawInfo && r.additionalInfo == e.additionalInfo
  {
  }

  /** Storing one more comment in the pending entry is storing the longer list. */
  lemma AddInfoCollects(p: Pending, line: string)
    ensures AddInfo(PendingEntry(p), line) == PendingEntry(Pending(p.info, p.comments + [line]))
  {
    var e := InfoEntry(p.info);
    var parts := Words(AttrsPart(p.info));
    TokensKeepOtherFields(Entry(None, Some(Strip(ChannelName(p.info))), None, [], Some(p.info), None), parts, |parts|);
    assert [] + [line] == [line];
    if p.comments != [] {
      assert e.additionalInfo.GetOr([]) + p.comments + [line] == e.additionalInfo.GetOr([]) + (p.comments + [line]);
    }
  }

  /** Reads one stripped metadata line into a fresh pending entry. */
  method ReadInfoLine(line: string) returns (e: Entry)
    ensures e == InfoEntry(line)
  {
    var attrsPart, channelName;
    if ',' in line {
      attrsPart, channelName := SplitOnce(line, ',').0, SplitOnce(line, ',').1;
    } else {
      attrsPart, channelName := line, "";
    }
    e := Entry(None, Some(Strip(channelName)), None, [], Some(line), None);
    var parts := Words(attrsPart);
    ghost var initial := e;
    for i := 0 to |parts|
      invariant e == ApplyTokens(initial, parts, i)
    {
      var part := parts[i];
      if InfoTag <= part {
        assert part[7] == ':';
        e := e.(duration := Some(Strip(SecondField(part, ':'))));
      } else if '=' in part {
        var (key, value) := SplitOnce(part, '=');
        e := e.(attributes := Put(e.attributes, key, StripChars(value, Quotes)));
      }
    }
  }

  /** `M3UParser.parse` over the lines of the playlist file. */
  method Parse(lines: seq<string>) returns (r: Result<seq<Entry>, ParseError>)
    ensures r == ParseLines(lines)
    ensures r.Failure? <==> |lines| == 0 || !(Header <= Strip(lines[0]))
  {
    if |lines| == 0 || !(Header <= Strip(lines[0])) {
      return Failure(NotM3U);
    }
    var entries: seq<Entry> := [];
    var current: Option<Entry> := None;
    ghost var st := Start;
    for i := 0 to |lines|
      invariant Run(st, lines[i..], i + 1) == Run(Start, lines, 1)
      invariant entries == ToEntries(st.items)
      invariant current == if st.pending.Some? then Some(PendingEntry(st.pending.value)) else None
    {
      var line := Strip(lines[i]);
      if line == [] {
      } else if InfoTag <= line {
        var e := ReadInfoLine(line);
        current := Some(e);
      } else if "#" <= line && current.Some? {
        AddInfoCollects(st.pending.value, line);
        current := Some(AddInfo(current.value, line));
      } else if !("#" <= line) && current.Some? {
        entries := entries + [current.value.(url := Some(line))];
        current := None;
      } else if !("#" <= line) {
        entries := entries + [OrphanEntry(line, i + 1)];
      }
      st := Step(st, lines[i], i + 1);
      assert lines[i..][1..] == lines[i + 1..];
    }
    assert lines[|lines|..] == [];
    return Success(entries);
  }
}

/** What the parser guarantees about the entries it returns. */
module ParserFacts {
  import opened Wrappers
  import opened Text
  import opened Entries
  import opened Parser

  /** The stripped URL lines among `lines`, in order. */
  function UrlLines(lines: seq<string>): (urls: seq<string>)
    ensures |urls| <= |lines|
    ensures forall j :: 0 <= j < |urls| ==> IsUrlLine(urls[j]) && Stripped(urls[j])
    decreases |lines|
  {
    if lines == [] then []
    else (if IsUrlLine(Strip(lines[0])) then [Strip(lines[0])] else []) + UrlLines(lines[1..])
  }

  /** `readlines` keeps the `\n` that ends each line (the last line may have
      none). The parser strips every line, so it reads the same lines with or
      without their ends. */
  lemma {:induction false} RunIgnoresLineEnds(st: ParseState, lines: seq<string>, ended: seq<string>, n: nat)
    requires |ended| == |lines|
    requires forall j :: 0 <= j < |lines| ==> ended[j] == lines[j] || ended[j] == lines[j] + "\n"
    ensures Run(st, ended, n) == Run(st, lines, n)
    decreases |lines|
  {
    if lines != [] {
      StripAppend(lines[0], '\n', Spaces);
      assert Step(st, ended[0], n) == Step(st, lines[0], n);
      RunIgnoresLineEnds(Step(st, lines[0], n), lines[1..], ended[1..], n + 1);
    }
  }

  /** Parsing the lines as `readlines` returns them, with their ends, is
      parsing them without. */
  lemma ParseIgnoresLineEnds(lines: seq<string>, ended: seq<string>)
    requires |ended| == |lines|
    requires forall j :: 0 <= j < |lines| ==> ended[j] == lines[j] || ended[j] == lines[j] + "\n"
    ensures ParseLines(ended) == ParseLines(lines)
  {
    RunIgnoresLineEnds(Start, lines, ended, 1);
    if lines != [] {
      StripAppend(lines[0], '\n', Spaces);
    }
  }

  /** A file that starts with the header line is accepted, and the header
      line itself contributes nothing. */
  lemma HeaderAccepted(rest: seq<string>)
    ensures ParseLines([Header] + rest) == Success(ToEntries(Run(Start, rest, 2).items))
  {
    StripCharsOfStripped(Header, Spaces);
    assert ([Header] + rest)[0] == Header;
    RunAppend(Start, [Header], rest, 1);
    assert Run(Start, [Header], 1) == Start;
  }

  /** Running the parser over two blocks of lines is running it over each in turn. */
  lemma {:induction false} RunAppend(st: ParseState, a: seq<string>, b: seq<string>, n: nat)
    ensures Run(st, a + b, n) == Run(Run(st, a, n), b, n + |a|)
    decreases |a|
  {
    if a == [] {
      assert a + b == b;
    } else {
      assert (a + b)[0] == a[0] && (a + b)[1..] == a[1..] + b;
      RunAppend(Step(st, a[0], n), a[1..], b, n + 1);
    }
  }

  /** The `url` of each item, in order. */
  function ItemUrls(items: seq<Item>): (us: seq<string>)
    ensures |us| == |items| && forall j :: 0 <= j < |items| ==> us[j] == items[j].url
  {
    seq(|items|, j requires 0 <= j < |items| => items[j].url)
  }

  /** One line appends an item exactly when it is a URL line, and then with that URL. */
  lemma StepUrls(st: ParseState, raw: string, n: nat)
    ensures ItemUrls(Step(st, raw, n).items)
         == ItemUrls(st.items) + if IsUrlLine(Strip(raw)) then [Strip(raw)] else []
  {
    var items := Step(st, raw, n).items;
    if IsUrlLine(Strip(raw)) {
      assert ItemUrls(items) == ItemUrls(st.items) + [Strip(raw)];
    } else {
      assert ItemUrls(items) == ItemUrls(st.items) + [];
    }
  }

  /** Items are only ever appended, one per URL line, carrying that line as `url`. */
  lemma {:induction false} RunUrls(st: ParseState, lines: seq<string>, n: nat)
    ensures ItemUrls(Run(st, lines, n).items) == ItemUrls(st.items) + UrlLines(lines)
    decreases |lines|
  {
    if lines == [] {
      assert ItemUrls(st.items) + [] == ItemUrls(st.items);
    } else {
      var next := Step(st, lines[0], n);
      var here := if IsUrlLine(Strip(lines[0])) then [Strip(lines[0])] else [];
      RunUrls(next, lines[1..], n + 1);
      StepUrls(st, lines[0], n);
      assert UrlLines(lines) == here + UrlLines(lines[1..]);
      AppendAssoc(ItemUrls(st.items), here, UrlLines(lines[1..]));
    }
  }

  /** Appending to a concatenation appends to its second part. */
  lemma AppendAssoc(a: seq<string>, b: seq<string>, c: seq<string>)
    ensures (a + b) + c == a + (b + c)
  {
  }

  /** An entry is built with its item's URL. */
  lemma ToEntryUrl(it: Item)
    ensures ToEntry(it).url == Some(it.url)
  {
  }

  /** `parse` returns one entry per stripped, non-blank line not starting
      with `#`, in the order of those lines, with that line as its `url`. */
  lemma ParsedUrls(lines: seq<string>)
    requires ParseLines(lines).Success?
    ensures var es := ParseLines(lines).value;
            var urls := UrlLines(lines);
            && |es| == |urls|
            && forall j :: 0 <= j < |es| ==>
                 es[j].url == Some(urls[j]) && urls[j] != [] && urls[j][0] != '#' && Stripped(urls[j])
  {
    RunUrls(Start, lines, 1);
    var items := Run(Start, lines, 1).items;
    assert ItemUrls(Start.items) + UrlLines(lines) == UrlLines(lines);
    var es := ParseLines(lines).value;
    assert es == ToEntries(items);
    forall j | 0 <= j < |items|
      ensures es[j].url == Some(UrlLines(lines)[j])
    {
      ToEntryUrl(items[j]);
    }
  }

  /** The stripped, non-blank lines of `lines`, in order. */
  function Comments(lines: seq<string>): (cs: seq<string>)
    ensures |cs| <= |lines|
    decreases |lines|
  {
    if lines == [] then []
    else (if Strip(lines[0]) == [] then [] else [Strip(lines[0])]) + Comments(lines[1..])
  }

  /** Comment lines after a metadata line are collected, in order, with the
      pending metadata line; blank lines are skipped. */
  lemma {:induction false} CommentsCollected(items: seq<Item>, p: Pending, mids: seq<string>, n: nat)
    requires forall k :: 0 <= k < |mids| ==> Strip(mids[k]) == [] || IsCommentLine(Strip(mids[k]))
    ensures Run(ParseState(items, Some(p)), mids, n)
         == ParseState(items, Some(Pending(p.info, p.comments + Comments(mids))))
    decreases |mids|
  {
    if mids == [] {
      assert p.comments + [] == p.comments;
    } else {
      var line := Strip(mids[0]);
      var here: seq<string> := if line == [] then [] else [line];
      var rest := mids[1..];
      CommentStep(items, p, mids[0], n);
      CommentsCollected(items, Pending(p.info, p.comments + here), rest, n + 1);
      assert Comments(mids) == here + Comments(rest);
      assert (p.comments + here) + Comments(rest) == p.comments + (here + Comments(rest));
    }
  }

  /** One blank or comment line under a pending metadata line. */
  lemma CommentStep(items: seq<Item>, p: Pending, raw: string, n: nat)
    requires Strip(raw) == [] || IsCommentLine(Strip(raw))
    ensures Step(ParseState(items, Some(p)), raw, n)
         == ParseState(items, Some(Pending(p.info, p.comments + if Strip(raw) == [] then [] else [Strip(raw)])))
  {
    if Strip(raw) == [] {
      assert p.comments + [] == p.comments;
    }
  }

  /** A metadata line, comment or blank lines, then a URL line: exactly one
      entry is appended, made from the metadata line, with the comments and
      the URL line, and nothing is left pending. Whatever was pending before
      the metadata line is discarded. */
  lemma EntryBlock(st: ParseState, info: string, mids: seq<string>, url: string, n: nat)
    requires InfoTag <= Strip(info)
    requires forall k :: 0 <= k < |mids| ==> Strip(mids[k]) == [] || IsCommentLine(Strip(mids[k]))
    requires IsUrlLine(Strip(url))
    ensures Run(st, [info] + mids + [url], n)
         == ParseState(st.items + [Described(Strip(info), Comments(mids), Strip(url))], None)
  {
    RunAppend(st, [info] + mids, [url], n);
    RunAppend(st, [info], mids, n);
    assert Run(st, [info], n) == ParseState(st.items, Some(Pending(Strip(info), [])));
    CommentsCollected(st.items, Pending(Strip(info), []), mids, n + 1);
    assert [] + Comments(mids) == Comments(mids);
  }

  /** The entry appended for a metadata line followed by comment lines and a
      URL: `raw_info` is the stripped metadata line, `name` its text after the
      first comma, stripped (empty without a comma), `additional_info` the
      comment lines when there is at least one, `url` the URL line. */
  lemma DescribedEntry(info: string, cs: seq<string>, url: string)
    ensures var e := ToEntry(Described(info, cs, url));
            && e.url == Some(url)
            && e.rawInfo == Some(info)
            && e.additionalInfo == (if cs == [] then None else Some(cs))
            && (',' !in info ==> e.name == Some(""))
            && forall i :: 0 <= i < |info| && info[i] == ',' && ',' !in info[..i] ==> e.name == Some(Strip(info[i + 1..]))
  {
    var parts := Words(AttrsPart(info));
    var pending := Entry(None, Some(Strip(ChannelName(info))), None, [], Some(info), None);
    TokensKeepOtherFields(pending, parts, |parts|);
    assert [] + cs == cs;
    forall i | 0 <= i < |info| && info[i] == ',' && ',' !in info[..i]
      ensures ChannelName(info) == info[i + 1..]
    {
      var (a, b) := SplitOnce(info, ',');
      assert info == a + [','] + b;
      assert forall j :: 0 <= j < |a| ==> info[j] == a[j];
      assert forall j :: |a| < j <= |info| ==> info[..j][|a|] == ',';
    }
  }

  /** Lines that are blank or start with `#` never add an entry: a trailing
      metadata line without a URL yields nothing. */
  lemma {:induction false} TrailingLinesAddNothing(st: ParseState, tail: seq<string>, n: nat)
    requires forall k :: 0 <= k < |tail| ==> Strip(tail[k]) == [] || "#" <= Strip(tail[k])
    ensures Run(st, tail, n).items == st.items
    decreases |tail|
  {
    if tail != [] {
      TrailingLinesAddNothing(Step(st, tail[0], n), tail[1..], n + 1);
    }
  }

  /** A URL line at index `i` of the file with nothing pending becomes an
      entry named after its 1-based line number, blank lines included, with
      empty attributes. */
  lemma OrphanNumbering(lines: seq<string>, i: nat)
    requires i < |lines|
    requires Run(Start, lines[..i], 1).pending.None?
    requires IsUrlLine(Strip(lines[i]))
    ensures var before := Run(Start, lines[..i], 1).items;
            Run(Start, lines[..i + 1], 1) == ParseState(before + [Orphan(Strip(lines[i]), i + 1)], None)
    ensures var name := "Unknown Channel " + NatToString(i + 1);
            ToEntry(Orphan(Strip(lines[i]), i + 1))
              == Entry(Some(Strip(lines[i])), Some(name), None, [], Some("#EXTINF:-1," + name), None)
  {
    assert lines[..i + 1] == lines[..i] + [lines[i]];
    RunAppend(Start, lines[..i], [lines[i]], 1);
  }

  /** A token `key=value` of the attribute part, `key` being the text before
      its first `=`, sets `key` to `value` with its surrounding quote
      characters stripped: a new key goes last, an existing one is
      overwritten in place, and nothing else changes. */
  lemma AttributeToken(e: Entry, part: string, key: string, value: string)
    requires !(InfoTag <= part)
    requires '=' !in key && part == key + ['='] + value
    ensures var r := ApplyToken(e, part);
            && Lookup(r.attributes, key) == Some(StripChars(value, Quotes))
            && (forall k :: k != key ==> Lookup(r.attributes, k) == Lookup(e.attributes, k))
            && Keys(r.attributes) == (if key in Keys(e.attributes) then Keys(e.attributes) else Keys(e.attributes) + [key])
            && r.duration == e.duration && r.name == e.name && r.rawInfo == e.rawInfo
  {
    SplitOnceOf(key, '=', value);
  }

  /** The `#EXTINF:` token sets `duration` to the text after its first `:` up
      to the next `:`, stripped. */
  lemma DurationOfToken(e: Entry, d: string, rest: string)
    requires ':' !in d
    requires rest == [] || rest[0] == ':'
    ensures ApplyToken(e, InfoTag + d + rest) == e.(duration := Some(Strip(d)))
  {
    var part := InfoTag + d + rest;
    assert part == "#EXTINF" + [':'] + (d + rest);
    SplitOnceOf("#EXTINF", ':', d + rest);
    if rest != [] {
      FirstInAfter(d, rest, Just(':'));
    }
    assert (d + rest)[..|d|] == d;
  }

  /** A comment line with nothing pending is ignored. */
  lemma CommentWithoutPending(items: seq<Item>, raw: string, n: nat)
    requires IsCommentLine(Strip(raw))
    ensures Step(ParseState(items, None), raw, n) == ParseState(items, None)
  {
  }
}
