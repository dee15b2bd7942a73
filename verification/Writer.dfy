/** `PlaylistWriter.write`: the lines written to the output file, in order,
    taken as a sequence of lines instead of a file. */
module Writer {
  import opened Wrappers
  import opened Entries

  /** The `KeyError` raised at the first entry that lacks `raw_info` or `url`. */
  datatype WriteError = MissingRawInfo(index: nat) | MissingUrl(index: nat)

  /** An entry the writer can write completely. */
  predicate Writable(e: Entry)
  {
    e.rawInfo.Some? && e.url.Some?
  }

  /** The comment lines written after an entry's metadata line. */
  function InfoLines(e: Entry): seq<string>
  {
    e.additionalInfo.GetOr([])
  }

  /** The lines written for one entry: its metadata line, its comment lines
      and its URL, as far as the fields exist (the writer stops at the first
      missing one). */
  function EntryLines(e: Entry): seq<string>
  {
    if e.rawInfo.None? then []
    else [e.rawInfo.value] + InfoLines(e) + if e.url.Some? then [e.url.value] else []
  }

  /** The lines of the first `k` entries, in order. */
  function Body(es: seq<Entry>, k: nat): seq<string>
    requires k <= |es|
  {
    if k == 0 then [] else Body(es, k - 1) + EntryLines(es[k - 1])
  }

  /** The header followed by the lines of the first `k` entries. */
  function Serialize(es: seq<Entry>, k: nat): (lines: seq<string>)
    requires k <= |es|
    ensures lines != [] && lines[0] == Header
  {
    [Header] + Body(es, k)
  }

  /** The text of the file: each written line followed by `\n`. */
  function FileText(lines: seq<string>): string
  {
    if lines == [] then [] else lines[0] + "\n" + FileText(lines[1..])
  }

  /** The index of the first entry the writer cannot write completely, or `|es|`. */
  function FirstUnwritable(es: seq<Entry>): (i: nat)
    ensures i <= |es|
    ensures forall j :: 0 <= j < i ==> Writable(es[j])
    ensures i < |es| ==> !Writable(es[i])
  {
    if es == [] || !Writable(es[0]) then 0 else 1 + FirstUnwritable(es[1..])
  }

  /** Appending an entry's lines after the lines of the entries before it. */
  lemma WrittenThrough(es: seq<Entry>, i: nat, block: seq<string>)
    requires i < |es| && block == EntryLines(es[i])
    ensures Body(es, i) + block == Body(es, i + 1)
  {
  }

  /** Writes `items` one line at a time after `written`. */
  method WriteAll(written: seq<string>, items: seq<string>) returns (r: seq<string>)
    ensures r == written + items
  {
    r := written;
    for j := 0 to |items|
      invariant r == written + items[..j]
    {
      assert items[..j + 1] == items[..j] + [items[j]];
      r := r + [items[j]];
    }
    assert items[..|items|] == items;
  }

  /** The body of the writer's loop for one entry: its metadata line, its
      comment lines, its URL, stopping at the first missing field. */
  method WriteEntry(entry: Entry) returns (block: seq<string>, complete: bool)
    ensures block == EntryLines(entry)
    ensures complete <==> Writable(entry)
  {
    if entry.rawInfo.None? {
      return [], false;
    }
    block := [entry.rawInfo.value];
    if entry.additionalInfo.Some? {
      block := WriteAll(block, entry.additionalInfo.value);
    } else {
      assert block + [] == block;
    }
    if entry.url.None? {
      return block, false;
    }
    block := block + [entry.url.value];
    complete := true;
  }

  /** `write`: the header, then for each entry its metadata line, its comment
      lines when it has them, and its URL. An entry missing `raw_info` or
      `url` stops the writer with the lines written so far. */
  method Write(entries: seq<Entry>) returns (lines: seq<string>, err: Option<WriteError>)
    ensures var i := FirstUnwritable(entries);
            && lines == Serialize(entries, if i < |entries| then i + 1 else i)
            && err == if i == |entries| then None
                      else if entries[i].rawInfo.None? then Some(MissingRawInfo(i))
                      else Some(MissingUrl(i))
  {
    var body := [];
    for i := 0 to |entries|
      invariant i <= FirstUnwritable(entries)
      invariant body == Body(entries, i)
    {
      var block, complete := WriteEntry(entries[i]);
      WrittenThrough(entries, i, block);
      body := body + block;
      if !complete {
        assert FirstUnwritable(entries) == i;
        lines := [Header] + body;
        assert lines == Serialize(entries, i + 1);
        err := Some(if entries[i].rawInfo.None? then MissingRawInfo(i) else MissingUrl(i));
        return;
      }
    }
    assert FirstUnwritable(entries) == |entries|;
    lines, err := [Header] + body, None;
  }

  /** The number of lines written for the first `k` entries when all are complete. */
  function LineCount(es: seq<Entry>, k: nat): nat
    requires k <= |es|
  {
    if k == 0 then 1 else LineCount(es, k - 1) + 2 + |InfoLines(es[k - 1])|
  }

  /** One header line, then two lines per entry plus one per comment line. */
  lemma {:induction false} SerializeLength(es: seq<Entry>, k: nat)
    requires k <= |es|
    requires forall j :: 0 <= j < k ==> Writable(es[j])
    ensures |Serialize(es, k)| == LineCount(es, k)
  {
    if k > 0 {
      SerializeLength(es, k - 1);
      assert Body(es, k) == Body(es, k - 1) + EntryLines(es[k - 1]);
    }
  }
}

/** Reading back what the writer wrote. */
module WriterFacts {
  import opened Wrappers
  import opened Text
  import opened Entries
  import opened Parser
  import opened ParserFacts
  import opened Writer

  /** An entry whose lines the parser reads back as the same entry: a
      stripped metadata line, stripped comment lines, a stripped URL line. */
  predicate ReadsBackAsWritten(e: Entry)
  {
    && Writable(e)
    && Stripped(e.rawInfo.value) && InfoTag <= e.rawInfo.value
    && (forall j :: 0 <= j < |InfoLines(e)| ==> Stripped(InfoLines(e)[j]) && IsCommentLine(InfoLines(e)[j]))
    && Stripped(e.url.value) && IsUrlLine(e.url.value)
  }

  /** An entry whose written lines hold no line break, so that the file
      keeps each of them as one line. */
  predicate WrittenOneLine(e: Entry)
  {
    && (e.rawInfo.Some? ==> OneLine(e.rawInfo.value))
    && (forall j :: 0 <= j < |InfoLines(e)| ==> OneLine(InfoLines(e)[j]))
    && (e.url.Some? ==> OneLine(e.url.value))
  }

  /** `readlines` cuts a written line off at its `\n`. */
  lemma ReadLinesCons(w: string, rest: string)
    requires OneLine(w)
    ensures ReadLines(w + "\n" + rest) == [w] + ReadLines(rest)
  {
    var text := w + "\n" + rest;
    assert text == w + (['\n'] + rest);
    forall k | 0 <= k < |w|
      ensures !In(w[k], LineBreaks)
    {
      assert w[k] in w;
    }
    FirstInAfter(w, ['\n'] + rest, LineBreaks);
    assert text[..|w|] == w && text[|w|] == '\n';
    assert text[|w| + 1..] == rest;
  }

  /** Reading back the text of lines without line breaks gives the same lines. */
  lemma {:induction false} ReadWrittenLines(lines: seq<string>)
    requires forall j :: 0 <= j < |lines| ==> OneLine(lines[j])
    ensures ReadLines(FileText(lines)) == lines
    decreases |lines|
  {
    if lines != [] {
      ReadLinesCons(lines[0], FileText(lines[1..]));
      ReadWrittenLines(lines[1..]);
    }
  }

  /** A field holding a line break is written as one line but read back as two. */
  lemma FieldWithBreak(a: string, b: string)
    requires OneLine(a) && OneLine(b)
    ensures ReadLines(FileText([a + "\n" + b])) == [a, b]
  {
    assert FileText([a + "\n" + b]) == FileText([a, b]);
    ReadWrittenLines([a, b]);
  }

  /** The lines written for entries that read back as written hold no line break. */
  lemma {:induction false} BodyOneLine(es: seq<Entry>, k: nat)
    requires k <= |es|
    requires forall j :: 0 <= j < |es| ==> WrittenOneLine(es[j])
    ensures forall j :: 0 <= j < |Body(es, k)| ==> OneLine(Body(es, k)[j])
  {
    if k > 0 {
      BodyOneLine(es, k - 1);
      var b := EntryLines(es[k - 1]);
      assert forall j :: 0 <= j < |b| ==> OneLine(b[j]);
    }
  }

  /** What the parser records for an entry it reads back. */
  function ItemOf(e: Entry): Item
    requires Writable(e)
  {
    Described(e.rawInfo.value, InfoLines(e), e.url.value)
  }

  function ItemsOf(es: seq<Entry>, k: nat): (items: seq<Item>)
    requires k <= |es|
    requires forall j :: 0 <= j < k ==> Writable(es[j])
    ensures |items| == k
    ensures forall j :: 0 <= j < k ==> items[j] == ItemOf(es[j])
  {
    if k == 0 then [] else ItemsOf(es, k - 1) + [ItemOf(es[k - 1])]
  }

  /** Stripped comment lines are collected as they are. */
  lemma {:induction false} CommentsOfStripped(cs: seq<string>)
    requires forall j :: 0 <= j < |cs| ==> Stripped(cs[j]) && cs[j] != []
    ensures Comments(cs) == cs
    decreases |cs|
  {
    if cs != [] {
      StripCharsOfStripped(cs[0], Spaces);
      CommentsOfStripped(cs[1..]);
    }
  }

  /** Reading the lines of one entry appends its item. */
  lemma EntryReadBack(st: ParseState, e: Entry, n: nat)
    requires ReadsBackAsWritten(e)
    ensures Run(ParseState(st.items, None), EntryLines(e), n) == ParseState(st.items + [ItemOf(e)], None)
  {
    var raw, info, url := e.rawInfo.value, InfoLines(e), e.url.value;
    StripCharsOfStripped(raw, Spaces);
    StripCharsOfStripped(url, Spaces);
    forall j | 0 <= j < |info|
      ensures Strip(info[j]) == [] || IsCommentLine(Strip(info[j]))
    {
      StripCharsOfStripped(info[j], Spaces);
    }
    EntryBlock(ParseState(st.items, None), raw, info, url, n);
    CommentsOfStripped(info);
  }

  /** Reading the lines of the first `k` entries appends one item per entry, in order. */
  lemma {:induction false} BodyItems(items: seq<Item>, es: seq<Entry>, k: nat, n: nat)
    requires k <= |es|
    requires forall j :: 0 <= j < |es| ==> ReadsBackAsWritten(es[j])
    ensures forall j :: 0 <= j < k ==> Writable(es[j])
    ensures Run(ParseState(items, None), Body(es, k), n) == ParseState(items + ItemsOf(es, k), None)
  {
    if k == 0 {
      assert items + [] == items;
    } else {
      BodyItems(items, es, k - 1, n);
      var prev := Body(es, k - 1);
      var mid := ParseState(items + ItemsOf(es, k - 1), None);
      RunAppend(ParseState(items, None), prev, EntryLines(es[k - 1]), n);
      EntryReadBack(mid, es[k - 1], n + |prev|);
      assert items + ItemsOf(es, k) == mid.items + [ItemOf(es[k - 1])];
    }
  }

  /** The entry the parser builds from an entry's item keeps its written fields. */
  lemma ItemEntry(e: Entry)
    requires Writable(e)
    ensures var p := ToEntry(ItemOf(e));
            p.url == e.url && p.rawInfo == e.rawInfo && InfoLines(p) == InfoLines(e)
  {
    DescribedEntry(e.rawInfo.value, InfoLines(e), e.url.value);
  }

  /** Parsing the written playlist yields the items of its entries. */
  lemma WrittenItems(es: seq<Entry>)
    requires forall j :: 0 <= j < |es| ==> ReadsBackAsWritten(es[j])
    ensures forall j :: 0 <= j < |es| ==> Writable(es[j])
    ensures ParseLines(Serialize(es, |es|)) == Success(ToEntries(ItemsOf(es, |es|)))
  {
    HeaderAccepted(Body(es, |es|));
    BodyItems([], es, |es|, 2);
    assert [] + ItemsOf(es, |es|) == ItemsOf(es, |es|);
  }

  /** Round trip: reading and parsing the written file gives back, in order,
      each entry's URL, metadata line and comment lines. */
  lemma ParseWritten(es: seq<Entry>)
    requires forall j :: 0 <= j < |es| ==> ReadsBackAsWritten(es[j]) && WrittenOneLine(es[j])
    ensures var r := ParseLines(ReadLines(FileText(Serialize(es, |es|))));
            && r.Success?
            && |r.value| == |es|
            && forall j :: 0 <= j < |es| ==>
                 && r.value[j].url == es[j].url
                 && r.value[j].rawInfo == es[j].rawInfo
                 && InfoLines(r.value[j]) == InfoLines(es[j])
  {
    var lines := Serialize(es, |es|);
    BodyOneLine(es, |es|);
    assert forall j :: 0 <= j < |lines| ==> OneLine(lines[j]);
    ReadWrittenLines(lines);
    WrittenItems(es);
    var ps := ParseLines(lines).value;
    forall j | 0 <= j < |es|
      ensures ps[j].url == es[j].url && ps[j].rawInfo == es[j].rawInfo && InfoLines(ps[j]) == InfoLines(es[j])
    {
      ItemEntry(es[j]);
    }
  }
}
