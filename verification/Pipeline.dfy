/** The cleaner's output handed to the writer and read back by the parser,
    the order in which the command-line tool chains the three steps. */
module Pipeline {
  import opened Wrappers
  import opened Text
  import opened Entries
  import opened Parser
  import opened TextCleaning
  import opened Cleaner
  import opened Writer
  import opened WriterFacts

  /** Comment lines the parser would collect as they are: stripped `#`
      lines that do not start with `#EXTINF:`. */
  predicate CommentsRead(e: Entry)
  {
    forall j :: 0 <= j < |InfoLines(e)| ==> Stripped(InfoLines(e)[j]) && IsCommentLine(InfoLines(e)[j])
  }

  /** The fields cleaning leaves as they are, or only strips, hold no line
      break: the URL, the duration, the attribute keys and the comment lines. */
  predicate RawFieldsOneLine(e: Entry)
  {
    && (e.url.Some? ==> OneLine(e.url.value))
    && OneLine(e.duration.GetOr("-1"))
    && (forall i :: 0 <= i < |e.attributes| ==> OneLine(e.attributes[i].0))
    && (forall j :: 0 <= j < |InfoLines(e)| ==> OneLine(InfoLines(e)[j]))
  }

  /** The cleaned name and attribute values hold no line break. */
  predicate CleanedFieldsOneLine(e: Entry, aggressive: bool, unescape: string -> string)
  {
    && (e.name.Some? ==> OneLine(CleanText(e.name.value, aggressive, unescape)))
    && (forall i :: 0 <= i < |e.attributes| ==> OneLine(CleanText(e.attributes[i].1, aggressive, unescape)))
  }

  /** In aggressive mode the cleaned name and values never hold a line break. */
  lemma AggressiveCleanedOneLine(e: Entry, unescape: string -> string)
    ensures CleanedFieldsOneLine(e, true, unescape)
  {
    if e.name.Some? {
      AggressiveOutputOneLine(e.name.value, unescape);
    }
    forall i | 0 <= i < |e.attributes|
      ensures OneLine(CleanText(e.attributes[i].1, true, unescape))
    {
      AggressiveOutputOneLine(e.attributes[i].1, unescape);
    }
  }

  /** A cleaned URL holds a line break only if the URL did. */
  lemma CleanUrlOneLine(url: string)
    requires OneLine(url)
    ensures OneLine(CleanUrl(url))
  {
    StripKeepsAbsent(url, '\n');
    StripKeepsAbsent(url, '\r');
  }

  /** A rebuilt `raw_info` is a stripped `#EXTINF:` line when the name is stripped. */
  lemma RawInfoLineShape(e: Entry)
    requires Stripped(e.name.GetOr("Unknown"))
    ensures Stripped(RawInfoLine(e)) && InfoTag <= RawInfoLine(e)
  {
    var line := RawInfoLine(e);
    RebuiltLineStripped(e);
    assert Stripped(StripChars(line, Spaces));
  }

  /** A cleaned entry's written lines hold no line break when neither its
      fields nor its cleaned name and values do. */
  lemma CleanedOneLine(e: Entry, aggressive: bool, unescape: string -> string)
    requires RawFieldsOneLine(e) && CleanedFieldsOneLine(e, aggressive, unescape)
    ensures WrittenOneLine(CleanedEntry(e, aggressive, unescape))
  {
    var c := CleanedEntry(e, aggressive, unescape);
    var e1 := c.(rawInfo := e.rawInfo);
    assert InfoLines(c) == InfoLines(e);
    forall i | 0 <= i < |e1.attributes|
      ensures OneLine(e1.attributes[i].0) && OneLine(e1.attributes[i].1)
    {
      assert e1.attributes[i] == (e.attributes[i].0, CleanText(e.attributes[i].1, aggressive, unescape));
    }
    RawInfoLineOneLine(e1);
    if e.url.Some? {
      CleanUrlOneLine(e.url.value);
    }
  }

  /** An entry `clean` keeps is written in full, one line per field, and read
      back as written, when its cleaned URL does not start with `#`, its
      comment lines are ones the parser collects as they are, and neither its
      fields nor its cleaned name and values hold a line break. */
  lemma CleanedReadsBack(e: Entry, aggressive: bool, unescape: string -> string)
    requires HasUrl(e) && !("#" <= CleanUrl(e.url.value))
    requires CommentsRead(e) && RawFieldsOneLine(e) && CleanedFieldsOneLine(e, aggressive, unescape)
    ensures ReadsBackAsWritten(CleanedEntry(e, aggressive, unescape))
    ensures WrittenOneLine(CleanedEntry(e, aggressive, unescape))
  {
    var c := CleanedEntry(e, aggressive, unescape);
    var e1 := c.(rawInfo := e.rawInfo);
    assert Stripped(e1.name.GetOr("Unknown"));
    RawInfoLineShape(e1);
    CleanUrlNotBlank(e.url.value);
    assert InfoLines(c) == InfoLines(e);
    CleanedOneLine(e, aggressive, unescape);
  }

  /** Every entry `clean` returns has a `url` and a `raw_info`, so the
      writer writes all of them without a `KeyError`. */
  lemma CleanedAreWritable(es: seq<Entry>, aggressive: bool, unescape: string -> string)
    ensures var r := Kept(es, UrlKeys(es), |es|, Cleaning(aggressive, unescape));
            FirstUnwritable(r) == |r|
  {
    var tidy, ks := Cleaning(aggressive, unescape), UrlKeys(es);
    var r, ix := Kept(es, ks, |es|, tidy), Firsts(ks, |es|);
    KeptAreFirsts(es, ks, |es|, tidy);
    forall j | 0 <= j < |r|
      ensures Writable(r[j])
    {
      assert r[j] == CleanedEntry(es[ix[j]], aggressive, unescape);
    }
  }

  /** Cleaning, writing and reading the file back: the writer reports no
      error, the parser accepts the file, and it gives back the cleaned
      entries' URLs, `raw_info` lines and comment lines, in order. In the
      standard mode the cleaned names and values must hold no line break;
      the aggressive mode removes them itself. */
  lemma CleanWriteParse(es: seq<Entry>, aggressive: bool, unescape: string -> string)
    requires forall i :: 0 <= i < |es| && HasUrl(es[i]) ==>
               && !("#" <= CleanUrl(es[i].url.value)) && CommentsRead(es[i]) && RawFieldsOneLine(es[i])
               && (aggressive || CleanedFieldsOneLine(es[i], aggressive, unescape))
    ensures var r := Kept(es, UrlKeys(es), |es|, Cleaning(aggressive, unescape));
            var p := ParseLines(ReadLines(FileText(Serialize(r, |r|))));
            && FirstUnwritable(r) == |r|
            && p.Success?
            && |p.value| == |r|
            && forall j :: 0 <= j < |r| ==>
                 && p.value[j].url == r[j].url
                 && p.value[j].rawInfo == r[j].rawInfo
                 && InfoLines(p.value[j]) == InfoLines(r[j])
  {
    var tidy, ks := Cleaning(aggressive, unescape), UrlKeys(es);
    var r, ix := Kept(es, ks, |es|, tidy), Firsts(ks, |es|);
    KeptAreFirsts(es, ks, |es|, tidy);
    CleanedAreWritable(es, aggressive, unescape);
    forall j | 0 <= j < |r|
      ensures ReadsBackAsWritten(r[j]) && WrittenOneLine(r[j])
    {
      assert ks[ix[j]].Some?;
      if aggressive {
        AggressiveCleanedOneLine(es[ix[j]], unescape);
      }
      CleanedReadsBack(es[ix[j]], aggressive, unescape);
    }
    ParseWritten(r);
  }
}
