/** `EntryCleaner`: URL normalisation, the rebuild of the `#EXTINF` line,
    `clean_entry`, and the dedup pass `clean`. */
module Cleaner {
  import opened Wrappers
  import opened Text
  import opened Entries
  import opened TextCleaning
  import Parser

  // ---------------------------------------------------------------------
  // clean_url

  /** `clean_url`: the stripped URL, with `http:` put in front of a
      scheme-relative `//` URL (a URL with one of the four stream schemes
      never starts with `//`). */
  function CleanUrl(url: string): (r: string)
    ensures r == if "//" <= Strip(url) then "http:" + Strip(url) else Strip(url)
    ensures Stripped(r)
  {
    var u := Strip(url);
    if u != [] && !HasStreamScheme(u) && "//" <= u then "http:" + u else u
  }

  /** Cleaning a cleaned URL changes nothing. */
  lemma CleanUrlIdempotent(url: string)
    ensures CleanUrl(CleanUrl(url)) == CleanUrl(url)
  {
    var r := CleanUrl(url);
    StripCharsOfStripped(r, Spaces);
    assert !("//" <= r);
  }

  /** A URL that is not blank stays non-blank, and a cleaned URL is its own strip. */
  lemma CleanUrlNotBlank(url: string)
    requires Strip(url) != []
    ensures CleanUrl(url) != [] && Strip(CleanUrl(url)) == CleanUrl(url)
  {
    StripCharsOfStripped(CleanUrl(url), Spaces);
  }

  // ---------------------------------------------------------------------
  // regenerate_raw_info

  /** One attribute as `regenerate_raw_info` writes it: `key="value"`. */
  function AttrText(kv: (string, string)): string
  {
    kv.0 + "=\"" + kv.1 + "\""
  }

  function AttrTexts(d: Dict): (ts: seq<string>)
    ensures |ts| == |d| && forall i :: 0 <= i < |d| ==> ts[i] == AttrText(d[i])
  {
    seq(|d|, i requires 0 <= i < |d| => AttrText(d[i]))
  }

  /** The `#EXTINF` line `regenerate_raw_info` builds: duration (`-1` when
      missing), then a space and the attributes in dict order when there are
      any, then a comma and the name (`Unknown` when missing). */
  function RawInfoLine(e: Entry): (line: string)
    ensures Parser.InfoTag <= line
    ensures var name := e.name.GetOr("Unknown");
            |name| < |line| && line[|line| - |name| - 1..] == [','] + name
  {
    var duration := e.duration.GetOr("-1");
    var name := e.name.GetOr("Unknown");
    var attrs := Join(AttrTexts(e.attributes), " ");
    if attrs != [] then Parser.InfoTag + duration + " " + attrs + "," + name
    else Parser.InfoTag + duration + "," + name
  }

  /** `regenerate_raw_info`: builds the attribute strings one by one and sets
      `raw_info`; no other field changes. */
  method RegenerateRawInfo(e: Entry) returns (r: Entry)
    ensures r == e.(rawInfo := Some(RawInfoLine(e)))
  {
    var duration := e.duration.GetOr("-1");
    var name := e.name.GetOr("Unknown");
    var attrs: seq<string> := [];
    for i := 0 to |e.attributes|
      invariant attrs == AttrTexts(e.attributes)[..i]
    {
      attrs := attrs + [AttrText(e.attributes[i])];
    }
    assert attrs == AttrTexts(e.attributes);
    var attrsStr := Join(attrs, " ");
    var rawInfo;
    if attrsStr != [] {
      rawInfo := Parser.InfoTag + duration + " " + attrsStr + "," + name;
    } else {
      rawInfo := Parser.InfoTag + duration + "," + name;
    }
    r := e.(rawInfo := Some(rawInfo));
  }

  /** A field the parser reads back as one token: no whitespace, no comma. */
  predicate PlainToken(s: string)
  {
    forall k :: 0 <= k < |s| ==> !IsSpace(s[k]) && s[k] != ','
  }

  /** An attribute the parser reads back as written: the key has no `=` and
      does not start with `#`, the value has no quote characters, and
      neither has whitespace or a comma. */
  predicate AttrReadsBack(kv: (string, string))
  {
    && PlainToken(kv.0) && '=' !in kv.0 && !("#" <= kv.0)
    && PlainToken(kv.1) && '"' !in kv.1 && '\'' !in kv.1
  }

  /** An entry whose rebuilt `#EXTINF` line parses back to its own fields. */
  predicate ReadsBack(e: Entry)
  {
    var duration := e.duration.GetOr("-1");
    && PlainToken(duration) && ':' !in duration
    && Stripped(e.name.GetOr("Unknown"))
    && forall i :: 0 <= i < |e.attributes| ==> AttrReadsBack(e.attributes[i])
  }

  lemma {:induction false} JoinAvoids(ws: seq<string>, c: char)
    requires c != ' '
    requires forall i :: 0 <= i < |ws| ==> c !in ws[i]
    ensures c !in Join(ws, " ")
    decreases |ws|
  {
    if |ws| > 1 {
      JoinAvoids(ws[1..], c);
    }
  }

  lemma JoinEmptyIff(ws: seq<string>)
    requires forall i :: 0 <= i < |ws| ==> ws[i] != []
    ensures Join(ws, " ") == [] <==> ws == []
  {
    if |ws| > 1 {
      assert |Join(ws, " ")| >= |ws[0]|;
    }
  }

  /** Each attribute string is one whitespace token with the attribute's `=` as its first `=`. */
  lemma AttrTextShape(kv: (string, string))
    requires AttrReadsBack(kv)
    ensures AttrText(kv) == kv.0 + ['='] + (['"'] + kv.1 + ['"'])
    ensures IsWord(AttrText(kv)) && ',' !in AttrText(kv)
    ensures !(Parser.InfoTag <= AttrText(kv))
  {
    var t := AttrText(kv);
    assert t == kv.0 + ['='] + (['"'] + kv.1 + ['"']);
    assert forall k :: 0 <= k < |kv.0| ==> t[k] == kv.0[k];
    assert t[|kv.0|] == '=';
    assert forall k :: |kv.0| + 2 <= k < |t| - 1 ==> t[k] == kv.1[k - |kv.0| - 2];
    assert t[|kv.0| + 1] == '"' && t[|t| - 1] == '"';
    assert t[0] != '#';
  }

  /** The first token of a rebuilt line sets the duration. */
  lemma DurationToken(e0: Entry, duration: string)
    requires PlainToken(duration) && ':' !in duration
    ensures Parser.ApplyToken(e0, Parser.InfoTag + duration) == e0.(duration := Some(duration))
  {
    assert Parser.InfoTag + duration == "#EXTINF" + [':'] + duration;
    SecondFieldOf("#EXTINF", ':', duration);
    StripCharsOfStripped(duration, Spaces);
  }

  /** An attribute token of a rebuilt line adds its attribute at the end. */
  lemma AttrToken(prev: Entry, kv: (string, string))
    requires AttrReadsBack(kv)
    requires kv.0 !in Keys(prev.attributes)
    ensures UniqueKeys(prev.attributes + [kv])
    ensures Parser.ApplyToken(prev, AttrText(kv)).attributes == prev.attributes + [kv]
    ensures Parser.ApplyToken(prev, AttrText(kv)).duration == prev.duration
  {
    AttrTextShape(kv);
    SplitOnceOf(kv.0, '=', ['"'] + kv.1 + ['"']);
    StripEnclosed('"', kv.1, Quotes);
    assert FindKey(prev.attributes, kv.0) == |prev.attributes|;
  }

  /** The attribute tokens of a rebuilt line add the dict's pairs one at a time. */
  lemma AttrStep(prev: Entry, attrs: Dict, j: nat)
    requires j < |attrs| && AttrReadsBack(attrs[j])
    requires prev.attributes == attrs[..j]
    ensures Parser.ApplyToken(prev, AttrText(attrs[j])).attributes == attrs[..j + 1]
    ensures Parser.ApplyToken(prev, AttrText(attrs[j])).duration == prev.duration
  {
    var kv := attrs[j];
    var ks := Keys(prev.attributes);
    assert |ks| == j;
    forall i | 0 <= i < j
      ensures ks[i] != kv.0
    {
      assert ks[i] == attrs[..j][i].0 == attrs[i].0;
    }
    AttrToken(prev, kv);
    assert attrs[..j + 1] == attrs[..j] + [kv];
  }

  /** The tokens of a rebuilt line: the duration token, then one per attribute. */
  function RebuiltTokens(duration: string, attrs: Dict): seq<string>
  {
    [Parser.InfoTag + duration] + AttrTexts(attrs)
  }

  lemma RebuildFirst(e0: Entry, duration: string, attrs: Dict)
    requires e0.attributes == []
    requires PlainToken(duration) && ':' !in duration
    ensures var r := Parser.ApplyTokens(e0, RebuiltTokens(duration, attrs), 1);
            r.duration == Some(duration) && r.attributes == attrs[..0]
  {
    DurationToken(e0, duration);
  }

  lemma RebuildNext(e0: Entry, duration: string, attrs: Dict, k: nat)
    requires 2 <= k <= 1 + |attrs| && AttrReadsBack(attrs[k - 2])
    requires var r := Parser.ApplyTokens(e0, RebuiltTokens(duration, attrs), k - 1);
             r.duration == Some(duration) && r.attributes == attrs[..k - 2]
    ensures var r := Parser.ApplyTokens(e0, RebuiltTokens(duration, attrs), k);
            r.duration == Some(duration) && r.attributes == attrs[..k - 1]
  {
    var parts := RebuiltTokens(duration, attrs);
    assert parts[k - 1] == AttrText(attrs[k - 2]);
    AttrStep(Parser.ApplyTokens(e0, parts, k - 1), attrs, k - 2);
  }

  /** The metadata tokens of a rebuilt line set the duration and then add the
      attributes one by one, in order. */
  lemma {:induction false} TokensRebuild(e0: Entry, duration: string, attrs: Dict, k: nat)
    requires e0.attributes == []
    requires PlainToken(duration) && ':' !in duration
    requires forall i :: 0 <= i < |attrs| ==> AttrReadsBack(attrs[i])
    requires 1 <= k <= 1 + |attrs|
    ensures var r := Parser.ApplyTokens(e0, RebuiltTokens(duration, attrs), k);
            r.duration == Some(duration) && r.attributes == attrs[..k - 1]
  {
    if k == 1 {
      RebuildFirst(e0, duration, attrs);
    } else {
      TokensRebuild(e0, duration, attrs, k - 1);
      RebuildNext(e0, duration, attrs, k);
    }
  }

  /** All the metadata tokens of a rebuilt line give back the duration and the
      attributes, and leave the name as it was. */
  lemma AllTokensRebuild(e0: Entry, duration: string, attrs: Dict)
    requires e0.attributes == []
    requires PlainToken(duration) && ':' !in duration
    requires forall i :: 0 <= i < |attrs| ==> AttrReadsBack(attrs[i])
    ensures var parts := RebuiltTokens(duration, attrs);
            var r := Parser.ApplyTokens(e0, parts, |parts|);
            r.duration == Some(duration) && r.attributes == attrs && r.name == e0.name
  {
    var parts := RebuiltTokens(duration, attrs);
    TokensRebuild(e0, duration, attrs, |parts|);
    Parser.TokensKeepOtherFields(e0, parts, |parts|);
    assert attrs[..|parts| - 1] == attrs;
  }

  /** A rebuilt line splits into the duration token and the attribute
      tokens before its first comma, and the name after it. */
  lemma RebuiltLineParts(e: Entry)
    requires ReadsBack(e)
    ensures var line := RawInfoLine(e);
            && Words(Parser.AttrsPart(line)) == [Parser.InfoTag + e.duration.GetOr("-1")] + AttrTexts(e.attributes)
            && Parser.ChannelName(line) == e.name.GetOr("Unknown")
  {
    var line := RawInfoLine(e);
    var duration := e.duration.GetOr("-1");
    var name := e.name.GetOr("Unknown");
    var ts := AttrTexts(e.attributes);
    var attrs := Join(ts, " ");
    forall i | 0 <= i < |ts|
      ensures IsWord(ts[i]) && ',' !in ts[i]
    {
      AttrTextShape(e.attributes[i]);
    }
    JoinAvoids(ts, ',');
    JoinEmptyIff(ts);
    var head := Parser.InfoTag + duration;
    assert forall k :: 0 <= k < |duration| ==> head[8 + k] == duration[k];
    assert IsWord(head) && ',' !in head;
    var a := if attrs != [] then head + " " + attrs else head;
    assert ',' !in a;
    assert line == a + [','] + name;
    SplitOnceOf(a, ',', name);
    if attrs != [] {
      WordsOfSpaced(head, attrs);
      WordsOfJoin(ts);
    } else {
      WordsOfWord(head);
    }
  }

  /** A rebuilt line with a stripped name needs no stripping. */
  lemma RebuiltLineStripped(e: Entry)
    requires Stripped(e.name.GetOr("Unknown"))
    ensures Strip(RawInfoLine(e)) == RawInfoLine(e)
  {
    var line, name := RawInfoLine(e), e.name.GetOr("Unknown");
    assert line[0] == '#';
    assert line[|line| - 1] == if name == [] then ',' else name[|name| - 1];
    StripCharsOfStripped(line, Spaces);
  }

  /** A rebuilt `#EXTINF` line holds a line break only if one of the fields it
      is built from does. */
  lemma RawInfoLineOneLine(e: Entry)
    requires OneLine(e.duration.GetOr("-1")) && OneLine(e.name.GetOr("Unknown"))
    requires forall i :: 0 <= i < |e.attributes| ==> OneLine(e.attributes[i].0) && OneLine(e.attributes[i].1)
    ensures OneLine(RawInfoLine(e))
  {
    var ts := AttrTexts(e.attributes);
    JoinAvoids(ts, '\n');
    JoinAvoids(ts, '\r');
  }

  /** Round trip: the parser reads the rebuilt `#EXTINF` line back into the
      entry's duration (`-1` when missing), its attributes in order, and its
      name (`Unknown` when missing); the line needs no stripping. */
  lemma RawInfoReadsBack(e: Entry)
    requires ReadsBack(e)
    ensures var line := RawInfoLine(e);
            var p := Parser.InfoEntry(line);
            && Strip(line) == line
            && p.duration == Some(e.duration.GetOr("-1"))
            && p.attributes == e.attributes
            && p.name == Some(e.name.GetOr("Unknown"))
  {
    var line := RawInfoLine(e);
    var name := e.name.GetOr("Unknown");
    RebuiltLineParts(e);
    RebuiltLineStripped(e);
    var pending := Entry(None, Some(Strip(name)), None, [], Some(line), None);
    AllTokensRebuild(pending, e.duration.GetOr("-1"), e.attributes);
    StripCharsOfStripped(name, Spaces);
  }

  // ---------------------------------------------------------------------
  // clean_entry

  /** `clean_entry`: a copy of the dict in which only `group-title`, when
      present, has its value cleaned. */
  function CleanEntry(d: Dict, aggressive: bool, unescape: string -> string): (r: Dict)
    ensures Keys(r) == Keys(d)
    ensures Lookup(r, "group-title") == match Lookup(d, "group-title")
                                        case Some(v) => Some(CleanText(v, aggressive, unescape))
                                        case None => None
    ensures forall k :: k != "group-title" ==> Lookup(r, k) == Lookup(d, k)
  {
    match Lookup(d, "group-title")
    case Some(v) => Put(d, "group-title", CleanText(v, aggressive, unescape))
    case None => d
  }

  // ---------------------------------------------------------------------
  // clean

  /** The attribute dict with every value cleaned, keys and order unchanged. */
  function CleanValues(d: Dict, aggressive: bool, unescape: string -> string): (r: Dict)
    ensures |r| == |d|
    ensures forall i :: 0 <= i < |d| ==> r[i] == (d[i].0, CleanText(d[i].1, aggressive, unescape))
  {
    var r := seq(|d|, i requires 0 <= i < |d| => (d[i].0, CleanText(d[i].1, aggressive, unescape)));
    assert forall i :: 0 <= i < |d| ==> r[i].0 == d[i].0;
    r
  }

  /** The attribute loop of `clean`: each value that cleaning changes is
      written back under its own key. */
  method CleanAttributes(d: Dict, aggressive: bool, unescape: string -> string) returns (r: Dict)
    ensures r == CleanValues(d, aggressive, unescape)
    ensures Keys(r) == Keys(d)
  {
    var target := CleanValues(d, aggressive, unescape);
    r := d;
    for i := 0 to |d|
      invariant |r| == |d|
      invariant forall j :: 0 <= j < i ==> r[j] == target[j]
      invariant forall j :: i <= j < |d| ==> r[j] == d[j]
    {
      var (key, value) := d[i];
      var cleaned := CleanText(value, aggressive, unescape);
      if value != cleaned {
        PutExisting(r, i, cleaned);
        r := Put(r, key, cleaned);
      }
    }
    assert r == target;
  }

  /** An entry `clean` looks at: it has a URL that is not blank. */
  predicate HasUrl(e: Entry)
  {
    e.url.Some? && Strip(e.url.value) != []
  }

  /** What `clean` makes of an entry it keeps: cleaned URL, name and
      attribute values, and a rebuilt `raw_info`. */
  function CleanedEntry(e: Entry, aggressive: bool, unescape: string -> string): (r: Entry)
    ensures r.url == if e.url.Some? then Some(CleanUrl(e.url.value)) else None
  {
    var e1 := e.(url := if e.url.Some? then Some(CleanUrl(e.url.value)) else None,
                 name := if e.name.Some? then Some(CleanText(e.name.value, aggressive, unescape)) else None,
                 attributes := CleanValues(e.attributes, aggressive, unescape));
    e1.(rawInfo := Some(RawInfoLine(e1)))
  }

  /** The per-entry transformation of `clean` in a given mode. */
  function Cleaning(aggressive: bool, unescape: string -> string): Entry -> Entry
  {
    e => CleanedEntry(e, aggressive, unescape)
  }

  /** The key `clean` deduplicates on: the cleaned URL of an entry with a
      URL that is not blank, and nothing for an entry it skips. */
  function UrlKey(e: Entry): Option<string>
  {
    if HasUrl(e) then Some(CleanUrl(e.url.value)) else None
  }

  function UrlKeys(es: seq<Entry>): (ks: seq<Option<string>>)
    ensures |ks| == |es| && forall i :: 0 <= i < |es| ==> ks[i] == UrlKey(es[i])
  {
    seq(|es|, i requires 0 <= i < |es| => UrlKey(es[i]))
  }

  /** `seen_urls` after the first `k` keys. */
  function Seen(ks: seq<Option<string>>, k: nat): set<string>
    requires k <= |ks|
  {
    if k == 0 then {}
    else Seen(ks, k - 1) + if ks[k - 1].Some? then {ks[k - 1].value} else {}
  }

  /** Position `i` is kept: it has a key, and no earlier position has the same key. */
  predicate IsFirst(ks: seq<Option<string>>, i: nat)
    requires i < |ks|
  {
    ks[i].Some? && ks[i].value !in Seen(ks, i)
  }

  /** The positions kept among the first `k`, in order. */
  function Firsts(ks: seq<Option<string>>, k: nat): (ix: seq<nat>)
    requires k <= |ks|
    ensures |ix| <= k
    ensures forall j :: 0 <= j < |ix| ==> ix[j] < k && IsFirst(ks, ix[j])
  {
    if k == 0 then [] else Firsts(ks, k - 1) + if IsFirst(ks, k - 1) then [k - 1] else []
  }

  /** The first `k` entries deduplicated on the keys `ks`, each kept entry
      transformed by `tidy`. */
  function Kept(es: seq<Entry>, ks: seq<Option<string>>, k: nat, tidy: Entry -> Entry): (r: seq<Entry>)
    requires k <= |es| == |ks|
    ensures |r| == |Firsts(ks, k)|
  {
    if k == 0 then []
    else Kept(es, ks, k - 1, tidy) + if IsFirst(ks, k - 1) then [tidy(es[k - 1])] else []
  }

  /** `clean`: skips entries without a usable URL and entries whose cleaned
      URL was already seen, and cleans the rest. */
  method Clean(entries: seq<Entry>, aggressive: bool, unescape: string -> string) returns (cleaned: seq<Entry>)
    ensures cleaned == Kept(entries, UrlKeys(entries), |entries|, Cleaning(aggressive, unescape))
  {
    ghost var ks := UrlKeys(entries);
    cleaned := [];
    var seenUrls: set<string> := {};
    for i := 0 to |entries|
      invariant seenUrls == Seen(ks, i)
      invariant cleaned == Kept(entries, ks, i, Cleaning(aggressive, unescape))
    {
      var entry := entries[i];
      if entry.url.None? || Strip(entry.url.value) == [] {
        continue;
      }
      entry := entry.(url := Some(CleanUrl(entry.url.value)));
      if entry.url.value in seenUrls {
        continue;
      }
      if entry.name.Some? {
        entry := entry.(name := Some(CleanText(entry.name.value, aggressive, unescape)));
      }
      var attributes := CleanAttributes(entry.attributes, aggressive, unescape);
      entry := entry.(attributes := attributes);
      entry := RegenerateRawInfo(entry);
      assert entry == CleanedEntry(entries[i], aggressive, unescape);
      cleaned := cleaned + [entry];
      seenUrls := seenUrls + {entry.url.value};
    }
  }

  /** A position with a key puts it into `seen_urls`. */
  lemma {:induction false} SeenHas(ks: seq<Option<string>>, i: nat, k: nat)
    requires i < k <= |ks| && ks[i].Some?
    ensures ks[i].value in Seen(ks, k)
  {
    if i < k - 1 {
      SeenHas(ks, i, k - 1);
    }
  }

  lemma {:induction false} FirstsIncrease(ks: seq<Option<string>>, k: nat)
    requires k <= |ks|
    ensures forall j, j' :: 0 <= j < j' < |Firsts(ks, k)| ==> Firsts(ks, k)[j] < Firsts(ks, k)[j']
  {
    if k > 0 {
      FirstsIncrease(ks, k - 1);
      var ix, pix := Firsts(ks, k), Firsts(ks, k - 1);
      assert forall j :: 0 <= j < |pix| ==> ix[j] == pix[j];
      assert |ix| > |pix| ==> ix[|pix|] == k - 1;
    }
  }

  lemma {:induction false} FirstsComplete(ks: seq<Option<string>>, k: nat)
    requires k <= |ks|
    ensures forall i :: 0 <= i < k && IsFirst(ks, i) ==> i in Firsts(ks, k)
  {
    if k > 0 {
      FirstsComplete(ks, k - 1);
    }
  }

  lemma {:induction false} KeptMapsFirsts(es: seq<Entry>, ks: seq<Option<string>>, k: nat, tidy: Entry -> Entry)
    requires k <= |es| == |ks|
    ensures forall j :: 0 <= j < |Firsts(ks, k)| ==> Kept(es, ks, k, tidy)[j] == tidy(es[Firsts(ks, k)[j]])
  {
    if k > 0 {
      KeptMapsFirsts(es, ks, k - 1, tidy);
      var r, ix := Kept(es, ks, k, tidy), Firsts(ks, k);
      var prev, pix := Kept(es, ks, k - 1, tidy), Firsts(ks, k - 1);
      assert forall j :: 0 <= j < |pix| ==> r[j] == prev[j] && ix[j] == pix[j];
      assert |ix| > |pix| ==> ix[|pix|] == k - 1 && r[|pix|] == tidy(es[k - 1]);
    }
  }

  /** The deduplicated list is the transformed kept entries in input order:
      strictly increasing positions, each the first with its key, and every
      such first position among them. */
  lemma KeptAreFirsts(es: seq<Entry>, ks: seq<Option<string>>, k: nat, tidy: Entry -> Entry)
    requires k <= |es| == |ks|
    ensures var r, ix := Kept(es, ks, k, tidy), Firsts(ks, k);
            && (forall j :: 0 <= j < |ix| ==> r[j] == tidy(es[ix[j]]))
            && (forall j, j' :: 0 <= j < j' < |ix| ==> ix[j] < ix[j'])
            && (forall i :: 0 <= i < k && IsFirst(ks, i) ==> i in ix)
  {
    KeptMapsFirsts(es, ks, k, tidy);
    FirstsIncrease(ks, k);
    FirstsComplete(ks, k);
  }

  /** The `url` fields of a list of entries, in order. */
  function Urls(r: seq<Entry>): (us: seq<Option<string>>)
    ensures |us| == |r| && forall j :: 0 <= j < |r| ==> us[j] == r[j].url
  {
    seq(|r|, j requires 0 <= j < |r| => r[j].url)
  }

  /** When `tidy` gives each keyed entry its key as URL, the URLs of the
      deduplicated list are exactly `seen_urls`. */
  lemma {:induction false} KeptUrlsAreSeen(es: seq<Entry>, ks: seq<Option<string>>, k: nat, tidy: Entry -> Entry)
    requires k <= |es| == |ks|
    requires forall i :: 0 <= i < |ks| && ks[i].Some? ==> tidy(es[i]).url == ks[i]
    ensures forall u :: u in Seen(ks, k) <==> Some(u) in Urls(Kept(es, ks, k, tidy))
  {
    if k > 0 {
      KeptUrlsAreSeen(es, ks, k - 1, tidy);
      var prev := Kept(es, ks, k - 1, tidy);
      if IsFirst(ks, k - 1) {
        var x := tidy(es[k - 1]);
        assert Urls(prev + [x]) == Urls(prev) + [x.url];
      } else {
        assert ks[k - 1].Some? ==> ks[k - 1].value in Seen(ks, k - 1);
        assert Seen(ks, k) == Seen(ks, k - 1);
        assert Kept(es, ks, k, tidy) == prev;
      }
    }
  }

  /** `clean` gives every kept entry its key as URL. */
  lemma CleaningUsesKey(es: seq<Entry>, aggressive: bool, unescape: string -> string)
    ensures var ks := UrlKeys(es);
            forall i :: 0 <= i < |ks| && ks[i].Some? ==> Cleaning(aggressive, unescape)(es[i]).url == ks[i]
  {
  }

  /** The entries `clean` returns have URLs that are not blank and pairwise
      different, each the cleaned URL of the entry it came from; they are no
      more than the entries given, and every cleaned URL of the input occurs
      among them. */
  lemma CleanResult(es: seq<Entry>, aggressive: bool, unescape: string -> string)
    ensures var r, ix := Kept(es, UrlKeys(es), |es|, Cleaning(aggressive, unescape)), Firsts(UrlKeys(es), |es|);
            && |r| <= |es|
            && (forall j :: 0 <= j < |r| ==> r[j].url.Some? && Strip(r[j].url.value) != [])
            && (forall j :: 0 <= j < |r| ==> HasUrl(es[ix[j]]) && r[j].url == Some(CleanUrl(es[ix[j]].url.value)))
            && (forall j, j' :: 0 <= j < j' < |r| ==> r[j].url != r[j'].url)
            && (forall i :: 0 <= i < |es| && HasUrl(es[i]) ==> Some(CleanUrl(es[i].url.value)) in Urls(r))
  {
    var tidy, ks := Cleaning(aggressive, unescape), UrlKeys(es);
    var r, ix := Kept(es, ks, |es|, tidy), Firsts(ks, |es|);
    KeptAreFirsts(es, ks, |es|, tidy);
    CleaningUsesKey(es, aggressive, unescape);
    KeptUrlsAreSeen(es, ks, |es|, tidy);
    forall j | 0 <= j < |r|
      ensures HasUrl(es[ix[j]]) && r[j].url == Some(CleanUrl(es[ix[j]].url.value))
      ensures Strip(r[j].url.value) != []
    {
      assert ks[ix[j]].Some?;
      CleanUrlNotBlank(es[ix[j]].url.value);
    }
    forall j, j' | 0 <= j < j' < |r|
      ensures r[j].url != r[j'].url
    {
      SeenHas(ks, ix[j], ix[j']);
    }
    forall i | 0 <= i < |es| && HasUrl(es[i])
      ensures Some(CleanUrl(es[i].url.value)) in Urls(r)
    {
      SeenHas(ks, i, |es|);
    }
  }
}
