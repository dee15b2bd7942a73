# m3uclean, modelled in Dafny

m3uclean reads an extended-M3U IPTV playlist and cleans it in four steps:

1. `M3UParser.parse` turns the lines of the file into entry dicts.
2. `EntryCleaner.clean` drops entries without a URL and duplicate URLs, and normalises URLs, names and attribute values.
3. `StreamValidator.validate` optionally keeps only the entries whose stream answers.
4. `PlaylistWriter.write` writes the entries back out.

This project models those four pieces in Dafny and proves what they guarantee.

- **Files and the network are inputs.** `Parser.ReadLines` cuts the text of a file into lines as `readlines` does, and the parser takes those lines. The writer returns its lines, and `Writer.FileText` is the text they make, each ended by `\n`. A HEAD or GET request is a `Reply`: a status code, a `RequestException` or any other exception. Clock readings are integer seconds given by the caller.
- **Entries** (`Entries.Entry`) are records. Each optional dict key is an `Option`. `attributes` is an insertion-ordered list of pairs with unique keys (`Entries.Dict`), because `regenerate_raw_info` writes the attributes in dict order.
- **The Python string operations** the code relies on are in `Text`: `strip`, `strip(chars)`, `split()`, `split(sep, 1)`, `split(sep)[1]`, `join`, `replace`, and `str` of an integer. `Text.IsSpace` is Python's whitespace class.
- **Imperative code keeps its form.** The parser loop, the writer loop, the attribute loops of the cleaner, the dedup loop and the validation loop are methods with loops. Each method is proved equal to a specification function, and the properties are proved as lemmas about that function.
- **The validator's per-domain dicts** are `map` fields of a `StreamValidator` class. The methods that update those dicts have `modifies` clauses.

Module layout:

| module | models |
|---|---|
| `Wrappers` | `Option` and `Result` |
| `Text` | Python string operations |
| `Entries` | entries and dicts |
| `Parser`, `ParserFacts` | `m3uclean/parser.py` |
| `TextCleaning` | `clean_text` |
| `Cleaner` | the rest of `m3uclean/cleaner.py` |
| `Writer`, `WriterFacts` | `m3uclean/writer.py`, and the round trip through the parser |
| `Validator` | `m3uclean/validator.py` |
| `Pipeline` | the cleaner's output written and parsed again |

## Model

| member | source | states |
|---|---|---|
| Parser.Parse | m3uclean/parser.py:42-127 | The loop over the lines computes exactly the left fold `ParseLines` of `Step`. Parsing fails with `NotM3U` if and only if there are no lines or the first stripped line does not start with `#EXTM3U`. |
| Parser.ReadLines | m3uclean/parser.py:45-46 | `readlines` in text mode cuts the file at `\n`, `\r` and `\r\n`. No line it returns holds a line break, and it returns no lines exactly for an empty file. |
| Parser.ReadInfoLine | m3uclean/parser.py:59-95 | Reading a `#EXTINF:` line builds the pending entry `InfoEntry(line)`. The name is everything after the first comma; `raw_info` is the line; each token of the attribute part is applied in order. |
| Parser.TokensKeepOtherFields | m3uclean/parser.py:78-93 | The tokens of the attribute part change only `duration` and `attributes`. `url`, `name`, `raw_info` and `additional_info` are untouched. |
| Parser.AddInfoCollects | m3uclean/parser.py:101-105 | Appending a comment to the pending entry's `additional_info` (created on the first comment) gives the pending entry with the longer comment list. |
| ParserFacts.HeaderAccepted | m3uclean/parser.py:49-53 | A file whose first line is `#EXTM3U` is accepted. The header line itself contributes nothing, and the next line is line 2. |
| ParserFacts.RunIgnoresLineEnds | m3uclean/parser.py:53-54 | The loop strips every line, so a line with the `\n` that `readlines` keeps is read the same as without it. |
| ParserFacts.ParseIgnoresLineEnds | m3uclean/parser.py:45-54 | Parsing the lines `readlines` returns, each with or without its `\n`, gives the same result as parsing them without. |
| ParserFacts.RunAppend | m3uclean/parser.py:53-121 | Parsing two blocks of lines in one go is parsing them one after the other, with line numbers running on. |
| ParserFacts.UrlLines | m3uclean/parser.py:54-57 | The stripped URL lines of a file are non-empty, stripped, and do not start with `#`. |
| ParserFacts.StepUrls | m3uclean/parser.py:107-121 | One line appends an item exactly when it is a URL line, with that line as its URL. |
| ParserFacts.RunUrls | m3uclean/parser.py:53-121 | Items are only ever appended: the URLs of the items are the URLs before plus the URL lines read, in order. |
| ParserFacts.ParsedUrls | m3uclean/parser.py:53-121 | On success there is one entry per stripped, non-blank line not starting with `#`, in the order of those lines. That line is the entry's `url`, so every `url` is stripped, non-empty and free of a leading `#`. |
| ParserFacts.CommentStep | m3uclean/parser.py:101-105 | A comment line under a pending `#EXTINF` is appended to its comments, and a blank line is skipped. |
| ParserFacts.CommentsCollected | m3uclean/parser.py:101-105 | Comment and blank lines under a pending `#EXTINF` add nothing to the output. They collect the non-blank comments, stripped and in order. |
| ParserFacts.EntryBlock | m3uclean/parser.py:59-111 | An `#EXTINF` line, then comment or blank lines, then a URL line append exactly one entry, with nothing left pending. Whatever was pending before the `#EXTINF` line is discarded. |
| ParserFacts.DescribedEntry | m3uclean/parser.py:65-111 | The entry built from an `#EXTINF` line, comments and a URL has `url` = the URL line and `raw_info` = the stripped `#EXTINF` line. `additional_info` is the comments when there is at least one and absent otherwise. `name` is the text after the first comma, stripped, or `""` without a comma. |
| ParserFacts.AttributeToken | m3uclean/parser.py:87-93 | A token `key=value`, where `key` is the text before the first `=`, sets `key` to `value` with its surrounding quote characters stripped. A new key goes last, an existing key is overwritten in place, and nothing else changes. |
| ParserFacts.DurationOfToken | m3uclean/parser.py:80-84 | The `#EXTINF:` token sets `duration` to the text between its first and second `:` (or to its end), stripped. |
| ParserFacts.TrailingLinesAddNothing | m3uclean/parser.py:123-124 | Blank lines and `#` lines never add an entry, so a trailing `#EXTINF` without a URL yields no entry. |
| ParserFacts.OrphanNumbering | m3uclean/parser.py:113-121 | A URL line with nothing pending appends an entry named `Unknown Channel n`, with `raw_info` `#EXTINF:-1,Unknown Channel n` and empty attributes. `n` is the 1-based line number, counting blank lines. |
| ParserFacts.CommentWithoutPending | m3uclean/parser.py:101-105 | A comment line with no pending `#EXTINF` is ignored. |
| TextCleaning.DropSpecials | m3uclean/cleaner.py:132 | Removing the special characters leaves none of ``& < > ' " \ [ ] { }`` and never lengthens the text. |
| TextCleaning.CollapseSpaces | m3uclean/cleaner.py:135 | Collapsing whitespace keeps the text empty exactly when it was empty. The first character becomes a space exactly when it was whitespace. |
| TextCleaning.CollapseKeepsNoSpecials | m3uclean/cleaner.py:135 | Collapsing whitespace introduces no special character. |
| TextCleaning.CollapseNoDoubleSpace | m3uclean/cleaner.py:135 | After collapsing, no two adjacent characters are both whitespace. |
| TextCleaning.StripKeeps | m3uclean/cleaner.py:144 | The final strip keeps both aggressive-mode properties. |
| TextCleaning.AggressiveOutputIsClean | m3uclean/cleaner.py:104-144 | Whatever `html.unescape` returns, aggressive `clean_text` output contains none of ``& < > ' " \ [ ] { }`` and no two adjacent whitespace characters. |
| TextCleaning.EscapeRemovesQuote | m3uclean/cleaner.py:141-142 | The quote replacements remove every `"` and every `'`. |
| TextCleaning.EscapeKeepsAbsent | m3uclean/cleaner.py:138-142 | A substitution never introduces a character that was absent, unless its replacement text contains it. |
| TextCleaning.EscapeAmpGivesAmpsOk | m3uclean/cleaner.py:138 | After the `&` substitution, every `&` begins one of `&amp;` `&lt;` `&gt;` `&quot;` `&apos;`. |
| TextCleaning.EscapeKeepsAmpsOk | m3uclean/cleaner.py:139-142 | The `<`, `>` and quote substitutions keep every `&` at the start of an entity. |
| TextCleaning.EscapeStandardIsEscaped | m3uclean/cleaner.py:138-142 | After the five standard-mode substitutions there is no `"` and no `'`, and every `&` begins an entity. |
| TextCleaning.StripKeepsAmpsOk | m3uclean/cleaner.py:144 | The final strip never cuts an entity, so every `&` still begins one. |
| TextCleaning.StandardOutputIsEscaped | m3uclean/cleaner.py:104-144 | Whatever `html.unescape` returns, standard-mode `clean_text` output contains no `'` or `"`, and every `&` in it begins one of the five entities. |
| TextCleaning.CleanText | m3uclean/cleaner.py:104-144 | `clean_text` returns empty text unchanged, and its result is always stripped, in both modes. |
| TextCleaning.DecodeBasicEntities | m3uclean/cleaner.py:122-126 | Decoding the five basic entities never lengthens the text, and leaves text without `&` unchanged. |
| TextCleaning.RemoveTags | m3uclean/cleaner.py:129 | Removing tags never lengthens the text, and leaves text without `<` unchanged. |
| TextCleaning.Escape | m3uclean/cleaner.py:138-142 | One standard-mode substitution never shortens the text, and gives empty text exactly for empty text. |
| TextCleaning.EscapeStandard | m3uclean/cleaner.py:138-142 | The five standard-mode substitutions never shorten the text. |
| TextCleaning.EscapeStandardUnchanged | m3uclean/cleaner.py:138-142 | Text with none of `& < > " '` passes the five substitutions unchanged. |
| TextCleaning.CollapseOneLine | m3uclean/cleaner.py:135 | Collapsing whitespace turns every line break into a space, so the result holds no `\n` or `\r`. |
| TextCleaning.AggressiveOutputOneLine | m3uclean/cleaner.py:104-144 | Whatever `html.unescape` returns, aggressive `clean_text` output holds no `\n` or `\r`. |
| TextCleaning.StandardUnchanged | m3uclean/cleaner.py:114-144 | In standard mode, unescaped text with nothing to escape and nothing to strip is returned as it is. |
| TextCleaning.StandardKeepsLineBreak | m3uclean/cleaner.py:114-144 | In standard mode a line break that `html.unescape` produces (as it does for `A&#10;B`) stays in the result: `A&#10;B` cleans to `A\nB`. |
| Cleaner.CleanUrl | m3uclean/cleaner.py:82-102 | `clean_url` is the stripped URL, with `http:` prepended exactly when the stripped URL starts with `//`. The result is stripped. |
| Cleaner.CleanUrlIdempotent | m3uclean/cleaner.py:93-102 | Cleaning a cleaned URL changes nothing. |
| Cleaner.CleanUrlNotBlank | m3uclean/cleaner.py:42-48 | A URL that is not blank stays non-blank after cleaning, and needs no further stripping. |
| Cleaner.RawInfoLine | m3uclean/cleaner.py:153-167 | The rebuilt line starts with `#EXTINF:` and ends with a comma followed by the name (`Unknown` when missing). |
| Cleaner.RegenerateRawInfo | m3uclean/cleaner.py:146-169 | Sets `raw_info` to `#EXTINF:` + duration (default `-1`), then a space and the `key="value"` pairs joined by spaces if there are any, then `,` + name (default `Unknown`). No other field changes. |
| Cleaner.AttrTextShape | m3uclean/cleaner.py:159-160 | Each `key="value"` string is one whitespace-free token whose first `=` is the attribute's. |
| Cleaner.RebuiltLineParts | m3uclean/cleaner.py:163-167 | The rebuilt line splits at its first comma into the duration token plus one token per attribute, then the name. |
| Cleaner.TokensRebuild | m3uclean/cleaner.py:159-167 | The parser's tokenisation of the rebuilt line sets the duration, then adds the attributes one by one in dict order. |
| Cleaner.AllTokensRebuild | m3uclean/cleaner.py:159-167 | All the tokens of the rebuilt line give back the duration and every attribute in dict order, and leave the name alone. |
| Cleaner.RawInfoReadsBack | m3uclean/cleaner.py:153-169 | Round trip through the parser: the rebuilt `#EXTINF` line needs no stripping, and reads back as the entry's duration (`-1` when missing), its attributes in order, and its name (`Unknown` when missing). This holds when the duration has no whitespace, comma or `:`; the name is stripped; each key has no whitespace, comma or `=` and does not start with `#`; and each value has no whitespace, comma, `"` or `'`. |
| Cleaner.RawInfoLineOneLine | m3uclean/cleaner.py:153-167 | The rebuilt line holds a line break only if the duration, the name, a key or a value does. |
| Cleaner.CleanEntry | m3uclean/cleaner.py:171-179 | `clean_entry` returns a dict with the same keys in the same order. `group-title`, when present, is cleaned; every other key keeps its value. The argument is a value, so it is not modified. |
| Cleaner.CleanValues | m3uclean/cleaner.py:64-70 | Every attribute value is cleaned, with keys and order unchanged. |
| Cleaner.CleanAttributes | m3uclean/cleaner.py:64-70 | The write-back loop over the attributes yields `CleanValues`, keeping keys and order. |
| Cleaner.CleanedEntry | m3uclean/cleaner.py:47-73 | A kept entry's `url` is the cleaned URL. |
| Cleaner.Firsts | m3uclean/cleaner.py:38-53 | The kept positions lie in range, and each is the first position with its key. |
| Cleaner.Clean | m3uclean/cleaner.py:25-80 | The dedup loop, with its `seen_urls` set, yields `Kept`: the entries whose cleaned URL is non-blank and was not seen before, each cleaned, in input order. |
| Cleaner.KeptAreFirsts | m3uclean/cleaner.py:40-80 | The result is the kept entries, transformed, at strictly increasing input positions. Every first occurrence of a key is among them. |
| Cleaner.KeptUrlsAreSeen | m3uclean/cleaner.py:38-77 | The URLs of the result are exactly the set `seen_urls`. |
| Cleaner.CleanResult | m3uclean/cleaner.py:25-80 | The result of `clean` is never longer than the input. Every `url` is non-blank, pairwise distinct, and the `clean_url` of the entry it came from. Every cleaned URL of the input occurs in the result. |
| Writer.FirstUnwritable | m3uclean/writer.py:46-56 | The first entry lacking `raw_info` or `url`: every entry before it is complete. |
| Writer.Serialize | m3uclean/writer.py:43 | The first written line is always `#EXTM3U`. |
| Writer.WriteAll | m3uclean/writer.py:51-53 | Writing the `additional_info` lines one at a time appends them in order. |
| Writer.WriteEntry | m3uclean/writer.py:48-56 | One entry is written as its `raw_info` line, its `additional_info` lines and its `url` line, stopping at a missing field. The entry is complete exactly when both fields exist. |
| Writer.Write | m3uclean/writer.py:43-56 | The output is the header, then each entry's lines in input order. With no entries, only the header is written. A missing `raw_info` or `url` raises `KeyError` at the first such entry, after its lines so far are written. |
| Writer.SerializeLength | m3uclean/writer.py:43-56 | With complete entries, the line count is 1 plus, for each entry, 2 plus its number of `additional_info` lines. |
| WriterFacts.CommentsOfStripped | m3uclean/parser.py:101-105 | Stripped, non-blank comment lines are collected exactly as written. |
| WriterFacts.ReadLinesCons | m3uclean/writer.py:46-56 | `readlines` ends a written line without a line break at the `\n` written after it. |
| WriterFacts.ReadWrittenLines | m3uclean/writer.py:43-56 | Reading back the file the writer writes gives the written lines exactly, when none of them holds a line break. |
| WriterFacts.FieldWithBreak | m3uclean/writer.py:48-56 | A field with a `\n` inside is written as one line but read back as two. |
| WriterFacts.BodyOneLine | m3uclean/writer.py:46-56 | The lines written for entries whose fields hold no line break hold none either. |
| WriterFacts.EntryReadBack | m3uclean/writer.py:46-56 | The parser reads the lines written for one entry back as exactly one item, with nothing left pending. |
| WriterFacts.BodyItems | m3uclean/writer.py:46-56 | The parser reads the lines written for the entries back as one item per entry, in order. |
| WriterFacts.ItemEntry | m3uclean/parser.py:107-111 | The entry rebuilt from a written entry's lines has the same `url`, `raw_info` and `additional_info` lines. |
| WriterFacts.WrittenItems | m3uclean/writer.py:43-56 | The parser accepts the written playlist and yields one item per written entry. |
| WriterFacts.ParseWritten | m3uclean/writer.py:43-56 | Round trip: reading back and parsing the written file succeeds with as many entries as were written. The URLs, `raw_info` lines and `additional_info` lines come back the same, in order. This holds when each `raw_info` is a stripped `#EXTINF:` line, each comment is a stripped `#` line not starting `#EXTINF:`, and each URL is stripped, non-empty and does not start with `#`, and none of these holds a line break. |
| Pipeline.RawInfoLineShape | m3uclean/cleaner.py:162-169 | A rebuilt `raw_info` starts with `#EXTINF:` and is stripped when the name is stripped. |
| Pipeline.AggressiveCleanedOneLine | m3uclean/cleaner.py:104-144 | In aggressive mode the cleaned name and attribute values never hold a line break. |
| Pipeline.CleanUrlOneLine | m3uclean/cleaner.py:82-102 | Cleaning a URL without a line break gives one without. |
| Pipeline.CleanedOneLine | m3uclean/cleaner.py:47-77 | A cleaned entry's written lines hold no line break when its URL, duration, keys and comment lines and its cleaned name and values hold none. |
| Pipeline.CleanedReadsBack | m3uclean/cleaner.py:47-77 | A kept entry reads back through the writer and the parser as written. This holds when its cleaned URL does not start with `#`, its `additional_info` lines are stripped `#` lines other than `#EXTINF:`, and neither its fields nor its cleaned name and values hold a line break. |
| Pipeline.CleanedAreWritable | m3uclean/cleaner.py:25-80 | Every entry `clean` returns has a `url` and a rebuilt `raw_info`, so `write` never raises `KeyError` on the output of `clean`. |
| Pipeline.CleanWriteParse | m3uclean/writer.py:43-56 | Cleaning, writing and reading the file back: the writer reports no error, the parser accepts the file, and the cleaned entries' URLs, `raw_info` lines and comment lines come back in order. This holds under the conditions of `CleanedReadsBack`, except that in aggressive mode the cleaned name and values need no condition. |
| Validator.NextDelay | m3uclean/validator.py:49-50 | The next delay is at most 300 s and never below the current one. It is exactly double the current one while that is at most 150 s. |
| Validator.SpacingWait | m3uclean/validator.py:62-65 | The sleep before a request is never negative and is 0 for a new domain. It is at most `min_wait` when the clock has not gone back. |
| Validator.Domain | m3uclean/validator.py:84-90 | The domain is the URL's `netloc` when `urlparse` succeeds, and the whole URL when it raises. |
| Validator.StreamValidator.constructor | m3uclean/validator.py:28-41 | Slow mode forces one worker, `min_wait` 10 and `max_wait` 30. Otherwise `max_workers` is the argument, `min_wait` is 4 and `max_wait` is 10. Both dicts start empty and the base delay is 60 s. |
| Validator.StreamValidator.HandleRateLimit | m3uclean/validator.py:43-50 | Waits the domain's stored delay (60 s if none), then stores double that, at most 300 s, for this domain only. The stored delay never decreases, and every stored delay stays within 60 to 300 s. |
| Validator.StreamValidator.MakeRequest | m3uclean/validator.py:58-82 | Sleeps what is left of `min_wait` since the domain's last request, then records the request time for that domain only. A 429 applies the domain's penalty and becomes the raised `RequestException`, so a 429 is never returned. Any other reply is returned unchanged and leaves the delays alone. |
| Validator.PenaltySchedule | m3uclean/validator.py:41-50 | Successive rate limits on one domain wait 60·2ⁿ s, capped at 300 s: 60, 120, 240, then 300. The waits never decrease. |
| Validator.SpacingKept | m3uclean/validator.py:62-67 | If the clock does not run backwards and the sleep lasts its full length, a domain's recorded request times lie at least `min_wait` apart. |
| Validator.ErrorVerdict | m3uclean/validator.py:176-179 | A request that raised gives an invalid verdict. |
| Validator.StatusVerdict | m3uclean/validator.py:171-174 | A final status gives a valid verdict exactly when it is below 400. |
| Validator.ValidateStream | m3uclean/validator.py:131-179 | The verdict is valid exactly when the stripped URL is non-empty and either has no `http://` `https://` `rtmp://` `rtsp://` scheme, or the HEAD status is below 400, or the HEAD status is at least 400 and the GET status is below 400. Case by case: a blank URL gives invalid `Empty URL`; a URL without a checked scheme gives valid `Non-HTTP stream`. Otherwise the deciding reply is the GET when the HEAD status is 400 or more, and the HEAD otherwise. A status `n` below 400 gives valid `Status: n`, one of 400 or more invalid `HTTP error: n`, a `RequestException` invalid `Request error: ` plus its text, and any other exception invalid `Unexpected error: ` plus its text. |
| Validator.GetOnlyAfterFailedHead | m3uclean/validator.py:160-169 | Unless the HEAD status is 400 or more, the GET reply cannot affect the verdict. |
| Validator.NoRequestUnlessStream | m3uclean/validator.py:141-149 | For a blank URL or one without a checked scheme, no reply can affect the verdict. |
| Validator.Passing | m3uclean/validator.py:104-129 | The entries kept are no more than the input, and every one of them passes. |
| Validator.Validate | m3uclean/validator.py:92-129 | The validation loop keeps exactly `Passing`: the entries whose verdict is valid. |
| Validator.PassingCounts | m3uclean/validator.py:104-129 | A passing entry is kept as many times as it occurs in the input, and a failing one never. |
| Validator.PassingLength | m3uclean/validator.py:104-129 | The number kept is the input length minus the number of failures. |
| Validator.PassingMembers | m3uclean/validator.py:104-129 | An entry is in the result exactly when it is in the input and passes. |

## Left out

- Opening files is not modelled: `os.path.exists`, `open`, `makedirs`, and the `IOError` path of the writer. File contents are text values, cut into lines and joined by `Parser.ReadLines` and `Writer.FileText`. Decoding with `errors='replace'` is not modelled, and the writer's `\n` is not translated to another platform's line separator.
- Parser.ReadLines: drops the `\n` that `readlines` keeps at the end of each line. `ParserFacts.ParseIgnoresLineEnds` shows the parser gives the same result either way.
- Logging is not modelled. Every `logger` call only reports.
- `m3uclean/app.py` (command line, environment, logger set-up) and the packaging files are not part of this model.
- `html.unescape` is a foreign function. `clean_text` takes it as a parameter `unescape`, and both mode properties are proved for every such function.
- `urlparse(url).netloc` is a foreign function. `_get_domain` takes its outcome as `netloc: Option<string>`, `None` when `urlparse` raises.
- The requests session is not modelled: its headers, timeouts, redirects and `response.raw.read(1024)`. Each request's outcome is a `Reply`; an exception from `raw.read` is an error reply of the GET.
- The `tenacity` `@retry` decorator on `_make_request` (m3uclean/validator.py:52-57) is a foreign library and is not modelled. `MakeRequest` models one attempt.
- `time.sleep` is not modelled. The sleeps of `_make_request` and `_handle_rate_limit` are returned as durations.
- `time.time()` is not modelled. Its two readings in `_make_request` (before and after sleeping) are integer parameters `now` and `stamp`, so fractional seconds are not modelled.
- `validate_stream` issues its HEAD and GET directly and never goes through `_make_request`. `MakeRequest` and `HandleRateLimit` are therefore standalone state operations, and `ValidateStream` takes the two replies as inputs.
- Validator.Validate: the source runs `validate_stream` on a thread pool and appends entries in completion order; the model runs sequentially and keeps input order, so the result order is not modelled.
- Validator.StreamValidator.MakeRequest: the recorded time is the clock read after sleeping, as the code does. A specification that records `now + wait` would differ from the code.
- Validator.SpacingWait: the bound `wait <= min_wait` is stated only for a clock that has not gone backwards since the domain's last request; otherwise the source sleeps longer.
- Validator.ValidateStream: an entry whose `url` key holds a non-string would make `.strip()` raise outside the `try`. The model's `url` is always a string when present, and a missing `url` reads as `""`.
- Cleaner.Clean: the source mutates the caller's entry dicts in place, including the `url` of a skipped duplicate. The model works on values and returns new entries, so that aliasing effect is not modelled.
- Cleaner.RawInfoReadsBack: holds only when the duration has no whitespace, comma or `:`, the name is stripped, each key has no whitespace, comma or `=` and does not start with `#`, and each value has no whitespace, comma or quote. The parser splits the attribute part at whitespace and at the first comma, takes the duration up to a second `:`, and splits a token at its first `=`. So a value such as `group-title="News HD"` does not read back whole.
- WriterFacts.ParseWritten: holds only for entries whose `raw_info`, comment lines and URL hold no line break. The writer writes a field with a `\n` or `\r` inside as it is, and reading the file back splits it into two lines (`WriterFacts.FieldWithBreak`).
- Pipeline.CleanWriteParse: in standard mode it requires cleaned names and values without a line break. `html.unescape` turns `&#10;` into `\n`, and the standard mode keeps it (`TextCleaning.StandardKeepsLineBreak`), so such an entry does not read back as written.
- Validator.Validate: each entry's HEAD and GET replies are functions of the entry, so two equal entries get the same verdict. A real network could answer them differently.
- Parser.Parse: the `except Exception` branch (m3uclean/parser.py:97-99) and the `IndexError`/`ValueError` fallbacks (m3uclean/parser.py:85-86,94-95) cannot be reached on string input. `split(':')` of a token starting with `#EXTINF:` always has a second field, and a token containing `=` always splits in two. They are not modelled.
- Writer.Write: `additional_info` holding something other than a list is not modelled, since the entry type always holds a list. Values are written as the strings they are.
