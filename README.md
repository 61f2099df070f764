# ArxivPaperReader core, modelled in Dafny

ArxivPaperReader turns the daily arXiv e-mail digest into reStructuredText
pages. This project models the three parts of it that parse and keep state:

- **The digest extractor** (`src/paper_parser.py`).
  - A digest is cut into blocks on runs of fifteen or more dashes.
  - Each block is matched against `PATTERN`, then against `PATTERN_revised`. Both are modelled as a chain of first-occurrence searches for their literal delimiters, which is what their lazy `.*?` gaps make them.
  - The fields are normalised and the arXiv id is read from the url.
  - For a revised paper, the abstract and the version history come from its abstract page.
  - Every record is stored. The records whose title or abstract mention a keyword are rendered with `TEMPLATE` into the page, with separators between entries.
  - Blocks that match neither pattern are collected in `redundant`.
- **The Youdao translation client** (`src/translate.py`).
  - It shortens the query for signing and adds the authentication parameters to a request map.
  - `YoudaoTranslator` keeps a cache of past translations keyed by a hash of the request payload, loaded from a JSON-lines file. It also keeps the time of the last throttled call.
  - `translate` answers from the cache, or throttles, sends, caches the reply and returns it.
- **The mail helpers** (`src/email_helper.py`).
  - The received date comes from a `paper_yymmdd` tag or from a Chinese date.
  - Charsets are guessed from the `Content-Type` header.
  - The text of a multipart message is collected.
  - The mailbox scan runs newest first. It skips mails without `paper_` in their subject, stops at the first mail dated `min_date` or earlier, and saves attachments named `paper_<6 digits>.md`.

Modules:

- **`Wrappers`, `Text`:** Option and Result. Python string operations: `strip`, `lower`, `find`, `in`, `replace`, `split`/`join`, `str(n)`, `int(s)`, and `<=` on strings.
- **`Segmenter`, `Patterns`, `Extractor`, `Normalise`, `Revision`, `PaperParser`:** the digest extractor.
- **`Translate`:** the translation client.
- **`Mail`:** the mail helpers.

Loops of the source are methods proved against a specification function:

- `ParseAbstract`, `ParseHistory`.
- `ExtraPaper`, whose loop body is `VisitBlock`.
- `LoadCache`.
- `GuessCharset`, `ParserContent`, `SaveAttachments`, `ParseEmailServer`.

The specification functions' own properties are proved as lemmas. Mutable state is modelled as classes, whose methods state the new state in terms of the old:

- `Params` is the request map that `addAuthParams` updates in place (`AddAuthParams`).
- `Translator` holds the cache, the clock and the journal of lines appended to the cache file (`Translator.Wait`, `Translator.CacheTranslate`, `Translator.Fetch`, `Translator.Translate`).

Where the code and the behaviour described for it differ, the model follows the code:

- The abstract reflow is not idempotent. A blank line after a sentence becomes a line break followed by a space, and a second reflow strips that space: `A.`, a blank line, `B` gives `A.`, a break, ` B`, which gives `A.`, a break, `B` (`ReflowNotIdempotent`).
- The title keeps a double space where the digest had three: `replace('  ', ' ')` replaces non-overlapping pairs once (`TitleKeepsDoubleSpace`).
- A failed fetch of an abstract page, and a url without an identifier, end the run. The source has no `try` there (`Fault`, `RunHalted`).
- The throttle records a time only when it slept. After one call that found the last recorded time `delta_t` or more in the past, no later call is delayed (`ThrottleStaysOff`).
- When a JSON reply has no translation, the source sleeps `5 * delta_t` when `delta_t > 0` and then reads the same reply again. No second request is sent, so the call fails either way. A post that raises fails at once, and so does a body that is not JSON: the error message calls `response.json()` again, which raises before the sleep (`Translator.Fetch`).
- The cached item is `text`, `translation`, `type`, `domain` and the extra arguments, not the whole reply. An extra argument named `translation` replaces the translation in the cache (`ReplyItem`, `Translator.Translate`).

## Model

| member | source | states |
|---|---|---|
| Segmenter.Segment | src/paper_parser.py:86 | the blocks of `re.split`, interleaved with the dash runs it removed, give back the digest text |
| Segmenter.SegmentRunsAreSeparators | src/paper_parser.py:86 | every removed run is fifteen or more dashes |
| Segmenter.SegmentBlocksAreClean | src/paper_parser.py:86 | no block holds fifteen dashes in a row; the greedy `+` leaves no dash at a block's edge next to a run |
| Patterns.ChainFirst | src/paper_parser.py:11-12 | each delimiter of a match is the first occurrence after the end of the previous one |
| Patterns.ChainOrdered | src/paper_parser.py:11-12 | the delimiters of a match occur in order without overlapping |
| Patterns.DateCapture | src/paper_parser.py:11-12 | a date group ends at the first `GMT` after its start and holds no earlier one |
| Patterns.UrlCapture | src/paper_parser.py:11-12 | a url group starts with `https://arxiv.org/` and holds no space or comma |
| Patterns.ChainComplete | src/paper_parser.py:11-12 | whenever the delimiters occur in order without overlapping, the lazy chain matches, each delimiter at or before the given place |
| Patterns.UrlEndComplete | src/paper_parser.py:11-12 | a space or comma after the url start ends the lazy url group, at it or earlier |
| Patterns.MatchPrimaryComplete | src/paper_parser.py:11 | a block holding `PATTERN`'s delimiters in order, then a space or comma after the url prefix, matches `PATTERN` |
| Patterns.MatchRevisedComplete | src/paper_parser.py:12 | a block holding `PATTERN_revised`'s delimiters in order, then a space or comma after the url prefix, matches `PATTERN_revised` |
| Extractor.PrimaryDateLazy | src/paper_parser.py:11 | `PATTERN`'s date ends with its only `GMT` |
| Extractor.PrimaryTitleLazy | src/paper_parser.py:11 | `PATTERN`'s title holds no `Authors:` |
| Extractor.PrimaryAuthorsLazy | src/paper_parser.py:11 | `PATTERN`'s authors hold no `Categories` |
| Extractor.PrimaryAbstractLazy | src/paper_parser.py:11 | `PATTERN`'s abstract holds no pair of backslashes |
| Extractor.PrimaryUrlLazy | src/paper_parser.py:11 | `PATTERN`'s url is prefix-led and free of spaces and commas |
| Extractor.PrimaryGroupsAreLazy | src/paper_parser.py:11 | all five groups of `PATTERN` stop at the first delimiter that can end them |
| Extractor.PrimaryHeadInPlace | src/paper_parser.py:11 | `Title:` + title + `Authors:` + authors + `Categories` is a stretch of the block |
| Extractor.PrimaryAbstractInPlace | src/paper_parser.py:11 | the abstract is the text between two pairs of backslashes in the block |
| Extractor.RevisedDateLazy | src/paper_parser.py:12 | `PATTERN_revised`'s date starts with `replaced` and ends with its only `GMT` after that word |
| Extractor.RevisedTitleLazy | src/paper_parser.py:12 | `PATTERN_revised`'s title holds no `Authors:` |
| Extractor.RevisedAuthorsLazy | src/paper_parser.py:12 | `PATTERN_revised`'s authors hold no `Categories` |
| Extractor.RevisedAbstractIsCategories | src/paper_parser.py:12 | the lazy abstract group of `PATTERN_revised` is exactly the word `Categories` |
| Extractor.RevisedUrlLazy | src/paper_parser.py:12 | `PATTERN_revised`'s url is prefix-led and free of spaces and commas |
| Extractor.RevisedGroupsAreLazy | src/paper_parser.py:12 | all groups of `PATTERN_revised` stop at the first delimiter that can end them |
| Extractor.Extract | src/paper_parser.py:96-97 | a block matches iff one pattern does; `PATTERN` wins when both do, and when it fails the result is `PATTERN_revised`'s; the revised form carries `replaced` and `Categories` |
| Normalise.StripFields | src/paper_parser.py:101 | every group is stripped |
| Normalise.NormTitle | src/paper_parser.py:102 | the title has no line break |
| Normalise.TitleKeepsDoubleSpace | src/paper_parser.py:102 | three spaces in a title become two, not one |
| Normalise.NormAuthors | src/paper_parser.py:103 | the authors are on one line; a one-line field is just stripped |
| Normalise.Reflow | src/paper_parser.py:104 | the abstract is trimmed and every line break in it follows a full stop |
| Normalise.ReflowBlankLine | src/paper_parser.py:104 | a blank line after a sentence becomes a lone space after its line break |
| Normalise.ReflowIndentedLine | src/paper_parser.py:104 | a line's leading space is stripped, and the sentence before it keeps its line break |
| Normalise.ReflowNotIdempotent | src/paper_parser.py:104 | reflowing twice can differ from reflowing once: the second pass strips the space the first left after a break |
| Normalise.IdAt | src/paper_parser.py:112 | `\d+\.\d+` read greedily at a position: digits, dot, digits, not followed by a digit; none exactly when no dotted number starts there |
| Normalise.IdAtExact | src/paper_parser.py:112 | a dotted number at a position that no digit follows is the one read there, so the match is the longest |
| Normalise.IdFrom | src/paper_parser.py:112 | the id of the leftmost `https://arxiv.org/abs/` followed by a dotted number from a position on; none exactly when there is no such match |
| Normalise.ArxivId | src/paper_parser.py:112 | the first `findall` result: the id of the leftmost prefix-and-dotted-number match in the url; none exactly when no such match occurs |
| Normalise.SubmitDate | src/paper_parser.py:114-116 | with no history the date; otherwise the date, a line break and the history with every line indented by four spaces, which unindenting gives back |
| Normalise.IndentAll | src/paper_parser.py:116 | after the replace every line break is followed by four spaces |
| Normalise.Unindent | src/paper_parser.py:116 | removing the indentation restores the history |
| Revision.DropLabel | src/paper_parser.py:34 | `Abstract:` is removed only at the very start |
| Revision.AbstractTrimmed | src/paper_parser.py:31-35 | the abstract from the page has no surrounding whitespace |
| Revision.ParseAbstract | src/paper_parser.py:27-35 | the loop computes `AbstractOf` of the element texts |
| Revision.JoinStripped | src/paper_parser.py:31-33 | the element loop concatenates the stripped texts, in order |
| Revision.MarkerEndExact | src/paper_parser.py:46 | a `[v<digits>]` marker is recognised exactly where one starts |
| Revision.SplitMarkers | src/paper_parser.py:46 | the pieces of `re.split('\[v\d+\]', …)` and the removed markers rebuild the text |
| Revision.SplitMarkersShape | src/paper_parser.py:46 | the removed stretches are markers and the pieces hold none |
| Revision.SplitMarkersInverse | src/paper_parser.py:46 | splitting undoes interleaving marker-free pieces with markers |
| Revision.HistoryOf | src/paper_parser.py:45-52 | the history has no surrounding whitespace |
| Revision.HistoryRenumbers | src/paper_parser.py:46-51 | the pieces are renumbered `[v1]`, `[v2]`, … by position, whatever the page's markers said |
| Revision.ParseHistory | src/paper_parser.py:38-52 | the two loops compute `HistoryOf` of the element texts |
| Revision.RenderEntries | src/paper_parser.py:45-51 | the enumerate loop appends one entry per piece: stripped and ended by a newline, labelled `[v<i>] ` from the second on |
| PaperParser.Enrich | src/paper_parser.py:106-110 | the page is needed, and missing, exactly for a revised paper whose page is not there |
| PaperParser.ParseBlock | src/paper_parser.py:96-98 | a block yields nothing exactly when neither pattern matches |
| PaperParser.ParseFieldsFaults | src/paper_parser.py:106-112 | a failed fetch faults first, then a url without an id; otherwise a record |
| PaperParser.ParseFieldsWellFormed | src/paper_parser.py:99-125 | a record has a one-line title and authors, a dotted id found in its url, and a trimmed abstract |
| PaperParser.ParseFieldsSources | src/paper_parser.py:104-116 | new paper: reflowed abstract and plain date; revised: the page's abstract and the date with the indented history |
| PaperParser.MentionsAnyIff | src/paper_parser.py:129-130 | the filter keeps a record iff some lower-cased keyword occurs in lower(title) + newline + lower(abstract) |
| PaperParser.RelevantIgnoresKeyCase | src/paper_parser.py:130 | lower-casing the keywords first changes nothing |
| PaperParser.EmptyKeyKeepsAll | src/paper_parser.py:130 | an empty keyword keeps every record |
| PaperParser.DefaultKeyWordsFilter | src/paper_parser.py:56 | with the default keywords a record is kept iff `llm` or `large language model` occurs in its lower-cased title or abstract |
| PaperParser.RenderTail | src/paper_parser.py:14-24 | the template from the url's closing on is the `::` block and the abstract |
| PaperParser.RenderLayout | src/paper_parser.py:14-24 | an entry is the link line, `::`, the literal block and the abstract |
| PaperParser.RenderFirstLine | src/paper_parser.py:15 | the entry's first line is `` `[id] title <url>`__ `` |
| PaperParser.LiteralBlockIndented | src/paper_parser.py:19-20 | the submission date and authors are indented by four spaces on every line |
| PaperParser.Shown | src/paper_parser.py:129-135 | no more records are shown than stored |
| PaperParser.ShownSelects | src/paper_parser.py:126-135 | a stored record is shown exactly when it is relevant |
| PaperParser.ShownGrows | src/paper_parser.py:126-137 | storing a record shows it at the end iff it is relevant |
| PaperParser.PageGrows | src/paper_parser.py:139-141 | a new entry is written after a separator unless it is the first |
| PaperParser.StepStores | src/paper_parser.py:99-144 | a parsed block is counted and stored, and clears `is_first` when shown |
| PaperParser.StepAccounts | src/paper_parser.py:96-147 | an unmatched block adds its stripped text and a newline to `redundant`, a matched one counts |
| PaperParser.VisitBlock | src/paper_parser.py:96-147 | one iteration: the new state is `Step`, the page is that of the shown records, `is_first` tells whether none is shown |
| PaperParser.ExtraPaper | src/paper_parser.py:84-147 | the loop computes `Run` of the blocks and the page of the shown records |
| PaperParser.RunStep | src/paper_parser.py:95 | the fold over one more block is one more step |
| PaperParser.RunHalted | src/paper_parser.py:95-147 | after a fault the remaining blocks change nothing |
| PaperParser.StepConsistent | src/paper_parser.py:93-144 | a step keeps the count, the records' form and `is_first` consistent |
| PaperParser.RunConsistent | src/paper_parser.py:92-144 | the whole loop keeps them consistent |
| PaperParser.ExtraPaperConsistent | src/paper_parser.py:84-147 | a digest run ends with consistent records, count and `is_first` |
| PaperParser.ParseBlockWellFormed | src/paper_parser.py:99-125 | every record a block parses to is well formed |
| PaperParser.RunAccountsForBlocks | src/paper_parser.py:91-147 | `redundant` is the unmatched blocks, stripped, each with a newline; the count plus their number is the number of blocks |
| PaperParser.ParsesNone | src/paper_parser.py:96-98 | the blocks kept in `redundant` are exactly those neither pattern matches |
| Translate.Shorten | src/translate.py:35-39 | up to 20 characters the query itself; otherwise its first ten, its length in decimal, its last ten |
| Translate.GetInput | src/translate.py:35-39 | `None` gives `None`, and `Some(q)` gives `Some(Shorten(q))`; `CalculateSign` signs through it |
| Translate.ShortenKeepsLength | src/translate.py:39 | the middle of a shortened query reads back as its length |
| Translate.SignIgnoresMiddle | src/translate.py:24-39 | long queries agreeing on length and both ends get the same signature |
| Translate.WithAuth | src/translate.py:9-22 | raises iff neither `q` nor `img` is present; adds exactly the five auth keys, keeps the rest, `signType` is `v3`, `sign` hashes the shortened query |
| Translate.AddAuthParams | src/translate.py:9-22 | the map is updated in place to `WithAuth` of it, or left as it was when that raises |
| Translate.LoadCache | src/translate.py:55-60 | the loop over the file's lines computes `CacheOf` |
| Translate.CacheOfKeyedById | src/translate.py:55-60 | every loaded item is stored under its own `id` |
| Translate.BlankLineSkipped | src/translate.py:57-58 | a blank line changes nothing |
| Translate.LaterLineWins | src/translate.py:59-60 | a later line with the same `id` replaces the earlier item; others stay |
| Translate.LoadStopped | src/translate.py:59-60 | once a line raises, later lines are not read |
| Translate.Lang | src/translate.py:73-74 | `zh` becomes `zh-CHS`, other codes are unchanged |
| Translate.Payload | src/translate.py:73-75 | the payload has `q`, `from`, `to`, `domain` and the extra arguments, which override; unless overridden, `q` is the text, `from`/`to` are `Lang(src)`/`Lang(dst)` (so `zh` is sent as `zh-CHS`) and `domain` is the domain |
| Translate.PayloadSigned | src/translate.py:75-86 | a payload always has `q`, so signing it never raises |
| Translate.ReplyItem | src/translate.py:99-105 | the item has the keys text, translation, type and domain plus the extra arguments, which override; unless overridden, `text` is the text, `translation` the translation, `type` is `Lang(src)2Lang(dst)` and `domain` the domain |
| Translate.Throttle | src/translate.py:82-85 | sleep `delta_t - elapsed` and record the wake time only when elapsed < `delta_t` |
| Translate.ThrottleStaysOff | src/translate.py:82-85 | once not throttled, the recorded time stays, and later calls are never delayed |
| Translate.ThrottleSleepBounded | src/translate.py:82-84 | a sleep is positive and at most `delta_t` |
| Translate.Translator.constructor | src/translate.py:50-63 | given file lines that load, the cache is `CacheOf` those lines (read by `LoadCache`), the clock is the construction time and the journal is empty |
| Translate.Translator.CacheTranslate | src/translate.py:65-69 | the item tagged with its key is cached under it and appended to the file |
| Translate.Translator.Wait | src/translate.py:82-85 | the throttle as written, on the object's clock |
| Translate.Translator.Fetch | src/translate.py:82-107 | throttle, sign, send; a translation is cached, journalled and returned; a failed post or a non-JSON body fails with no further sleep; a JSON reply without a translation fails after sleeping `5 * delta_t` when `delta_t > 0`; a failure caches nothing |
| Translate.Translator.Translate | src/translate.py:71-107 | a hit returns the cached translation and changes nothing; a miss is `Fetch`; no entry is removed; a returned translation is the cached one |
| Mail.Tags | src/email_helper.py:152 | every result is a match of `paper_(\d{6})[^\d]` from the start position on, and each lies 13 or more characters after the one before, so none overlap |
| Mail.TagFound | src/email_helper.py:152 | a match is never missed |
| Mail.TagsFirst | src/email_helper.py:152 | no match lies before the first result, and no result means no match from the start position on |
| Mail.TagsResume | src/email_helper.py:152 | the results after the k-th are the scan resumed at the end of the k-th match, so no match is skipped |
| Mail.TwoTags | src/email_helper.py:152-153 | two separate matches make at least two results |
| Mail.ReceivedDate | src/email_helper.py:150-161 | a date is six digits |
| Mail.TaggedDate | src/email_helper.py:152-154 | a text with exactly one match, wherever it lies, gives that match's six digits |
| Mail.TwoTagsNeedDate | src/email_helper.py:153-157 | with two tags the date comes from the Chinese date or the parse fails |
| Mail.FirstDate | src/email_helper.py:156 | the first `\d+年\d+月\d+日` match has digit-only fields |
| Mail.FirstDateNone | src/email_helper.py:156 | there is no first match exactly when no match starts anywhere from the position on |
| Mail.FirstDateAt | src/email_helper.py:156 | the first match is the one at the leftmost position where a match starts |
| Mail.ChineseDate | src/email_helper.py:155-158 | without a tag, the leftmost Chinese date, wherever it lies, gives `%y%m%d` when it is a calendar date, and fails otherwise |
| Mail.NoDate | src/email_helper.py:155-161 | with no tag and no Chinese date the parse fails |
| Mail.ChineseDateAtStart | src/email_helper.py:155-158 | without a tag, a valid Chinese date at the start is returned as `%y%m%d`, whatever follows it |
| Mail.StampFields | src/email_helper.py:157 | the stamp spells year mod 100, month and day, two digits each |
| Mail.GuessCharset | src/email_helper.py:136-147 | the loop with its `break` computes `Charset` |
| Mail.CharsetFirstWins | src/email_helper.py:142-146 | items after the first `charset` item are never read |
| Mail.CharsetClean | src/email_helper.py:141-145 | a charset read from the header holds neither `;` nor `=` |
| Mail.ParserContent | src/email_helper.py:91-115 | the recursive method computes `Content` |
| Mail.JoinedStops | src/email_helper.py:95-96 | a part that raises ends the join |
| Mail.JoinedShape | src/email_helper.py:94-97 | a multipart's text is empty or starts with a newline and ends in a non-space |
| Mail.BlankPartIgnored | src/email_helper.py:96-97 | a part whose text strips to nothing adds nothing |
| Mail.AttachmentNames | src/email_helper.py:77 | `paper_<6 digits>.md` is accepted, so is any other character for the unescaped dot; `.md.bak` is not |
| Mail.SavedAccepted | src/email_helper.py:73-84 | every saved path joins the directory with an accepted name |
| Mail.SaveAttachments | src/email_helper.py:72-84 | the loop over the walked parts computes `Saved` |
| Mail.ParseEmailServer | src/email_helper.py:39-86 | the newest-first loop with `continue` and `break` computes `ScanOf` |
| Mail.ScanKeepsNew | src/email_helper.py:57-69 | every item has `paper_` in its subject and a six-digit date after `min_date` |
| Mail.ScanSkipsUntagged | src/email_helper.py:57-58 | a mail without `paper_` yields nothing and does not stop the scan |
| Mail.ScanStopsAtOld | src/email_helper.py:67-69 | a kept mail dated `min_date` or earlier ends the scan, whatever older mails hold |

## Left out

- File and console I/O (`open`, `write`, `flush`, `print`, `tqdm`): the page, the stored records, `redundant` and the cache-file lines are returned.
- HTTP (`requests.get`, `requests.post`): abstract pages are a map from url to the element texts of the two XPath queries. A missing url is a request that raised. A translation reply is reduced to the translation it holds, if any.
- lxml parsing and XPath: `ParseAbstract` and `ParseHistory` start from the `string()` values of the selected elements.
- Hashes, randomness and clocks: SHA-256, the MD5 cache key, `uuid1` and `time.time` are parameters. The cache key is a function of the payload as a map. `time.sleep` is returned as the list of durations slept.
- `PaperParser.ExtraPaper`: takes the block parser as a parameter; a digest is run with `BlockParser(date, pages)`, and `ExtraPaperConsistent` and `ParsesNone` are stated for that parser.
- `extra_paper_from_json`, and the `extra_paper` call to it for `.json` input: that function reads `is_first` before assigning it.
- The JSON dump of each record: `Record` is that item, and the store keeps the records themselves.
- POP3 and the e-mail library (`retr`, `Parser`, `decode_header`, `parseaddr`, `get_payload(decode=True)`, byte decoding): a mail is its decoded subject and a message tree with decoded payloads.
- `Mail.ParserContent`: a text part without a charset yields its payload as text, where the source keeps bytes. This has two visible effects.
  - **Single-part mail (`Mail.ParseEmailServer`):** when such a part is the whole mail, src/email_helper.py:63 adds the subject (a str) to the bytes content. That raises `TypeError` and ends the scan, where `ScanOf` yields an item.
  - **Inside a multipart:** the f-string at src/email_helper.py:97 joins the printed form `b'...'` of the bytes, where `Joined` joins the text itself.
- `EmailReader.__init__`, `_connet`, `close` and `parser_email_header`: POP3 session and header decoding only.
- `parse_email_server` is a generator. The model collects the items it yields before it ends or raises.
- `Mail.ReceivedDate`: `datetime.strptime` is modelled as its pattern and calendar checks: a four-digit year from 1 on, one- or two-digit month and day, a day the month has. Locale and other `strptime` details are not modelled.
- `Text.Lower` and `Text.IsDigit` follow ASCII, so Python's Unicode case mapping and Unicode `\d` digits are not modelled. `Text.IsSpace` is Python's full `str.isspace` set, so `Strip` and everything built on it follow Python's Unicode whitespace.
- `Patterns.UrlPrefix`, `Normalise.IdPrefix`: the unescaped `.` in `https://arxiv.org/` and in `https://arxiv.org/abs/` is read as a literal dot, so a url with another character there is not matched.
- `Translate.WithAuth`: `q` is a string. A list-valued `q`, which `"".join` would concatenate, is not modelled.
- `Translate.Translator.constructor`: a cache file with a line that raises makes `__init__` raise, so no translator is built. The constructor therefore requires lines that load, and the fault itself is what `LoadCache` returns.
- `Translate.Translator.Translate`: the clock is an integer number of seconds where the source uses floating-point `time.time()`.
- `Translate.Translator.Translate`: the cache key hashes the payload as a map. `get_md5` hashes the printed form of the payload, which also carries the insertion order of the keyword arguments, so two calls that differ only in that order share a key here but not in the source.
- src/main.py and docs/source/conf.py are not part of this model.
