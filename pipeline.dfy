/**
 * `PaperParser.extra_paper`: the digest text is cut into blocks, each block
 * that one of the two patterns matches becomes a record (its abstract and
 * history taken from the abstract page when it announces a revised
 * version), every record is stored, and the records whose title or
 * abstract mention a keyword are rendered into the output page.
 *
 * Files, HTTP and the console are outside the model: the digest text is a
 * parameter, the abstract pages are a map from url to the element texts the
 * page yields (a url missing from the map is a request that raised), and
 * what the source writes to its two files and prints is returned.
 */
module PaperParser {
  import opened Wrappers
  import opened Text
  import opened Segmenter
  import opened Patterns
  import opened Extractor
  import opened Normalise
  import opened Revision

  /** `PaperParser.__init__`'s default keyword list. */
  const DefaultKeyWords: seq<string> := ["LLM", "large language model"]

  /** The item dumped as one JSON line. */
  datatype Record = Record(
    datadate: string, arxivId: string, url: string, title: string,
    submitdate: string, authors: string, abstractText: string)

  /** What the two XPath queries select on an abstract page. */
  datatype Page = Page(abstractTexts: seq<string>, historyTexts: seq<string>)

  /** The exceptions that end a run. */
  datatype Fault =
    | FetchFailed(url: string)   // `requests.get` raised
    | NoArxivId(url: string)     // `re.findall(...)[0]` raised `IndexError`

  const RevisedMarker := "replaced with revised version"

  /** What every stored record satisfies. */
  predicate WellFormed(rec: Record, date: string) {
    && rec.datadate == date
    && '\n' !in rec.title && '\n' !in rec.authors
    && DottedNumber(rec.arxivId) && Contains(rec.url, IdPrefix + rec.arxivId)
    && (rec.abstractText == [] || (!IsSpace(rec.abstractText[0]) && !IsSpace(rec.abstractText[|rec.abstractText| - 1])))
  }

  /** Whether the date announces a revised version, whose page must then be fetched. */
  predicate Revised(f: Fields) {
    Contains(f.date, RevisedMarker)
  }

  /**
   * The abstract and history a record gets: from the fields for a new
   * paper, from the abstract page for a revised one (`None` when fetching
   * that page raised).
   */
  function Enrich(f: Fields, pages: map<string, Page>): (r: Option<(string, string)>)
    ensures r.None? <==> Revised(f) && f.url !in pages
  {
    if !Revised(f) then Some((Reflow(f.abstractText), ""))
    else if f.url in pages then Some((AbstractOf(pages[f.url].abstractTexts), HistoryOf(pages[f.url].historyTexts)))
    else None
  }

  /** The record built from the stripped fields of a matched block. */
  function ParseFields(f: Fields, date: string, pages: map<string, Page>): Result<Record, Fault> {
    match Enrich(f, pages)
    case None => Failure(FetchFailed(f.url))
    case Some((abstractText, history)) =>
      match ArxivId(f.url)
      case None => Failure(NoArxivId(f.url))
      case Some(id) =>
        Success(Record(date, id, f.url, NormTitle(f.title), SubmitDate(f.date, history), NormAuthors(f.authors), abstractText))
  }

  /**
   * One block: `None` when neither pattern matches, a fault when the
   * abstract page cannot be fetched or the url holds no identifier, and the
   * record otherwise.
   */
  function ParseBlock(b: string, date: string, pages: map<string, Page>): (r: Option<Result<Record, Fault>>)
    ensures r.None? <==> Extract(b).None?
  {
    match Extract(b)
    case None => None
    case Some(raw) => Some(ParseFields(StripFields(raw), date, pages))
  }

  /** The two faults and when each happens: a failed fetch comes first. */
  lemma ParseFieldsFaults(f: Fields, date: string, pages: map<string, Page>)
    ensures ParseFields(f, date, pages) == Failure(FetchFailed(f.url)) <==> Revised(f) && f.url !in pages
    ensures ParseFields(f, date, pages) == Failure(NoArxivId(f.url)) <==> !(Revised(f) && f.url !in pages) && ArxivId(f.url).None?
    ensures ParseFields(f, date, pages).Success? <==> !(Revised(f) && f.url !in pages) && ArxivId(f.url).Some?
  {
  }

  /** A record is well formed and carries the block's url. */
  lemma ParseFieldsWellFormed(f: Fields, date: string, pages: map<string, Page>)
    requires ParseFields(f, date, pages).Success?
    ensures WellFormed(ParseFields(f, date, pages).value, date)
    ensures ParseFields(f, date, pages).value.url == f.url
  {
    if Revised(f) {
      AbstractTrimmed(pages[f.url].abstractTexts);
    }
    var (a, h) := Enrich(f, pages).value;
    assert a == [] || (!IsSpace(a[0]) && !IsSpace(a[|a| - 1]));
  }

  /**
   * A new paper keeps its reflowed abstract and its date; a revised one
   * takes abstract and history from its page, the history appended to the
   * date with every line indented.
   */
  lemma ParseFieldsSources(f: Fields, date: string, pages: map<string, Page>)
    requires ParseFields(f, date, pages).Success?
    ensures var rec := ParseFields(f, date, pages).value;
      && (!Revised(f) ==> rec.abstractText == Reflow(f.abstractText) && rec.submitdate == f.date)
      && (Revised(f) ==> rec.abstractText == AbstractOf(pages[f.url].abstractTexts))
      && (Revised(f) ==> rec.submitdate == SubmitDate(f.date, HistoryOf(pages[f.url].historyTexts)))
      && ('\n' !in f.date ==> Indented(rec.submitdate))
  {
  }

  // ------------------------------------------------------------- keywords

  /** The lower-cased text the keywords are looked for in: title and abstract on two lines. */
  function Haystack(rec: Record): string {
    Lower(rec.title) + "\n" + Lower(rec.abstractText)
  }

  /** `any([kw.lower() in hay for kw in keys])`: the list is built in full, then any entry that holds keeps the record. */
  predicate MentionsAny(hay: string, keys: seq<string>)
    decreases |keys|
  {
    keys != [] && (Contains(hay, Lower(keys[0])) || MentionsAny(hay, keys[1..]))
  }

  /** The keyword filter of `extra_paper`. */
  predicate Relevant(rec: Record, keys: seq<string>) {
    MentionsAny(Haystack(rec), keys)
  }

  /** The filter keeps a record exactly when some keyword, lower-cased, occurs in its haystack. */
  lemma {:induction false} MentionsAnyIff(hay: string, keys: seq<string>)
    ensures MentionsAny(hay, keys) <==> exists k :: 0 <= k < |keys| && Contains(hay, Lower(keys[k]))
    decreases |keys|
  {
    if keys != [] {
      MentionsAnyIff(hay, keys[1..]);
      assert forall k :: 1 <= k < |keys| ==> keys[1..][k - 1] == keys[k];
      if exists k :: 0 <= k < |keys| && Contains(hay, Lower(keys[k])) {
        var k :| 0 <= k < |keys| && Contains(hay, Lower(keys[k]));
        if k > 0 {
          assert keys[1..][k - 1] == keys[k];
        }
      }
    }
  }

  function LowerEach(keys: seq<string>): (r: seq<string>)
    ensures |r| == |keys| && forall k :: 0 <= k < |r| ==> r[k] == Lower(keys[k])
  {
    seq(|keys|, k requires 0 <= k < |keys| => Lower(keys[k]))
  }

  lemma LowerTwice(s: string)
    ensures Lower(Lower(s)) == Lower(s)
  {
  }

  /** The keyword match ignores the case of the keywords. */
  lemma RelevantIgnoresKeyCase(rec: Record, keys: seq<string>)
    ensures Relevant(rec, keys) <==> Relevant(rec, LowerEach(keys))
  {
    MentionsAnyIff(Haystack(rec), keys);
    MentionsAnyIff(Haystack(rec), LowerEach(keys));
    forall k | 0 <= k < |keys| ensures Lower(LowerEach(keys)[k]) == Lower(keys[k]) {
      LowerTwice(keys[k]);
    }
  }

  /** An empty keyword selects every record. */
  lemma EmptyKeyKeepsAll(rec: Record, keys: seq<string>)
    requires "" in keys
    ensures Relevant(rec, keys)
  {
    MentionsAnyIff(Haystack(rec), keys);
    var k :| 0 <= k < |keys| && keys[k] == "";
    assert OccursAt(Haystack(rec), Lower(keys[k]), 0);
  }

  /** The default keywords keep a record whose title or abstract mentions `llm` or `large language model` in any case. */
  lemma DefaultKeyWordsFilter(rec: Record)
    ensures Relevant(rec, DefaultKeyWords)
      <==> Contains(Haystack(rec), "llm") || Contains(Haystack(rec), "large language model")
  {
    assert Lower("LLM") == "llm";
    assert Lower("large language model") == "large language model";
    MentionsAnyIff(Haystack(rec), DefaultKeyWords);
  }

  // ------------------------------------------------------------ rendering

  /** First line of the reStructuredText entry: a link to the paper. */
  function LinkLine(rec: Record): string {
    "`[" + rec.arxivId + "] " + rec.title + " <" + rec.url + ">`__"
  }

  /** The literal block under `::`: submission date and authors, indented. */
  function LiteralBlock(rec: Record): string {
    "    " + rec.submitdate + "\n    " + rec.authors
  }

  /** The text of `TEMPLATE` around its six placeholders. */
  const Template: seq<string> := ["`[", "] ", " <", ">`__\n\n::\n\n    ", "\n    ", "\n\n", ""]

  /** The values `TEMPLATE.format(**item)` substitutes, in placeholder order. */
  function Values(rec: Record): seq<string> {
    [rec.arxivId, rec.title, rec.url, rec.submitdate, rec.authors, rec.abstractText]
  }

  /** `TEMPLATE.format(**item)` from placeholder `i` on, filled left to right. */
  function RenderFrom(rec: Record, i: nat): string
    requires i < |Template|
    decreases |Template| - i
  {
    if i == |Template| - 1 then Template[i] else Template[i] + Values(rec)[i] + RenderFrom(rec, i + 1)
  }

  /** `TEMPLATE.format(**item)`. */
  function Render(rec: Record): string {
    RenderFrom(rec, 0)
  }

  /** From the fourth piece of text on: the end of the link, the literal block, the abstract. */
  lemma RenderTail(rec: Record)
    ensures RenderFrom(rec, 3) == ">`__" + ("\n\n::\n\n" + LiteralBlock(rec) + "\n\n" + rec.abstractText)
  {
    assert RenderFrom(rec, 5) == "\n\n" + rec.abstractText + "";
    assert RenderFrom(rec, 4) == "\n    " + rec.authors + RenderFrom(rec, 5);
  }

  /** The entry is the link line, a `::` paragraph, the literal block, and the abstract. */
  lemma RenderLayout(rec: Record)
    ensures Render(rec) == LinkLine(rec) + ("\n\n::\n\n" + LiteralBlock(rec) + "\n\n" + rec.abstractText)
  {
    RenderTail(rec);
    assert RenderFrom(rec, 1) == "] " + rec.title + (" <" + rec.url + RenderFrom(rec, 3));
  }

  /** The link line is the entry's first line. */
  lemma RenderFirstLine(rec: Record)
    requires '\n' !in rec.arxivId && '\n' !in rec.title && '\n' !in rec.url
    ensures SplitOn(Render(rec), '\n')[0] == LinkLine(rec)
  {
    var s := Render(rec);
    var l := LinkLine(rec);
    RenderLayout(rec);
    assert s == l + ("\n\n::\n\n" + LiteralBlock(rec) + "\n\n" + rec.abstractText);
    assert s[..|l|] == l;
    CharIndexAt(s, '\n', |l|);
  }

  /**
   * Every line of the literal block is indented by four spaces, which is
   * what keeps a multi-line submission history inside the block.
   */
  lemma LiteralBlockIndented(rec: Record)
    requires Indented(rec.submitdate) && '\n' !in rec.authors
    ensures StartsWith(LiteralBlock(rec), "    ") && Indented(LiteralBlock(rec))
  {
    var tail := "\n    " + rec.authors;
    assert tail[5..] == rec.authors;
    assert Indented(tail);
    var block := rec.submitdate + tail;
    assert Indented(block) by {
      forall i | 0 <= i < |block| && block[i] == '\n' ensures i + 5 <= |block| && block[i + 1..i + 5] == "    " {
        if i < |rec.submitdate| {
          assert rec.submitdate[i] == '\n';
          assert block[i + 1..i + 5] == rec.submitdate[i + 1..i + 5];
        } else {
          assert tail[i - |rec.submitdate|] == '\n';
          assert block[i + 1..i + 5] == tail[i - |rec.submitdate| + 1..i - |rec.submitdate| + 5];
        }
      }
    }
    IndentedAfter("    ", block);
    assert LiteralBlock(rec) == "    " + block;
  }

  // ----------------------------------------------------------------- page

  /** `f"{title}\n========\n\n"`. */
  function Header(title: string): string {
    title + "\n========\n\n"
  }

  /** `'\n' + '-'*12 + '\n\n'`, written between two entries. */
  const Separator := "\n------------\n\n"

  /** The stored records the keyword filter lets through, in order. */
  function Shown(store: seq<Record>, keys: seq<string>): (r: seq<Record>)
    ensures |r| <= |store|
  {
    if store == [] then []
    else
      var init := Shown(store[..|store| - 1], keys);
      var last := store[|store| - 1];
      if Relevant(last, keys) then init + [last] else init
  }

  lemma ShownGrows(store: seq<Record>, rec: Record, keys: seq<string>)
    ensures Shown(store + [rec], keys) == Shown(store, keys) + (if Relevant(rec, keys) then [rec] else [])
  {
    var s := store + [rec];
    assert s[..|s| - 1] == store;
  }

  /** A stored record is shown exactly when it is relevant. */
  lemma {:induction false} ShownSelects(store: seq<Record>, keys: seq<string>)
    ensures forall rec :: rec in Shown(store, keys) <==> rec in store && Relevant(rec, keys)
    decreases |store|
  {
    if store != [] {
      var init := store[..|store| - 1];
      ShownSelects(init, keys);
      ShownGrows(init, store[|store| - 1], keys);
      assert store == init + [store[|store| - 1]];
    }
  }

  /** An entry as written: `out_content + '\n'`. */
  function Entry(rec: Record): string {
    Render(rec) + "\n"
  }

  function RenderedEntries(rs: seq<Record>): (r: seq<string>)
    ensures |r| == |rs| && forall k :: 0 <= k < |r| ==> r[k] == Entry(rs[k])
  {
    seq(|rs|, k requires 0 <= k < |rs| => Entry(rs[k]))
  }

  /** The page the shown records make: the header, then the entries with separators. */
  function PageOf(title: string, shown: seq<Record>): string {
    Header(title) + JoinWith(RenderedEntries(shown), Separator)
  }

  lemma EntriesGrow(shown: seq<Record>, rec: Record)
    ensures RenderedEntries(shown + [rec]) == RenderedEntries(shown) + [Entry(rec)]
  {
  }

  /** Showing one more entry writes the separator, unless it is the first, and the entry. */
  lemma PageGrows(head: string, entries: seq<string>, e: string)
    ensures head + JoinWith(entries + [e], Separator) == head + JoinWith(entries, Separator) + (if entries == [] then "" else Separator) + e
  {
    JoinWithSnocAfter(head, entries, e, Separator);
  }

  // ------------------------------------------------------------------ run

  /**
   * The loop's variables other than the page: the JSON lines, `redundant`,
   * `num`, `is_first`, and the fault that ended the run.
   */
  datatype Acc = Acc(store: seq<Record>, redundant: string, num: nat, isFirst: bool, fault: Option<Fault>)

  const Init := Acc([], "", 0, true, None)

  /** One iteration of the loop, given what the block parsed to; after a fault nothing more happens. */
  function Step(acc: Acc, b: string, parsed: Option<Result<Record, Fault>>, keys: seq<string>): Acc {
    if acc.fault.Some? then acc
    else match parsed
      case None => acc.(redundant := acc.redundant + (Strip(b) + "\n"))
      case Some(Failure(f)) => acc.(num := acc.num + 1, fault := Some(f))
      case Some(Success(rec)) =>
        var stored := acc.(num := acc.num + 1, store := acc.store + [rec]);
        if Relevant(rec, keys) then stored.(isFirst := false) else stored
  }

  /** What one block parses to, as a function of the block. */
  type Parser = string -> Option<Result<Record, Fault>>

  /** The parser of one digest: its date and the abstract pages its revised papers link to. */
  function BlockParser(date: string, pages: map<string, Page>): (parse: Parser)
    ensures forall b :: parse(b) == ParseBlock(b, date, pages)
  {
    b => ParseBlock(b, date, pages)
  }

  /** What each block parses to. */
  function ParsesWith(blocks: seq<string>, parse: Parser): (r: seq<Option<Result<Record, Fault>>>)
    ensures |r| == |blocks| && forall k :: 0 <= k < |r| ==> r[k] == parse(blocks[k])
  {
    seq(|blocks|, k requires 0 <= k < |blocks| => parse(blocks[k]))
  }

  /** The loop over the blocks, as a left fold over the blocks and what each parses to. */
  function Run(blocks: seq<string>, parsed: seq<Option<Result<Record, Fault>>>, keys: seq<string>): Acc
    requires |parsed| == |blocks|
    decreases |blocks|
  {
    if blocks == [] then Init
    else
      var n := |blocks| - 1;
      Step(Run(blocks[..n], parsed[..n], keys), blocks[n], parsed[n], keys)
  }

  /** What `extra_paper` keeps from the digest text; the page is `PageOf` the shown records. */
  function ExtraPaperSpec(text: string, date: string, keys: seq<string>, pages: map<string, Page>): Acc {
    var blocks := Segment(text).blocks;
    Run(blocks, ParsesWith(blocks, BlockParser(date, pages)), keys)
  }

  /** A block that parses to a record: stored, and shown when relevant. */
  lemma StepStores(acc: Acc, b: string, rec: Record, keys: seq<string>)
    requires acc.fault.None?
    ensures Step(acc, b, Some(Success(rec)), keys) ==
      Acc(acc.store + [rec], acc.redundant, acc.num + 1, acc.isFirst && !Relevant(rec, keys), None)
  {
  }

  /**
   * The body of the loop of `extra_paper` for block `b`, which parsed to
   * `parsed`: the page grows by the entry of a relevant record.
   */
  method VisitBlock(acc: Acc, page: string, b: string, parsed: Option<Result<Record, Fault>>, keyWords: seq<string>, ghost title: string)
    returns (next: Acc, page': string)
    requires acc.fault.None?
    requires page == PageOf(title, Shown(acc.store, keyWords))
    requires acc.isFirst <==> Shown(acc.store, keyWords) == []
    ensures next == Step(acc, b, parsed, keyWords)
    ensures page' == PageOf(title, Shown(next.store, keyWords))
    ensures next.isFirst <==> Shown(next.store, keyWords) == []
  {
    page' := page;
    match parsed {
      case None =>
        next := acc.(redundant := acc.redundant + (Strip(b) + "\n"));
      case Some(Failure(f)) =>
        next := acc.(num := acc.num + 1, fault := Some(f));
      case Some(Success(rec)) =>
        StepStores(acc, b, rec, keyWords);
        ShownGrows(acc.store, rec, keyWords);
        var isFirst := acc.isFirst;
        if Relevant(rec, keyWords) {
          EntriesGrow(Shown(acc.store, keyWords), rec);
          PageGrows(Header(title), RenderedEntries(Shown(acc.store, keyWords)), Entry(rec));
          if !isFirst {
            page' := page' + Separator;
          } else {
            assert page + "" == page;
          }
          page' := page' + Entry(rec);
          isFirst := false;
        }
        next := Acc(acc.store + [rec], acc.redundant, acc.num + 1, isFirst, None);
    }
  }

  /**
   * The loop of `extra_paper`; it is run with `BlockParser(date, pages)`,
   * the per-block work being independent of the loop's state. The loop
   * stops at the first fault, and the page holds the header and the entry
   * of every shown record.
   */
  method ExtraPaper(text: string, title: string, keyWords: seq<string>, parse: Parser) returns (page: string, out: Acc)
    ensures out == Run(Segment(text).blocks, ParsesWith(Segment(text).blocks, parse), keyWords)
    ensures page == PageOf(title, Shown(out.store, keyWords))
  {
    var blocks := Segment(text).blocks;
    ghost var parsedAll := ParsesWith(blocks, parse);
    page := Header(title);
    out := Init;
    assert JoinWith(RenderedEntries([]), Separator) == [];
    var i := 0;
    while i < |blocks| && out.fault.None?
      invariant 0 <= i <= |blocks|
      invariant out == Run(blocks[..i], parsedAll[..i], keyWords)
      invariant page == PageOf(title, Shown(out.store, keyWords))
      invariant out.isFirst <==> Shown(out.store, keyWords) == []
    {
      RunStep(blocks, parsedAll, i, keyWords);
      out, page := VisitBlock(out, page, blocks[i], parse(blocks[i]), keyWords, title);
      i := i + 1;
    }
    if i < |blocks| {
      RunHalted(blocks, parsedAll, i, keyWords);
    } else {
      assert blocks[..i] == blocks && parsedAll[..i] == parsedAll;
    }
  }

  /** The fold's last step. */
  lemma RunStep(blocks: seq<string>, parsed: seq<Option<Result<Record, Fault>>>, i: nat, keys: seq<string>)
    requires |parsed| == |blocks| && i < |blocks|
    ensures Run(blocks[..i + 1], parsed[..i + 1], keys) ==
      Step(Run(blocks[..i], parsed[..i], keys), blocks[i], parsed[i], keys)
  {
    assert blocks[..i + 1][..i] == blocks[..i];
    assert parsed[..i + 1][..i] == parsed[..i];
  }

  /** Once a fault has happened the remaining blocks change nothing. */
  lemma {:induction false} RunHalted(blocks: seq<string>, parsed: seq<Option<Result<Record, Fault>>>, n: nat, keys: seq<string>)
    requires |parsed| == |blocks| && n <= |blocks|
    requires Run(blocks[..n], parsed[..n], keys).fault.Some?
    ensures Run(blocks, parsed, keys) == Run(blocks[..n], parsed[..n], keys)
    decreases |blocks|
  {
    if |blocks| > n {
      var m := |blocks| - 1;
      assert blocks[..m][..n] == blocks[..n];
      assert parsed[..m][..n] == parsed[..n];
      RunHalted(blocks[..m], parsed[..m], n, keys);
    } else {
      assert blocks[..n] == blocks && parsed[..n] == parsed;
    }
  }

  /**
   * What holds after every iteration: each matched block has been counted
   * and, unless it faulted, stored; the stored records are well formed; and
   * `is_first` says whether no entry has been written.
   */
  predicate Consistent(acc: Acc, date: string, keys: seq<string>) {
    && acc.num == |acc.store| + (if acc.fault.Some? then 1 else 0)
    && (forall k :: 0 <= k < |acc.store| ==> WellFormed(acc.store[k], date))
    && (acc.isFirst <==> Shown(acc.store, keys) == [])
  }

  lemma StepConsistent(acc: Acc, b: string, parsed: Option<Result<Record, Fault>>, date: string, keys: seq<string>)
    requires Consistent(acc, date, keys)
    requires parsed.Some? && parsed.value.Success? ==> WellFormed(parsed.value.value, date)
    ensures Consistent(Step(acc, b, parsed, keys), date, keys)
  {
    if acc.fault.None? && parsed.Some? && parsed.value.Success? {
      var rec := parsed.value.value;
      var store := acc.store + [rec];
      assert Step(acc, b, parsed, keys).store == store;
      ShownGrows(acc.store, rec, keys);
      forall k | 0 <= k < |store| ensures WellFormed(store[k], date) {
        if k < |acc.store| {
          assert store[k] == acc.store[k];
        }
      }
    }
  }

  /** Every record a block parses to is well formed. */
  lemma ParseBlockWellFormed(b: string, date: string, pages: map<string, Page>)
    ensures var r := ParseBlock(b, date, pages); r.Some? && r.value.Success? ==> WellFormed(r.value.value, date)
  {
    match Extract(b)
    case None =>
    case Some(raw) =>
      var f := StripFields(raw);
      if ParseFields(f, date, pages).Success? {
        ParseFieldsWellFormed(f, date, pages);
      }
  }

  lemma {:induction false} RunConsistent(blocks: seq<string>, parsed: seq<Option<Result<Record, Fault>>>, date: string, keys: seq<string>)
    requires |parsed| == |blocks|
    requires forall k :: 0 <= k < |parsed| && parsed[k].Some? && parsed[k].value.Success? ==> WellFormed(parsed[k].value.value, date)
    ensures Consistent(Run(blocks, parsed, keys), date, keys)
    decreases |blocks|
  {
    if blocks != [] {
      var n := |blocks| - 1;
      RunConsistent(blocks[..n], parsed[..n], date, keys);
      StepConsistent(Run(blocks[..n], parsed[..n], keys), blocks[n], parsed[n], date, keys);
    }
  }

  /** The records, the count and `is_first` that `extra_paper` ends with are consistent: see `Consistent`. */
  lemma ExtraPaperConsistent(text: string, date: string, keys: seq<string>, pages: map<string, Page>)
    ensures Consistent(ExtraPaperSpec(text, date, keys, pages), date, keys)
  {
    var blocks := Segment(text).blocks;
    var parsed := ParsesWith(blocks, BlockParser(date, pages));
    forall k | 0 <= k < |parsed| && parsed[k].Some? && parsed[k].value.Success?
      ensures WellFormed(parsed[k].value.value, date)
    {
      ParseBlockWellFormed(blocks[k], date, pages);
    }
    RunConsistent(blocks, parsed, date, keys);
  }

  /** The blocks that parse to nothing, in order. */
  function Unmatched(blocks: seq<string>, parsed: seq<Option<Result<Record, Fault>>>): (r: seq<string>)
    requires |parsed| == |blocks|
    ensures |r| <= |blocks|
    ensures forall x :: x in r ==> exists k :: 0 <= k < |blocks| && blocks[k] == x && parsed[k].None?
    decreases |blocks|
  {
    if blocks == [] then []
    else
      var n := |blocks| - 1;
      var init := Unmatched(blocks[..n], parsed[..n]);
      if parsed[n].None? then init + [blocks[n]] else init
  }

  /** Each unmatched block as it is added to `redundant`. */
  function RedundantLines(blocks: seq<string>): (r: seq<string>)
    ensures |r| == |blocks| && forall k :: 0 <= k < |r| ==> r[k] == Strip(blocks[k]) + "\n"
  {
    seq(|blocks|, k requires 0 <= k < |blocks| => Strip(blocks[k]) + "\n")
  }

  /** One step without a fault adds the stripped block to `redundant` or counts it. */
  lemma StepAccounts(acc: Acc, b: string, parsed: Option<Result<Record, Fault>>, keys: seq<string>)
    requires acc.fault.None? && Step(acc, b, parsed, keys).fault.None?
    ensures Step(acc, b, parsed, keys).redundant == acc.redundant + (if parsed.None? then Strip(b) + "\n" else "")
    ensures Step(acc, b, parsed, keys).num == acc.num + (if parsed.None? then 0 else 1)
  {
    assert acc.redundant + "" == acc.redundant;
  }

  lemma RedundantLinesGrow(u: seq<string>, b: string)
    ensures Concat(RedundantLines(u + [b])) == Concat(RedundantLines(u)) + (Strip(b) + "\n")
  {
    assert RedundantLines(u + [b]) == RedundantLines(u) + [Strip(b) + "\n"];
    ConcatSnoc(RedundantLines(u), Strip(b) + "\n");
  }

  /**
   * A run that ends without a fault has looked at every block: each one was
   * either counted in `num` or kept, stripped, in `redundant`.
   */
  lemma {:induction false} RunAccountsForBlocks(blocks: seq<string>, parsed: seq<Option<Result<Record, Fault>>>, keys: seq<string>)
    requires |parsed| == |blocks|
    requires Run(blocks, parsed, keys).fault.None?
    ensures Run(blocks, parsed, keys).redundant == Concat(RedundantLines(Unmatched(blocks, parsed)))
    ensures Run(blocks, parsed, keys).num + |Unmatched(blocks, parsed)| == |blocks|
    decreases |blocks|
  {
    if blocks != [] {
      var n := |blocks| - 1;
      var prev := Run(blocks[..n], parsed[..n], keys);
      var u := Unmatched(blocks[..n], parsed[..n]);
      RunAccountsForBlocks(blocks[..n], parsed[..n], keys);
      StepAccounts(prev, blocks[n], parsed[n], keys);
      if parsed[n].None? {
        RedundantLinesGrow(u, blocks[n]);
      } else {
        assert Concat(RedundantLines(u)) + "" == Concat(RedundantLines(u));
      }
    }
  }

  /** The blocks kept in `redundant` are exactly those neither pattern matches. */
  lemma ParsesNone(blocks: seq<string>, date: string, pages: map<string, Page>, k: nat)
    requires k < |blocks|
    ensures ParsesWith(blocks, BlockParser(date, pages))[k].None? <==> Extract(blocks[k]).None?
  {
  }
}
