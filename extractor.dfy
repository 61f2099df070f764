/**
 * What the two patterns of src/paper_parser.py capture: each lazy group
 * stops at the first occurrence of what follows it, so it never contains
 * that delimiter, and the groups sit in the block in pattern order.
 */
module Extractor {
  import opened Wrappers
  import opened Text
  import opened Patterns

  /** A date group that opens after `Date:` and runs to the first `GMT`. */
  lemma PrimaryDateAt(b: string, p0: nat, p1: nat, date: string)
    requires FirstAfter(b, "GMT", p0 + 5, p1) && date == b[p0 + 5..p1 + 3]
    ensures GmtOnlyAtEnd(date, 0)
  {
    DateCapture(b, p0 + 5, 0, p1);
  }

  lemma PrimaryDateLazy(b: string)
    requires MatchPrimary(b).Some?
    ensures GmtOnlyAtEnd(MatchPrimary(b).value.date, 0)
  {
    var ds := PrimaryDelimiters;
    var p := Chain(b, ds, 0).value;
    ChainGap(b, ds, 0, 1);
    PrimaryDateAt(b, p[0], p[1], MatchPrimary(b).value.date);
  }

  lemma PrimaryTitleLazy(b: string)
    requires MatchPrimary(b).Some?
    ensures !Contains(MatchPrimary(b).value.title, "Authors:")
  {
    var p := Chain(b, PrimaryDelimiters, 0).value;
    var ds := PrimaryDelimiters;
    ChainFirst(b, ds, 0, 3);
    SliceFree(b, p[2] + 6, p[3], "Authors:");
  }

  lemma PrimaryAuthorsLazy(b: string)
    requires MatchPrimary(b).Some?
    ensures !Contains(MatchPrimary(b).value.authors, "Categories")
  {
    var p := Chain(b, PrimaryDelimiters, 0).value;
    var ds := PrimaryDelimiters;
    ChainFirst(b, ds, 0, 4);
    SliceFree(b, p[3] + 8, p[4], "Categories");
  }

  lemma PrimaryAbstractLazy(b: string)
    requires MatchPrimary(b).Some?
    ensures !Contains(MatchPrimary(b).value.abstractText, Backslashes)
  {
    var p := Chain(b, PrimaryDelimiters, 0).value;
    var ds := PrimaryDelimiters;
    ChainFirst(b, ds, 0, 6);
    SliceFree(b, p[5] + 2, p[6], Backslashes);
  }

  lemma PrimaryUrlLazy(b: string)
    requires MatchPrimary(b).Some?
    ensures UrlShaped(MatchPrimary(b).value.url)
  {
    var p := Chain(b, PrimaryDelimiters, 0).value;
    var ds := PrimaryDelimiters;
    ChainFirst(b, ds, 0, 7);
    UrlCapture(b, p[7], UrlEnd(b, p[7] + |UrlPrefix|).value);
  }

  /**
   * PATTERN's groups: the date runs to its first `GMT`; the title holds no
   * `Authors:`, the authors no `Categories`, the abstract no pair of
   * backslashes; the url is the prefix up to the first space or comma.
   */
  lemma PrimaryGroupsAreLazy(b: string)
    requires MatchPrimary(b).Some?
    ensures GmtOnlyAtEnd(MatchPrimary(b).value.date, 0)
    ensures !Contains(MatchPrimary(b).value.title, "Authors:")
    ensures !Contains(MatchPrimary(b).value.authors, "Categories")
    ensures !Contains(MatchPrimary(b).value.abstractText, Backslashes)
    ensures UrlShaped(MatchPrimary(b).value.url)
  {
    PrimaryDateLazy(b);
    PrimaryTitleLazy(b);
    PrimaryAuthorsLazy(b);
    PrimaryAbstractLazy(b);
    PrimaryUrlLazy(b);
  }

  /** PATTERN's title and authors sit in the block between their delimiters. */
  lemma PrimaryHeadInPlace(b: string)
    requires MatchPrimary(b).Some?
    ensures Contains(b, "Title:" + MatchPrimary(b).value.title + "Authors:" + MatchPrimary(b).value.authors + "Categories")
  {
    var p := Chain(b, PrimaryDelimiters, 0).value;
    var ds := PrimaryDelimiters;
    ChainOrdered(b, ds, 0, 3);
    ChainOrdered(b, ds, 0, 4);
    Sandwich3(b, p[2], ds[2], p[3], ds[3], p[4], ds[4]);
  }

  /** PATTERN's abstract is the text between two pairs of backslashes in the block. */
  lemma PrimaryAbstractInPlace(b: string)
    requires MatchPrimary(b).Some?
    ensures Contains(b, Backslashes + MatchPrimary(b).value.abstractText + Backslashes)
  {
    var p := Chain(b, PrimaryDelimiters, 0).value;
    var ds := PrimaryDelimiters;
    ChainOrdered(b, ds, 0, 6);
    Sandwich(b, p[5], Backslashes, p[6], Backslashes);
  }

  /** A date group that opens with `replaced` and runs to the first `GMT` after it. */
  lemma RevisedDateAt(b: string, p0: nat, p1: nat, date: string)
    requires OccursAt(b, "replaced", p0) && FirstAfter(b, "GMT", p0 + 8, p1) && date == b[p0..p1 + 3]
    ensures StartsWith(date, "replaced") && GmtOnlyAtEnd(date, 8)
  {
    DateCapture(b, p0, 8, p1);
    assert date[..8] == b[p0..p0 + 8];
  }

  lemma RevisedDateLazy(b: string)
    requires MatchRevised(b).Some?
    ensures StartsWith(MatchRevised(b).value.date, "replaced")
    ensures GmtOnlyAtEnd(MatchRevised(b).value.date, 8)
  {
    var ds := RevisedDelimiters;
    var p := Chain(b, ds, 0).value;
    ChainOccurs(b, ds, 0, 0);
    ChainGap(b, ds, 0, 1);
    RevisedDateAt(b, p[0], p[1], MatchRevised(b).value.date);
  }

  lemma RevisedTitleLazy(b: string)
    requires MatchRevised(b).Some?
    ensures !Contains(MatchRevised(b).value.title, "Authors:")
  {
    var p := Chain(b, RevisedDelimiters, 0).value;
    var ds := RevisedDelimiters;
    ChainFirst(b, ds, 0, 3);
    SliceFree(b, p[2] + 6, p[3], "Authors:");
  }

  lemma RevisedAuthorsLazy(b: string)
    requires MatchRevised(b).Some?
    ensures !Contains(MatchRevised(b).value.authors, "Categories")
  {
    var p := Chain(b, RevisedDelimiters, 0).value;
    var ds := RevisedDelimiters;
    ChainFirst(b, ds, 0, 4);
    SliceFree(b, p[3] + 8, p[4], "Categories");
  }

  /** The lazy abstract group of PATTERN_revised absorbs nothing: it is the word `Categories`. */
  lemma RevisedAbstractIsCategories(b: string)
    requires MatchRevised(b).Some?
    ensures MatchRevised(b).value.abstractText == "Categories"
  {
    var p := Chain(b, RevisedDelimiters, 0).value;
    var ds := RevisedDelimiters;
    ChainFirst(b, ds, 0, 4);
  }

  lemma RevisedUrlLazy(b: string)
    requires MatchRevised(b).Some?
    ensures UrlShaped(MatchRevised(b).value.url)
  {
    var p := Chain(b, RevisedDelimiters, 0).value;
    var ds := RevisedDelimiters;
    ChainFirst(b, ds, 0, 5);
    UrlCapture(b, p[5], UrlEnd(b, p[5] + |UrlPrefix|).value);
  }

  /**
   * PATTERN_revised's groups: the date runs from the first `replaced` to the
   * first `GMT` after it; title and authors as in PATTERN; the abstract is
   * exactly `Categories`; the url as in PATTERN.
   */
  lemma RevisedGroupsAreLazy(b: string)
    requires MatchRevised(b).Some?
    ensures StartsWith(MatchRevised(b).value.date, "replaced")
    ensures GmtOnlyAtEnd(MatchRevised(b).value.date, 8)
    ensures !Contains(MatchRevised(b).value.title, "Authors:")
    ensures !Contains(MatchRevised(b).value.authors, "Categories")
    ensures MatchRevised(b).value.abstractText == "Categories"
    ensures UrlShaped(MatchRevised(b).value.url)
  {
    RevisedDateLazy(b);
    RevisedTitleLazy(b);
    RevisedAuthorsLazy(b);
    RevisedAbstractIsCategories(b);
    RevisedUrlLazy(b);
  }

  /**
   * `PATTERN.match(content) or PATTERN_revised.match(content)`: the
   * revised pattern is consulted only when the primary one fails, and any
   * fields returned carry the shape their pattern guarantees.
   */
  function Extract(b: string): (r: Option<Fields>)
    ensures r.Some? <==> MatchPrimary(b).Some? || MatchRevised(b).Some?
    ensures MatchPrimary(b).Some? ==> r == MatchPrimary(b)
    ensures MatchPrimary(b).None? ==> r == MatchRevised(b)
    ensures r.Some? ==> EndsWith(r.value.date, "GMT") && UrlShaped(r.value.url)
    ensures r.Some? ==> !Contains(r.value.title, "Authors:") && !Contains(r.value.authors, "Categories")
    ensures r.Some? && MatchPrimary(b).None? ==> StartsWith(r.value.date, "replaced") && r.value.abstractText == "Categories"
  {
    if MatchPrimary(b).Some? then
      PrimaryGroupsAreLazy(b);
      MatchPrimary(b)
    else if MatchRevised(b).Some? then
      RevisedGroupsAreLazy(b);
      MatchRevised(b)
    else
      None
  }
}
