/**
 * Record extraction from one digest block (src/paper_parser.py).
 *
 * Both patterns are `re.match` with DOTALL over literal delimiters joined by
 * lazy `.*?` gaps and lazy groups. For such a pattern the backtracking
 * matcher's answer is the chain of first occurrences: each delimiter is the
 * first one after the previous, and when a delimiter has no occurrence there
 * it has none after any later choice either, so the match fails. Each
 * `Match` function below is that chain of `Find` calls.
 */
module Patterns {
  import opened Wrappers
  import opened Text

  /** The named groups of a successful match, as captured (not yet stripped). */
  datatype Fields = Fields(date: string, title: string, authors: string, abstractText: string, url: string)

  /** `https://arxiv.org/`; the `.` before `org` is read as a literal dot. */
  const UrlPrefix: string := "https://arxiv.org/"

  /** The pair of literal backslashes that brackets an abstract in a digest. */
  const Backslashes: string := "\\\\"

  /** The first space or comma at or after `from`: the `[ ,]` that ends the lazy url group. */
  function UrlEnd(b: string, from: nat): (r: Option<nat>)
    ensures r.Some? ==> from <= r.value < |b| && (b[r.value] == ' ' || b[r.value] == ',')
    ensures r.Some? ==> forall j :: from <= j < r.value ==> b[j] != ' ' && b[j] != ','
    ensures r.None? ==> forall j :: from <= j < |b| ==> b[j] != ' ' && b[j] != ','
    decreases |b| - from
  {
    if from >= |b| then None
    else if b[from] == ' ' || b[from] == ',' then Some(from)
    else UrlEnd(b, from + 1)
  }

  /** The url group: starts with the prefix, and holds no space or comma. */
  predicate UrlShaped(url: string) {
    StartsWith(url, UrlPrefix) && ' ' !in url && ',' !in url
  }

  /** `b[u..e]` is a url capture when the prefix sits at `u` and `e` is the first separator after it. */
  lemma UrlCapture(b: string, u: nat, e: nat)
    requires OccursAt(b, UrlPrefix, u) && u + |UrlPrefix| <= e <= |b|
    requires forall j :: u + |UrlPrefix| <= j < e ==> b[j] != ' ' && b[j] != ','
    ensures UrlShaped(b[u..e])
  {
    var url := b[u..e];
    assert url[..|UrlPrefix|] == UrlPrefix;
    forall i | 0 <= i < |url| ensures url[i] != ' ' && url[i] != ',' {
      if i < |UrlPrefix| {
        assert url[i] == UrlPrefix[i];
      } else {
        assert url[i] == b[u + i];
      }
    }
  }

  /** `"GMT"` occurs in a date capture only as its last three characters. */
  predicate GmtOnlyAtEnd(date: string, from: nat) {
    EndsWith(date, "GMT") && forall j :: from <= j < |date| - 3 ==> !OccursAt(date, "GMT", j)
  }

  /**
   * A date captured from `start` up to the first `GMT` at or after
   * `start + skip` holds no earlier `GMT` after its first `skip` characters.
   */
  lemma DateCapture(b: string, start: nat, skip: nat, g: nat)
    requires start + skip <= g && OccursAt(b, "GMT", g)
    requires forall j :: start + skip <= j < g ==> !OccursAt(b, "GMT", j)
    ensures GmtOnlyAtEnd(b[start..g + 3], skip)
  {
    var date := b[start..g + 3];
    assert date[|date| - 3..] == b[g..g + 3];
    forall j | skip <= j < |date| - 3 ensures !OccursAt(date, "GMT", j) {
      OccursInSlice(b, start, g + 3, "GMT", j);
    }
  }

  /** `pat` first occurs at `p` among the positions from `lo` on. */
  predicate FirstAfter(b: string, pat: string, lo: nat, p: nat) {
    lo <= p && OccursAt(b, pat, p) && forall j :: lo <= j < p ==> !OccursAt(b, pat, j)
  }

  /** Where the search for the `k`-th delimiter starts: just after the previous one. */
  function GapStart(pats: seq<string>, ps: seq<nat>, from: nat, k: nat): nat
    requires k < |pats| && |ps| == |pats|
  {
    if k == 0 then from else ps[k - 1] + |pats[k - 1]|
  }

  /**
   * Literal delimiters joined by lazy gaps: each delimiter is looked for from
   * the end of the previous one and its first occurrence is taken.
   */
  function Chain(b: string, pats: seq<string>, from: nat): (r: Option<seq<nat>>)
    ensures r.Some? ==> |r.value| == |pats|
    decreases |pats|
  {
    if pats == [] then Some([])
    else
      match Find(b, pats[0], from)
      case None => None
      case Some(p) =>
        match Chain(b, pats[1..], p + |pats[0]|)
        case None => None
        case Some(rest) => Some([p] + rest)
  }

  /** Each delimiter of a chain is the first occurrence after the end of the previous one. */
  lemma {:induction false} ChainFirst(b: string, pats: seq<string>, from: nat, k: nat)
    requires Chain(b, pats, from).Some? && k < |pats|
    ensures FirstAfter(b, pats[k], GapStart(pats, Chain(b, pats, from).value, from, k), Chain(b, pats, from).value[k])
    decreases |pats|
  {
    var p := Find(b, pats[0], from).value;
    if k > 0 {
      var rest := Chain(b, pats[1..], p + |pats[0]|).value;
      ChainFirst(b, pats[1..], p + |pats[0]|, k - 1);
      assert pats[k] == pats[1..][k - 1];
      assert GapStart(pats, [p] + rest, from, k) == GapStart(pats[1..], rest, p + |pats[0]|, k - 1);
    }
  }

  /** A delimiter after the first is the first occurrence from the end of the one before. */
  lemma ChainGap(b: string, pats: seq<string>, from: nat, k: nat)
    requires Chain(b, pats, from).Some? && 0 < k < |pats|
    ensures var p := Chain(b, pats, from).value; FirstAfter(b, pats[k], p[k - 1] + |pats[k - 1]|, p[k])
  {
    ChainFirst(b, pats, from, k);
  }

  /** The `k`-th delimiter of a chain occurs where the chain says. */
  lemma ChainOccurs(b: string, pats: seq<string>, from: nat, k: nat)
    requires Chain(b, pats, from).Some? && k < |pats|
    ensures OccursAt(b, pats[k], Chain(b, pats, from).value[k])
  {
    ChainFirst(b, pats, from, k);
  }

  /** The `k`-th delimiter of a chain lies in the text, after the end of the previous one. */
  lemma ChainBound(b: string, pats: seq<string>, from: nat, k: nat)
    requires Chain(b, pats, from).Some? && k < |pats|
    ensures GapStart(pats, Chain(b, pats, from).value, from, k) <= Chain(b, pats, from).value[k]
    ensures Chain(b, pats, from).value[k] + |pats[k]| <= |b|
  {
    ChainFirst(b, pats, from, k);
  }

  /** Each delimiter of a chain occurs after the end of the previous one. */
  lemma ChainOrdered(b: string, pats: seq<string>, from: nat, k: nat)
    requires Chain(b, pats, from).Some? && 0 < k < |pats|
    ensures var p := Chain(b, pats, from).value;
      p[k - 1] + |pats[k - 1]| <= p[k] && OccursAt(b, pats[k - 1], p[k - 1]) && OccursAt(b, pats[k], p[k])
  {
    ChainFirst(b, pats, from, k);
    ChainFirst(b, pats, from, k - 1);
  }

  /** Positions where the delimiters occur in order from `from` on, each after the end of the one before. */
  predicate Placement(b: string, pats: seq<string>, from: nat, qs: seq<nat>) {
    && |qs| == |pats|
    && (forall k :: 0 <= k < |pats| ==> OccursAt(b, pats[k], qs[k]))
    && (|pats| > 0 ==> from <= qs[0])
    && (forall k :: 0 < k < |pats| ==> qs[k - 1] + |pats[k - 1]| <= qs[k])
  }

  /**
   * The search misses no match: wherever the delimiters can be placed in
   * order, the chain of first occurrences exists, each delimiter at or
   * before its place there.
   */
  lemma {:induction false} ChainComplete(b: string, pats: seq<string>, from: nat, qs: seq<nat>)
    requires Placement(b, pats, from, qs)
    ensures Chain(b, pats, from).Some?
    ensures forall k :: 0 <= k < |pats| ==> Chain(b, pats, from).value[k] <= qs[k]
    decreases |pats|
  {
    if pats != [] {
      assert OccursAt(b, pats[0], qs[0]);
      var p := Find(b, pats[0], from).value;
      var next := p + |pats[0]|;
      assert Placement(b, pats[1..], next, qs[1..]) by {
        forall k | 0 <= k < |pats| - 1 ensures OccursAt(b, pats[1..][k], qs[1..][k]) {
          assert pats[1..][k] == pats[k + 1] && qs[1..][k] == qs[k + 1];
        }
        if |pats| > 1 {
          assert qs[0] + |pats[0]| <= qs[1];
        }
        forall k | 0 < k < |pats| - 1 ensures qs[1..][k - 1] + |pats[1..][k - 1]| <= qs[1..][k] {
          assert qs[k] + |pats[k]| <= qs[k + 1];
        }
      }
      ChainComplete(b, pats[1..], next, qs[1..]);
      var rest := Chain(b, pats[1..], next).value;
      assert Chain(b, pats, from).value == [p] + rest;
      forall k | 0 < k < |pats| ensures ([p] + rest)[k] <= qs[k] {
        assert ([p] + rest)[k] == rest[k - 1] && qs[1..][k - 1] == qs[k];
      }
    }
  }

  /** A separator sits at or after `from`: the lazy url group can close there. */
  lemma UrlEndComplete(b: string, from: nat, e: nat)
    requires from <= e < |b| && (b[e] == ' ' || b[e] == ',')
    ensures UrlEnd(b, from).Some? && UrlEnd(b, from).value <= e
  {
  }

  /** The delimiters of PATTERN, in order. */
  const PrimaryDelimiters: seq<string> :=
    ["Date:", "GMT", "Title:", "Authors:", "Categories", Backslashes, Backslashes, UrlPrefix]

  /**
   * `PATTERN.match(block)` as its named groups, for PATTERN =
   * `.*?Date:(?P<date>.*?GMT).*?Title:(?P<title>.*?)Authors:(?P<authors>.*?)`
   * `Categories.*?\\\\(?P<abstract>.*?)\\\\.*?(?P<url>https://arxiv.org/.*?)[ ,].*?`.
   */
  function MatchPrimary(b: string): Option<Fields> {
    match Chain(b, PrimaryDelimiters, 0)
    case None => None
    case Some(p) =>
      ChainBound(b, PrimaryDelimiters, 0, 1);
      ChainBound(b, PrimaryDelimiters, 0, 3);
      ChainBound(b, PrimaryDelimiters, 0, 4);
      ChainBound(b, PrimaryDelimiters, 0, 6);
      ChainBound(b, PrimaryDelimiters, 0, 7);
      match UrlEnd(b, p[7] + |UrlPrefix|)
      case None => None
      case Some(e) =>
        Some(Fields(b[p[0] + 5..p[1] + 3], b[p[2] + 6..p[3]], b[p[3] + 8..p[4]], b[p[5] + 2..p[6]], b[p[7]..e]))
  }

  /**
   * PATTERN matches wherever its delimiters can be placed in order and a
   * space or comma follows the url prefix: the model fails only where the
   * regex does.
   */
  lemma MatchPrimaryComplete(b: string, qs: seq<nat>, e: nat)
    requires Placement(b, PrimaryDelimiters, 0, qs)
    requires qs[7] + |UrlPrefix| <= e < |b| && (b[e] == ' ' || b[e] == ',')
    ensures MatchPrimary(b).Some?
  {
    ChainComplete(b, PrimaryDelimiters, 0, qs);
    var p := Chain(b, PrimaryDelimiters, 0).value;
    assert p[7] <= qs[7];
    UrlEndComplete(b, p[7] + |UrlPrefix|, e);
  }

  /** The delimiters of PATTERN_revised, in order. */
  const RevisedDelimiters: seq<string> :=
    ["replaced", "GMT", "Title:", "Authors:", "Categories", UrlPrefix]

  /**
   * `PATTERN_revised.match(block)` as its named groups, for PATTERN_revised =
   * `.*?(?P<date>replaced.*?GMT).*?Title:(?P<title>.*?)Authors:(?P<authors>.*?)`
   * `(?P<abstract>Categories.*?).*?(?P<url>https://arxiv.org/.*?)[ ,].*?`.
   * The abstract group is lazy and followed by a lazy gap, so it is the
   * word `Categories` alone.
   */
  function MatchRevised(b: string): Option<Fields> {
    match Chain(b, RevisedDelimiters, 0)
    case None => None
    case Some(p) =>
      ChainBound(b, RevisedDelimiters, 0, 1);
      ChainBound(b, RevisedDelimiters, 0, 3);
      ChainBound(b, RevisedDelimiters, 0, 4);
      ChainBound(b, RevisedDelimiters, 0, 5);
      match UrlEnd(b, p[5] + |UrlPrefix|)
      case None => None
      case Some(e) =>
        Some(Fields(b[p[0]..p[1] + 3], b[p[2] + 6..p[3]], b[p[3] + 8..p[4]], b[p[4]..p[4] + 10], b[p[5]..e]))
  }

  /** The same for PATTERN_revised. */
  lemma MatchRevisedComplete(b: string, qs: seq<nat>, e: nat)
    requires Placement(b, RevisedDelimiters, 0, qs)
    requires qs[5] + |UrlPrefix| <= e < |b| && (b[e] == ' ' || b[e] == ',')
    ensures MatchRevised(b).Some?
  {
    ChainComplete(b, RevisedDelimiters, 0, qs);
    var p := Chain(b, RevisedDelimiters, 0).value;
    assert p[5] <= qs[5];
    UrlEndComplete(b, p[5] + |UrlPrefix|, e);
  }
}
