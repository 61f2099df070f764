/**
 * What `parse_abstract` and `parse_history` make of a paper's abstract page.
 * Parsing the HTML and selecting the elements are outside the model: each
 * operation receives the `string()` value of every selected element, in
 * document order.
 */
module Revision {
  import opened Wrappers
  import opened Text

  // ------------------------------------------------------------- abstract

  const AbstractLabel := "Abstract:"

  /** `re.sub("^Abstract:", "", s)`: the label is removed only at the very start. */
  function DropLabel(s: string): (r: string)
    ensures StartsWith(s, AbstractLabel) ==> s == AbstractLabel + r
    ensures !StartsWith(s, AbstractLabel) ==> r == s
  {
    if StartsWith(s, AbstractLabel) then s[|AbstractLabel|..] else s
  }

  /** The abstract the page yields: stripped element texts joined, label dropped, stripped. */
  function AbstractOf(texts: seq<string>): string {
    var joined := Concat(StripEach(texts));
    Strip(DropLabel(joined))
  }

  /** The abstract has no surrounding whitespace. */
  lemma AbstractTrimmed(texts: seq<string>)
    ensures var r := AbstractOf(texts); r == [] || (!IsSpace(r[0]) && !IsSpace(r[|r| - 1]))
  {
    var s := DropLabel(Concat(StripEach(texts)));
    assert AbstractOf(texts) == Strip(s);
  }

  /** Appending one element's stripped text extends the joined texts by it. */
  lemma JoinedStep(texts: seq<string>, i: nat)
    requires i < |texts|
    ensures Concat(StripEach(texts[..i + 1])) == Concat(StripEach(texts[..i])) + Strip(texts[i])
  {
    assert StripEach(texts[..i + 1]) == StripEach(texts[..i]) + [Strip(texts[i])];
    ConcatSnoc(StripEach(texts[..i]), Strip(texts[i]));
  }

  /** The loop both page parsers open with: the stripped element texts, concatenated. */
  method JoinStripped(texts: seq<string>) returns (joined: string)
    ensures joined == Concat(StripEach(texts))
  {
    joined := "";
    for i := 0 to |texts|
      invariant joined == Concat(StripEach(texts[..i]))
    {
      JoinedStep(texts, i);
      joined := joined + Strip(texts[i]);
    }
    assert texts[..|texts|] == texts;
  }

  method ParseAbstract(texts: seq<string>) returns (abstractText: string)
    ensures abstractText == AbstractOf(texts)
  {
    var joined := JoinStripped(texts);
    abstractText := Strip(DropLabel(joined));
  }

  // ------------------------------------------------------- version markers

  /** Text matched by `\[v\d+\]`. */
  predicate IsMarker(x: string) {
    |x| >= 4 && x[0] == '[' && x[1] == 'v' && x[|x| - 1] == ']' &&
    forall k :: 2 <= k < |x| - 1 ==> IsDigit(x[k])
  }

  /** No stretch of `p` is a marker. */
  predicate MarkerFree(p: string) {
    forall i, e :: 0 <= i < e <= |p| ==> !IsMarker(p[i..e])
  }

  /** End of the marker starting at `i`, if one does. */
  function MarkerEnd(s: string, i: nat): (r: Option<nat>)
    ensures r.Some? ==> i < r.value <= |s| && IsMarker(s[i..r.value])
  {
    if i + 1 < |s| && s[i] == '[' && s[i + 1] == 'v' then
      var d := DigitRun(s, i + 2);
      if d > 0 && i + 2 + d < |s| && s[i + 2 + d] == ']' then Some(i + 3 + d) else None
    else None
  }

  /** A marker starts at `i` and ends at `e` exactly when `s[i..e]` is one. */
  lemma MarkerEndExact(s: string, i: nat, e: nat)
    requires i < e <= |s|
    ensures MarkerEnd(s, i) == Some(e) <==> IsMarker(s[i..e])
  {
    if IsMarker(s[i..e]) {
      var x := s[i..e];
      forall k | i + 2 <= k < i + 2 + (e - i - 3) ensures IsDigit(s[k]) {
        assert x[k - i] == s[k];
      }
      assert s[e - 1] == x[|x| - 1];
      DigitRunLocal(s, i + 2, e - i - 3);
    }
  }

  /** A position where no marker starts. */
  lemma NoMarkerAt(s: string, i: nat)
    requires forall e :: i < e <= |s| ==> !IsMarker(s[i..e])
    ensures MarkerEnd(s, i).None?
  {
  }

  /** Leftmost marker at or after `from`: its start and end. */
  function FirstMarker(s: string, from: nat): (r: Option<(nat, nat)>)
    ensures r.Some? ==> from <= r.value.0 && MarkerEnd(s, r.value.0) == Some(r.value.1)
    ensures r.Some? ==> forall j :: from <= j < r.value.0 ==> MarkerEnd(s, j).None?
    ensures r.None? ==> forall j :: from <= j ==> MarkerEnd(s, j).None?
    decreases |s| - from
  {
    if from >= |s| then None
    else match MarkerEnd(s, from)
      case Some(e) => Some((from, e))
      case None => FirstMarker(s, from + 1)
  }

  lemma {:induction false} FirstMarkerAt(s: string, from: nat, a: nat, e: nat)
    requires from <= a && MarkerEnd(s, a) == Some(e)
    requires forall j :: from <= j < a ==> MarkerEnd(s, j).None?
    ensures FirstMarker(s, from) == Some((a, e))
    decreases a - from
  {
    if from < a {
      FirstMarkerAt(s, from + 1, a, e);
    }
  }

  /** `re.split('\[v\d+\]', s)`, with the markers it cut out. */
  function SplitMarkers(s: string): (p: Pieces)
    ensures |p.blocks| == |p.runs| + 1
    ensures Interleave(p.blocks, p.runs) == s
    decreases |s|
  {
    match FirstMarker(s, 0)
    case None => Pieces([s], [])
    case Some((a, e)) =>
      var rest := SplitMarkers(s[e..]);
      var p := Pieces([s[..a]] + rest.blocks, [s[a..e]] + rest.runs);
      assert p.blocks[1..] == rest.blocks && p.runs[1..] == rest.runs;
      assert s == s[..a] + s[a..e] + s[e..];
      p
  }

  /** Where no marker starts before `a`, nothing before `a` is a marker. */
  lemma FreeBefore(s: string, a: nat)
    requires a <= |s|
    requires forall j :: 0 <= j < a ==> MarkerEnd(s, j).None?
    ensures MarkerFree(s[..a])
  {
    forall i, e | 0 <= i < e <= a ensures !IsMarker(s[..a][i..e]) {
      assert s[..a][i..e] == s[i..e];
      MarkerEndExact(s, i, e);
    }
  }

  /** The split yields markers between marker-free pieces. */
  lemma {:induction false} SplitMarkersShape(s: string)
    ensures forall k :: 0 <= k < |SplitMarkers(s).runs| ==> IsMarker(SplitMarkers(s).runs[k])
    ensures forall k :: 0 <= k < |SplitMarkers(s).blocks| ==> MarkerFree(SplitMarkers(s).blocks[k])
    decreases |s|
  {
    match FirstMarker(s, 0)
    case None =>
      assert s[..|s|] == s;
      FreeBefore(s, |s|);
    case Some((a, e)) =>
      SplitMarkersShape(s[e..]);
      FreeBefore(s, a);
  }

  /** No marker starts inside `p` when a marker-free `p` is followed by a `[`. */
  lemma NoMarkerInside(p: string, t: string, j: nat)
    requires MarkerFree(p) && j < |p| && |t| > 0 && t[0] == '['
    ensures MarkerEnd(p + t, j).None?
  {
    var s := p + t;
    forall e | j < e <= |s| ensures !IsMarker(s[j..e]) {
      if e <= |p| {
        assert s[j..e] == p[j..e];
      } else {
        assert s[j..e][|p| - j] == '[';
      }
    }
    NoMarkerAt(s, j);
  }

  /** Splitting undoes interleaving marker-free pieces with markers. */
  lemma {:induction false} SplitMarkersInverse(blocks: seq<string>, runs: seq<string>)
    requires |blocks| == |runs| + 1
    requires forall k :: 0 <= k < |blocks| ==> MarkerFree(blocks[k])
    requires forall k :: 0 <= k < |runs| ==> IsMarker(runs[k])
    ensures SplitMarkers(Interleave(blocks, runs)) == Pieces(blocks, runs)
    decreases |runs|
  {
    var s := Interleave(blocks, runs);
    if runs == [] {
      forall j | 0 <= j ensures MarkerEnd(s, j).None? {
        if j < |s| {
          forall e | j < e <= |s| ensures !IsMarker(s[j..e]) { }
        }
        NoMarkerAt(s, j);
      }
    } else {
      var p, m := blocks[0], runs[0];
      var rest := Interleave(blocks[1..], runs[1..]);
      assert s == p + (m + rest);
      forall j | 0 <= j < |p| ensures MarkerEnd(s, j).None? {
        NoMarkerInside(p, m + rest, j);
      }
      assert s[|p|..|p| + |m|] == m;
      MarkerEndExact(s, |p|, |p| + |m|);
      FirstMarkerAt(s, 0, |p|, |p| + |m|);
      assert s[..|p|] == p;
      assert s[|p| + |m|..] == rest;
      SplitMarkersInverse(blocks[1..], runs[1..]);
      assert SplitMarkers(s) == Pieces([p] + blocks[1..], [m] + runs[1..]);
      HeadTail(blocks);
      HeadTail(runs);
    }
  }

  lemma HeadTail(x: seq<string>)
    requires |x| > 0
    ensures x == [x[0]] + x[1..]
  {
  }

  // -------------------------------------------------------------- history

  /** One history entry: the piece stripped, tagged `[v<i>]` from the second piece on. */
  function VersionEntry(i: nat, piece: string): string {
    (if i > 0 then "[v" + NatToString(i) + "] " else "") + Strip(piece) + "\n"
  }

  function Entries(pieces: seq<string>): (r: seq<string>)
    ensures |r| == |pieces| && forall k :: 0 <= k < |r| ==> r[k] == VersionEntry(k, pieces[k])
  {
    seq(|pieces|, k requires 0 <= k < |pieces| => VersionEntry(k, pieces[k]))
  }

  /** The history the page yields, from the element texts. */
  function HistoryOf(texts: seq<string>): (r: string)
    ensures r == [] || (!IsSpace(r[0]) && !IsSpace(r[|r| - 1]))
  {
    Strip(Concat(Entries(SplitMarkers(Concat(StripEach(texts))).blocks)))
  }

  /**
   * The history renumbers the versions by position: the markers found in
   * the page are dropped, whatever numbers they carried, and the pieces
   * between them are tagged `[v1]`, `[v2]`, ... in order.
   */
  lemma {:induction false} HistoryRenumbers(texts: seq<string>, blocks: seq<string>, runs: seq<string>)
    requires |blocks| == |runs| + 1
    requires forall k :: 0 <= k < |blocks| ==> MarkerFree(blocks[k])
    requires forall k :: 0 <= k < |runs| ==> IsMarker(runs[k])
    requires Concat(StripEach(texts)) == Interleave(blocks, runs)
    ensures HistoryOf(texts) == Strip(Concat(Entries(blocks)))
  {
    SplitMarkersInverse(blocks, runs);
  }

  lemma EntriesStep(pieces: seq<string>, i: nat)
    requires i < |pieces|
    ensures Concat(Entries(pieces[..i + 1])) == Concat(Entries(pieces[..i])) + VersionEntry(i, pieces[i])
  {
    var longer, shorter := Entries(pieces[..i + 1]), Entries(pieces[..i]);
    forall k | 0 <= k < i ensures longer[k] == shorter[k] {
      assert pieces[..i + 1][k] == pieces[..i][k];
    }
    assert longer == shorter + [VersionEntry(i, pieces[i])];
    ConcatSnoc(Entries(pieces[..i]), VersionEntry(i, pieces[i]));
  }

  /** An entry is the piece's stripped line, after its tag from the second piece on. */
  lemma VersionEntryShape(i: nat, content: string, piece: string)
    requires content == Strip(piece) + "\n"
    ensures VersionEntry(i, piece) == if i > 0 then "[v" + NatToString(i) + "] " + content else content
  {
  }

  /** The second loop of `parse_history`: every piece as its history entry, in order. */
  method RenderEntries(pieces: seq<string>) returns (h: string)
    ensures h == Concat(Entries(pieces))
  {
    h := "";
    for i := 0 to |pieces|
      invariant h == Concat(Entries(pieces[..i]))
    {
      EntriesStep(pieces, i);
      var content := Strip(pieces[i]) + "\n";
      var entry := if i > 0 then "[v" + NatToString(i) + "] " + content else content;
      VersionEntryShape(i, content, pieces[i]);
      h := h + entry;
    }
    assert pieces[..|pieces|] == pieces;
  }

  method ParseHistory(texts: seq<string>) returns (history: string)
    ensures history == HistoryOf(texts)
  {
    var text := JoinStripped(texts);
    var h := RenderEntries(SplitMarkers(text).blocks);
    history := Strip(h);
  }
}
