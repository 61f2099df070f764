/**
 * Digest segmentation: `re.split('---------------+', text)` cuts one digest
 * into blocks at every run of fifteen or more dashes, leftmost first, each
 * run taken as long as it goes.
 */
module Segmenter {
  import opened Wrappers
  import opened Text

  /** The separator regex is fifteen dashes followed by `+`. */
  const MinRun: nat := 15

  /** Fifteen dashes start at index `i` of `s`. */
  predicate DashRunAt(s: string, i: int) {
    0 <= i && i + MinRun <= |s| && forall k :: i <= k < i + MinRun ==> s[k] == '-'
  }

  /** `s` holds no run of fifteen dashes. */
  predicate NoDashRun(s: string) {
    forall i :: 0 <= i <= |s| ==> !DashRunAt(s, i)
  }

  predicate AllDashes(s: string) { forall k :: 0 <= k < |s| ==> s[k] == '-' }

  predicate StartsWithDash(s: string) { |s| > 0 && s[0] == '-' }

  predicate EndsWithDash(s: string) { |s| > 0 && s[|s| - 1] == '-' }

  /** Leftmost start of a separator at or after `from`. */
  function FirstDashRun(s: string, from: nat): (r: Option<nat>)
    ensures r.Some? ==> from <= r.value && DashRunAt(s, r.value)
    ensures r.Some? ==> forall j :: from <= j < r.value ==> !DashRunAt(s, j)
    ensures r.None? ==> forall j :: from <= j ==> !DashRunAt(s, j)
    decreases |s| - from
  {
    if from + MinRun > |s| then None
    else if DashRunAt(s, from) then Some(from)
    else FirstDashRun(s, from + 1)
  }

  /** End of the dash run that starts at `i` (the `+` is greedy). */
  function DashEnd(s: string, i: nat): (r: nat)
    requires i <= |s|
    ensures i <= r <= |s|
    ensures forall k :: i <= k < r ==> s[k] == '-'
    ensures r == |s| || s[r] != '-'
    decreases |s| - i
  {
    if i < |s| && s[i] == '-' then DashEnd(s, i + 1) else i
  }

  /**
   * The segmentation: the blocks, with the removed runs put back between
   * them, give the text again.
   */
  function Segment(text: string): (p: Pieces)
    ensures |p.blocks| == |p.runs| + 1
    ensures Interleave(p.blocks, p.runs) == text
    ensures |p.blocks[0]| <= |text| && p.blocks[0] == text[..|p.blocks[0]|]
    decreases |text|
  {
    match FirstDashRun(text, 0)
    case None => Pieces([text], [])
    case Some(i) =>
      var j := DashEnd(text, i);
      var rest := Segment(text[j..]);
      assert text == text[..i] + text[i..j] + text[j..];
      var p := Pieces([text[..i]] + rest.blocks, [text[i..j]] + rest.runs);
      assert p.blocks[1..] == rest.blocks && p.runs[1..] == rest.runs;
      p
  }

  /** Every run `Segment` removes is fifteen or more dashes. */
  lemma {:induction false} SegmentRunsAreSeparators(text: string)
    ensures forall k :: 0 <= k < |Segment(text).runs| ==>
      |Segment(text).runs[k]| >= MinRun && AllDashes(Segment(text).runs[k])
    decreases |text|
  {
    match FirstDashRun(text, 0)
    case None =>
    case Some(i) =>
      var j := DashEnd(text, i);
      SegmentRunsAreSeparators(text[j..]);
      var p, rest := Segment(text), Segment(text[j..]);
      assert p.runs == [text[i..j]] + rest.runs;
  }

  /**
   * No block holds fifteen dashes, and the runs are maximal: the block before
   * a run does not end with a dash and the block after it does not start
   * with one.
   */
  lemma {:induction false} SegmentBlocksAreClean(text: string)
    ensures forall k :: 0 <= k < |Segment(text).blocks| ==> NoDashRun(Segment(text).blocks[k])
    ensures forall k :: 0 <= k < |Segment(text).runs| ==> !EndsWithDash(Segment(text).blocks[k])
    ensures forall k :: 1 <= k < |Segment(text).blocks| ==> !StartsWithDash(Segment(text).blocks[k])
    decreases |text|
  {
    match FirstDashRun(text, 0)
    case None =>
      assert NoDashRun(text);
    case Some(i) =>
      var j := DashEnd(text, i);
      SegmentBlocksAreClean(text[j..]);
      var p, rest := Segment(text), Segment(text[j..]);
      assert p.blocks == [text[..i]] + rest.blocks && p.runs == [text[i..j]] + rest.runs;
      HeadClean(text, i);
      TailClean(text, j);
      forall k | 0 <= k < |p.blocks|
        ensures NoDashRun(p.blocks[k])
        ensures k < |p.runs| ==> !EndsWithDash(p.blocks[k])
        ensures 1 <= k ==> !StartsWithDash(p.blocks[k])
      {
        if k > 0 {
          assert p.blocks[k] == rest.blocks[k - 1];
        }
      }
  }

  /** The text before the first run holds none and does not end with a dash. */
  lemma HeadClean(text: string, i: nat)
    requires FirstDashRun(text, 0) == Some(i)
    ensures NoDashRun(text[..i]) && !EndsWithDash(text[..i])
  {
    var head := text[..i];
    forall x | 0 <= x <= |head| ensures !DashRunAt(head, x) {
      assert DashRunAt(head, x) ==> DashRunAt(text, x);
    }
    assert EndsWithDash(head) ==> DashRunAt(text, i - 1);
  }

  /** After a maximal run the next block does not start with a dash. */
  lemma TailClean(text: string, j: nat)
    requires j <= |text| && (j == |text| || text[j] != '-')
    ensures !StartsWithDash(Segment(text[j..]).blocks[0])
  {
    var first := Segment(text[j..]).blocks[0];
    assert |first| > 0 ==> first[0] == text[j];
  }
}
