/**
 * The Python `str` operations the three components rely on, over `string`
 * (a sequence of code points): `strip`, `lower`, `in`, `find`, `startswith`,
 * `replace`, `split`, `join`, decimal conversion and ordering.
 */
module Text {
  import opened Wrappers

  /** Python's `str.isspace`: the characters `strip()` removes. */
  predicate IsSpace(c: char) {
    c == ' ' || c == '\t' || c == '\n' || c == '\r' || c == '\U{000B}' || c == '\U{000C}'
    || ('\U{001C}' <= c <= '\U{001F}') || c == '\U{0085}' || c == '\U{00A0}' || c == '\U{1680}'
    || ('\U{2000}' <= c <= '\U{200A}') || c == '\U{2028}' || c == '\U{2029}' || c == '\U{202F}'
    || c == '\U{205F}' || c == '\U{3000}'
  }

  predicate IsDigit(c: char) { '0' <= c <= '9' }

  predicate AllDigits(s: string) { forall i :: 0 <= i < |s| ==> IsDigit(s[i]) }

  predicate NoSpaceAt(s: string, i: int) { 0 <= i < |s| ==> !IsSpace(s[i]) }

  /** Number of whitespace characters at the start of `s`. */
  function LeadingSpaces(s: string): (n: nat)
    ensures n <= |s|
    ensures forall i :: 0 <= i < n ==> IsSpace(s[i])
    ensures n == |s| || !IsSpace(s[n])
  {
    if s == [] || !IsSpace(s[0]) then 0 else 1 + LeadingSpaces(s[1..])
  }

  /** Number of whitespace characters at the end of `s`. */
  function TrailingSpaces(s: string): (n: nat)
    ensures n <= |s|
    ensures forall i :: |s| - n <= i < |s| ==> IsSpace(s[i])
    ensures n == |s| || !IsSpace(s[|s| - 1 - n])
  {
    if s == [] || !IsSpace(s[|s| - 1]) then 0 else 1 + TrailingSpaces(s[..|s| - 1])
  }

  /** Start of the text `strip()` keeps. */
  function StripLo(s: string): nat {
    LeadingSpaces(s)
  }

  /** End of the text `strip()` keeps. */
  function StripHi(s: string): (hi: nat)
    ensures StripLo(s) <= hi <= |s|
  {
    |s| - TrailingSpaces(s[LeadingSpaces(s)..])
  }

  /** Python `s.strip()`: what lies between the leading and the trailing whitespace. */
  function Strip(s: string): (r: string)
    ensures r == s[StripLo(s)..StripHi(s)]
    ensures r == [] || (!IsSpace(r[0]) && !IsSpace(r[|r| - 1]))
  {
    var a := s[LeadingSpaces(s)..];
    a[..|a| - TrailingSpaces(a)]
  }

  /** What `Strip` drops is whitespace. */
  lemma StripTrims(s: string)
    ensures forall i :: 0 <= i < StripLo(s) ==> IsSpace(s[i])
    ensures forall i :: StripHi(s) <= i < |s| ==> IsSpace(s[i])
  {
    var a := s[LeadingSpaces(s)..];
    assert forall i :: |a| - TrailingSpaces(a) <= i < |a| ==> IsSpace(a[i]);
  }

  /** A text with no whitespace at either end is its own strip. */
  lemma StripPlain(s: string)
    requires s == [] || (!IsSpace(s[0]) && !IsSpace(s[|s| - 1]))
    ensures Strip(s) == s
  {
    assert s[LeadingSpaces(s)..] == s;
  }

  /** Whitespace around such a text is what `strip()` removes. */
  lemma StripPadded(s: string, pre: string, post: string)
    requires s != [] && !IsSpace(s[0]) && !IsSpace(s[|s| - 1])
    requires forall i :: 0 <= i < |pre| ==> IsSpace(pre[i])
    requires forall i :: 0 <= i < |post| ==> IsSpace(post[i])
    ensures Strip(pre + s + post) == s
  {
    var t := pre + s + post;
    var n := LeadingSpaces(t);
    assert t[|pre|] == s[0];
    assert n == |pre|;
    var a := t[n..];
    assert a == s + post;
    var m := TrailingSpaces(a);
    assert a[|s| - 1] == s[|s| - 1];
    assert m == |post|;
    assert a[..|a| - m] == s;
  }

  /** Every character of `Strip(s)` comes from `s`. */
  lemma StripChars(s: string, c: char)
    requires c !in s
    ensures c !in Strip(s)
  {
    assert forall i :: 0 <= i < |Strip(s)| ==> Strip(s)[i] == s[StripLo(s) + i];
  }

  /** Python `c.lower()` on ASCII letters; other characters are kept. */
  function LowerChar(c: char): char {
    if 'A' <= c <= 'Z' then (c as int + 32) as char else c
  }

  /** Python `s.lower()` (ASCII case mapping). */
  function Lower(s: string): (r: string)
    ensures |r| == |s|
    ensures forall i :: 0 <= i < |s| ==> r[i] == LowerChar(s[i])
  {
    seq(|s|, i requires 0 <= i < |s| => LowerChar(s[i]))
  }

  /** `pat` occurs in `s` starting at index `i`. */
  predicate OccursAt(s: string, pat: string, i: int) {
    0 <= i && i + |pat| <= |s| && s[i..i + |pat|] == pat
  }

  /** Python `s.find(pat, from)`: the first occurrence of `pat` at or after `from`. */
  function Find(s: string, pat: string, from: nat): (r: Option<nat>)
    ensures r.Some? ==> from <= r.value && OccursAt(s, pat, r.value)
    ensures r.Some? ==> forall j :: from <= j < r.value ==> !OccursAt(s, pat, j)
    ensures r.None? ==> forall j :: from <= j ==> !OccursAt(s, pat, j)
    decreases |s| - from
  {
    if from + |pat| > |s| then None
    else if s[from..from + |pat|] == pat then Some(from)
    else Find(s, pat, from + 1)
  }

  /** Python `pat in s`. */
  predicate Contains(s: string, pat: string) {
    exists i :: 0 <= i <= |s| && OccursAt(s, pat, i)
  }

  lemma FindContains(s: string, pat: string)
    ensures Find(s, pat, 0).Some? <==> Contains(s, pat)
  {
    if Find(s, pat, 0).Some? {
      assert OccursAt(s, pat, Find(s, pat, 0).value);
    }
  }

  predicate StartsWith(s: string, p: string) { |p| <= |s| && s[..|p|] == p }

  predicate EndsWith(s: string, p: string) { |p| <= |s| && s[|s| - |p|..] == p }

  /** The occurrences inside the slice `s[lo..hi]` are those in `s` that fit in it. */
  lemma OccursInSlice(s: string, lo: nat, hi: nat, pat: string, j: int)
    requires lo <= hi <= |s|
    ensures OccursAt(s[lo..hi], pat, j) <==> 0 <= j && j + |pat| <= hi - lo && OccursAt(s, pat, lo + j)
  {
    if 0 <= j && j + |pat| <= hi - lo {
      var a, b := s[lo..hi][j..j + |pat|], s[lo + j..lo + j + |pat|];
      assert |a| == |b| && forall k :: 0 <= k < |a| ==> a[k] == s[lo + j + k] == b[k];
    }
  }

  /** A slice occurs where it was cut from. */
  lemma SliceOccurs(s: string, lo: nat, hi: nat)
    requires lo <= hi <= |s|
    ensures OccursAt(s, s[lo..hi], lo)
  {
  }

  /** Two texts occurring back to back occur together. */
  lemma Juxtapose(s: string, i: nat, x: string, y: string)
    requires OccursAt(s, x, i) && OccursAt(s, y, i + |x|)
    ensures OccursAt(s, x + y, i)
  {
    assert s[i..i + |x| + |y|] == s[i..i + |x|] + s[i + |x|..i + |x| + |y|];
  }

  /** Two occurrences and the text between them occur together. */
  lemma Sandwich(s: string, i: nat, x: string, j: nat, y: string)
    requires OccursAt(s, x, i) && i + |x| <= j && OccursAt(s, y, j)
    ensures OccursAt(s, x + s[i + |x|..j] + y, i)
  {
    assert s[i..j + |y|] == s[i..i + |x|] + s[i + |x|..j] + s[j..j + |y|];
  }

  /** Three occurrences in order and the texts between them occur together. */
  lemma Sandwich3(s: string, i: nat, x: string, j: nat, y: string, k: nat, z: string)
    requires OccursAt(s, x, i) && i + |x| <= j && OccursAt(s, y, j) && j + |y| <= k && OccursAt(s, z, k)
    ensures Contains(s, x + s[i + |x|..j] + y + s[j + |y|..k] + z)
  {
    Sandwich(s, i, x, j, y);
    Sandwich(s, i, x + s[i + |x|..j] + y, k, z);
  }

  /** A slice that no occurrence of a non-empty `pat` starts in does not contain `pat`. */
  lemma SliceFree(s: string, lo: nat, hi: nat, pat: string)
    requires lo <= hi <= |s| && |pat| > 0
    requires forall j :: lo <= j < hi ==> !OccursAt(s, pat, j)
    ensures !Contains(s[lo..hi], pat)
  {
    forall j | 0 <= j <= hi - lo ensures !OccursAt(s[lo..hi], pat, j) {
      OccursInSlice(s, lo, hi, pat, j);
    }
  }

  /** Python `s.replace(pat, rep)`: left-to-right, non-overlapping. */
  function Replace(s: string, pat: string, rep: string): string
    requires |pat| > 0
    decreases |s|
  {
    if |s| < |pat| then s
    else if s[..|pat|] == pat then rep + Replace(s[|pat|..], pat, rep)
    else [s[0]] + Replace(s[1..], pat, rep)
  }

  /** A character that is in neither `s` nor `rep` cannot appear after replacing. */
  lemma {:induction false} ReplaceKeepsOut(s: string, pat: string, rep: string, c: char)
    requires |pat| > 0 && c !in s && c !in rep
    ensures c !in Replace(s, pat, rep)
    decreases |s|
  {
    if |s| < |pat| {
    } else if s[..|pat|] == pat {
      ReplaceKeepsOut(s[|pat|..], pat, rep, c);
    } else {
      ReplaceKeepsOut(s[1..], pat, rep, c);
    }
  }

  /** Replacing a one-character pattern by text without it removes it entirely. */
  lemma {:induction false} ReplaceRemoves(s: string, c: char, rep: string)
    requires c !in rep
    ensures c !in Replace(s, [c], rep)
    decreases |s|
  {
    if |s| < 1 {
    } else if s[..1] == [c] {
      ReplaceRemoves(s[1..], c, rep);
    } else {
      assert s[0] != c by { assert s[..1] == [s[0]]; }
      ReplaceRemoves(s[1..], c, rep);
    }
  }

  /** Index of the first `c` in `s`, or `|s|` when there is none. */
  function CharIndex(s: string, c: char): (i: nat)
    ensures i <= |s| && c !in s[..i]
    ensures i < |s| ==> s[i] == c
  {
    if s == [] then 0
    else if s[0] == c then 0
    else
      var k := CharIndex(s[1..], c);
      assert s[..k + 1] == [s[0]] + s[1..][..k];
      1 + k
  }

  /** Python `sep.join(pieces)`. */
  function JoinWith(pieces: seq<string>, sep: string): string {
    if |pieces| == 0 then ""
    else if |pieces| == 1 then pieces[0]
    else pieces[0] + sep + JoinWith(pieces[1..], sep)
  }

  lemma JoinTwo(p: string, q: string, sep: string)
    ensures JoinWith([p, q], sep) == p + sep + q
  {
    assert [p, q][1..] == [q];
  }

  lemma JoinThree(p: string, q: string, r: string, sep: string)
    ensures JoinWith([p, q, r], sep) == p + sep + q + sep + r
  {
    assert [p, q, r][1..] == [q, r];
    JoinTwo(q, r, sep);
  }

  /** Joining one more piece appends the separator and the piece. */
  lemma {:induction false} JoinWithSnoc(pieces: seq<string>, x: string, sep: string)
    ensures JoinWith(pieces + [x], sep) == if pieces == [] then x else JoinWith(pieces, sep) + sep + x
  {
    if |pieces| > 1 {
      assert (pieces + [x])[1..] == pieces[1..] + [x];
      JoinWithSnoc(pieces[1..], x, sep);
    } else if |pieces| == 1 {
      assert (pieces + [x])[1..] == [x];
    }
  }

  /** The same, after a prefix. */
  lemma JoinWithSnocAfter(head: string, pieces: seq<string>, x: string, sep: string)
    ensures head + JoinWith(pieces + [x], sep) == head + JoinWith(pieces, sep) + (if pieces == [] then [] else sep) + x
  {
    JoinWithSnoc(pieces, x, sep);
    var j := JoinWith(pieces, sep);
    if pieces == [] {
      assert j == [];
      assert head + j + [] + x == head + x;
    } else {
      assert head + (j + sep + x) == head + j + sep + x;
    }
  }

  /** Joining a piece in front of at least one more puts the separator between them. */
  lemma JoinWithCons(p: string, rest: seq<string>, sep: string)
    requires |rest| >= 1
    ensures JoinWith([p] + rest, sep) == p + sep + JoinWith(rest, sep)
  {
    assert ([p] + rest)[1..] == rest;
  }

  /** Python `s.split(c)` for a one-character separator. */
  function SplitOn(s: string, c: char): (r: seq<string>)
    ensures |r| >= 1
    ensures forall k :: 0 <= k < |r| ==> c !in r[k]
    ensures JoinWith(r, [c]) == s
    ensures c !in s ==> r == [s]
    decreases |s|
  {
    var i := CharIndex(s, c);
    if i == |s| then
      assert s[..i] == s;
      [s]
    else
      var rest := SplitOn(s[i + 1..], c);
      JoinWithCons(s[..i], rest, [c]);
      assert s == s[..i] + [c] + s[i + 1..];
      [s[..i]] + rest
  }

  /** The first `c` at `n` is what `CharIndex` finds. */
  lemma {:induction false} CharIndexAt(s: string, c: char, n: nat)
    requires n < |s| && s[n] == c && c !in s[..n]
    ensures CharIndex(s, c) == n
  {
    if n > 0 {
      assert s[0] in s[..n];
      assert s[1..][..n - 1] == s[1..n];
      forall j | 1 <= j < n ensures s[j] != c {
        assert s[..n][j] == s[j];
      }
      CharIndexAt(s[1..], c, n - 1);
    }
  }

  /** A character absent from a join is absent from every piece. */
  lemma {:induction false} JoinWithParts(pieces: seq<string>, sep: string, d: char)
    requires d !in JoinWith(pieces, sep)
    ensures forall k :: 0 <= k < |pieces| ==> d !in pieces[k]
    decreases |pieces|
  {
    if |pieces| > 1 {
      assert JoinWith(pieces, sep) == pieces[0] + sep + JoinWith(pieces[1..], sep);
      JoinWithParts(pieces[1..], sep, d);
      forall k | 1 <= k < |pieces| ensures d !in pieces[k] {
        assert pieces[k] == pieces[1..][k - 1];
      }
    }
  }

  /** Splitting on `c` undoes joining with `c` pieces that do not contain it. */
  lemma {:induction false} SplitJoin(pieces: seq<string>, c: char)
    requires |pieces| >= 1
    requires forall k :: 0 <= k < |pieces| ==> c !in pieces[k]
    ensures SplitOn(JoinWith(pieces, [c]), c) == pieces
  {
    var s := JoinWith(pieces, [c]);
    if |pieces| > 1 {
      var p := pieces[0];
      var rest := JoinWith(pieces[1..], [c]);
      assert s == p + [c] + rest;
      CharIndexAt(s, c, |p|);
      var i := |p|;
      assert s[..i] == p;
      assert s[i + 1..] == rest;
      SplitJoin(pieces[1..], c);
      assert pieces == [p] + pieces[1..];
    }
  }

  /** No character `c` in the joined text when it is in neither the pieces nor the separator. */
  lemma {:induction false} JoinWithKeepsOut(pieces: seq<string>, sep: string, c: char)
    requires c !in sep
    requires forall k :: 0 <= k < |pieces| ==> c !in pieces[k]
    ensures c !in JoinWith(pieces, sep)
  {
    if |pieces| > 1 {
      JoinWithKeepsOut(pieces[1..], sep, c);
    }
  }

  /** `[p.strip() for p in pieces]`. */
  function StripEach(pieces: seq<string>): (r: seq<string>)
    ensures |r| == |pieces|
    ensures forall k :: 0 <= k < |r| ==> r[k] == Strip(pieces[k])
  {
    seq(|pieces|, k requires 0 <= k < |pieces| => Strip(pieces[k]))
  }

  /** `''.join(pieces)`. */
  function Concat(pieces: seq<string>): string {
    if pieces == [] then "" else Concat(pieces[..|pieces| - 1]) + pieces[|pieces| - 1]
  }

  lemma ConcatSnoc(pieces: seq<string>, x: string)
    ensures Concat(pieces + [x]) == Concat(pieces) + x
  {
    assert (pieces + [x])[..|pieces|] == pieces;
  }

  lemma Concat2(p: string, q: string)
    ensures Concat([p, q]) == p + q
  {
    ConcatSnoc([], p);
    ConcatSnoc([p], q);
    assert [p] == [] + [p] && [p, q] == [p] + [q];
  }

  lemma Concat3(p: string, q: string, r: string)
    ensures Concat([p, q, r]) == p + q + r
  {
    Concat2(p, q);
    ConcatSnoc([p, q], r);
    assert [p, q, r] == [p, q] + [r];
  }

  function DigitChar(d: nat): char
    requires d < 10
  {
    ['0', '1', '2', '3', '4', '5', '6', '7', '8', '9'][d]
  }

  function DigitValue(c: char): nat
    requires IsDigit(c)
  {
    c as int - '0' as int
  }

  lemma DigitCharValue(d: nat)
    requires d < 10
    ensures IsDigit(DigitChar(d)) && DigitValue(DigitChar(d)) == d
  {
  }

  /** Python `str(n)` for a natural number. */
  function NatToString(n: nat): (r: string)
    ensures |r| >= 1 && AllDigits(r)
    ensures |r| > 1 ==> r[0] != '0'
  {
    if n < 10 then [DigitChar(n)] else NatToString(n / 10) + [DigitChar(n % 10)]
  }

  /** Python `int(s)` for a string of decimal digits. */
  function DecimalValue(s: string): nat
    requires AllDigits(s)
  {
    if s == [] then 0 else 10 * DecimalValue(s[..|s| - 1]) + DigitValue(s[|s| - 1])
  }

  lemma {:induction false} DecimalValueOfNatToString(n: nat)
    ensures DecimalValue(NatToString(n)) == n
  {
    var r := NatToString(n);
    if n < 10 {
      assert r[..|r| - 1] == [];
    } else {
      DecimalValueOfNatToString(n / 10);
      assert r[..|r| - 1] == NatToString(n / 10);
    }
  }

  /** Length of the run of ASCII digits starting at `from`. */
  function DigitRun(s: string, from: nat): (n: nat)
    ensures from + n <= |s| || n == 0
    ensures forall k :: from <= k < from + n ==> IsDigit(s[k])
    ensures from + n < |s| ==> !IsDigit(s[from + n])
    decreases |s| - from
  {
    if from < |s| && IsDigit(s[from]) then 1 + DigitRun(s, from + 1) else 0
  }

  /** A digit run is decided by its own characters and the one that ends it. */
  lemma {:induction false} DigitRunLocal(s: string, from: nat, d: nat)
    requires from + d < |s|
    requires forall k :: from <= k < from + d ==> IsDigit(s[k])
    requires !IsDigit(s[from + d])
    ensures DigitRun(s, from) == d
    decreases d
  {
    if d > 0 {
      DigitRunLocal(s, from + 1, d - 1);
    }
  }

  /** Python's `a <= b` on strings: lexicographic by code point. */
  predicate LexLe(a: string, b: string)
    decreases |a|
  {
    a == [] || (b != [] && (a[0] < b[0] || (a[0] == b[0] && LexLe(a[1..], b[1..]))))
  }

  /** What `re.split` returns (`blocks`) with what it cut out between them (`runs`). */
  datatype Pieces = Pieces(blocks: seq<string>, runs: seq<string>)

  /** blocks[0] + runs[0] + blocks[1] + ... + blocks[n]: the text a split came from. */
  function Interleave(blocks: seq<string>, runs: seq<string>): string
    requires |blocks| == |runs| + 1
  {
    if runs == [] then blocks[0]
    else blocks[0] + runs[0] + Interleave(blocks[1..], runs[1..])
  }
}
