/**
 * The clean-up `extra_paper` applies to the fields of a matched block:
 * every field stripped, the title put on one line, the author lines joined
 * by spaces, the abstract reflowed so that a line break survives only after
 * a full stop; then the arXiv identifier taken from the url and the
 * submission date extended with the revision history.
 */
module Normalise {
  import opened Wrappers
  import opened Text
  import opened Patterns

  /** `{k: v.strip() for k, v in paper.items()}`. */
  function StripFields(f: Fields): (r: Fields)
    ensures r.date == Strip(f.date) && r.title == Strip(f.title) && r.authors == Strip(f.authors)
    ensures r.abstractText == Strip(f.abstractText) && r.url == Strip(f.url)
  {
    Fields(Strip(f.date), Strip(f.title), Strip(f.authors), Strip(f.abstractText), Strip(f.url))
  }

  // ---------------------------------------------------------------- title

  /** `title.replace('\n', '').replace('  ', ' ')`: a title on one line. */
  function NormTitle(t: string): (r: string)
    ensures '\n' !in r
  {
    var joined := Replace(t, "\n", "");
    ReplaceRemoves(t, '\n', "");
    ReplaceKeepsOut(joined, "  ", " ", '\n');
    Replace(joined, "  ", " ")
  }

  /**
   * The double-space replacement is a single left-to-right pass, so a run
   * of three spaces still leaves two: the title is on one line but is not
   * free of double spaces.
   */
  lemma TitleKeepsDoubleSpace()
    ensures NormTitle("a   b") == "a  b"
  {
    NoBreakToRemove();
    ThreeSpacesToTwo();
  }

  /** The first replace leaves a title without line breaks as it was. */
  lemma NoBreakToRemove()
    ensures Replace("a   b", "\n", "") == "a   b"
  {
    assert Replace("", "\n", "") == "";
    assert Replace("b", "\n", "") == "b";
    assert Replace(" b", "\n", "") == " b";
    assert Replace("  b", "\n", "") == "  b";
    assert Replace("   b", "\n", "") == "   b";
  }

  /** The second replace turns the first two of three spaces into one. */
  lemma ThreeSpacesToTwo()
    ensures Replace("a   b", "  ", " ") == "a  b"
  {
    assert Replace("b", "  ", " ") == "b";
    assert " b"[..2] != "  " by {
      assert " b"[..2][1] == 'b';
    }
    assert Replace(" b", "  ", " ") == " b";
    assert Replace("   b", "  ", " ") == "  b";
  }

  // -------------------------------------------------------------- authors

  /** `' '.join([a.strip() for a in authors.split('\n')])`. */
  function NormAuthors(a: string): (r: string)
    ensures '\n' !in r
    ensures '\n' !in a ==> r == Strip(a)
  {
    var lines := SplitOn(a, '\n');
    forall k | 0 <= k < |lines| ensures '\n' !in StripEach(lines)[k] {
      StripChars(lines[k], '\n');
    }
    JoinWithKeepsOut(StripEach(lines), " ", '\n');
    JoinWith(StripEach(lines), " ")
  }

  // ------------------------------------------------------------- abstract

  /** Every line break directly follows a full stop. */
  predicate BreaksAfterStop(s: string) {
    forall i :: 0 <= i < |s| ==> BreakAfterStop(s, i)
  }

  /** The character at `i` is not a line break, or it follows a full stop. */
  predicate BreakAfterStop(s: string, i: nat)
    requires i < |s|
  {
    s[i] == '\n' ==> 0 < i && s[i - 1] == '.'
  }

  /** What the reflow appends to a stripped line: a break after a full stop, a space otherwise. */
  function LineEnd(s: string): (r: string)
    ensures |r| == 1 && IsSpace(r[0])
  {
    if EndsWith(s, ".") then "\n" else " "
  }

  /** One abstract line: stripped, then ended by a break after a full stop and by a space otherwise. */
  function ReflowLine(l: string): string {
    var s := Strip(l);
    s + LineEnd(s)
  }

  /** The abstract reflow: lines of the stripped abstract reflowed, concatenated, stripped. */
  function Reflow(a: string): (r: string)
    ensures BreaksAfterStop(r)
    ensures r == [] || (!IsSpace(r[0]) && !IsSpace(r[|r| - 1]))
  {
    var lines := SplitOn(Strip(a), '\n');
    var out := ReflowLines(lines);
    forall k | 0 <= k < |out| ensures BreaksAfterStop(out[k]) && out[k] != [] && out[k][0] != '\n' {
      ReflowLinesAt(lines, k);
      ReflowLineBreaks(lines[k]);
    }
    ConcatBreaks(out);
    StripBreaks(Concat(out));
    Strip(Concat(out))
  }

  /** A non-empty text with no whitespace at either end and on one line. */
  predicate OneLine(s: string) {
    s != [] && !IsSpace(s[0]) && !IsSpace(s[|s| - 1]) && '\n' !in s
  }

  /**
   * The reflow is not idempotent: a blank line after a sentence leaves a
   * break followed by a space, and a second pass strips that space away
   * (with `x` = `A.` and `y` = `B`: `A.\n\nB`, then `A.\n B`, then `A.\nB`).
   */
  lemma ReflowNotIdempotent(x: string, y: string)
    requires OneLine(x) && EndsWith(x, ".") && OneLine(y)
    ensures Reflow(x + "\n\n" + y) == x + "\n " + y
    ensures Reflow(Reflow(x + "\n\n" + y)) == x + "\n" + y
  {
    ReflowBlankLine(x, y);
    ReflowIndentedLine(x, y);
  }

  /** A text that starts and ends with no whitespace is its own strip. */
  lemma StripJoined(x: string, mid: string, y: string)
    requires x != [] && !IsSpace(x[0]) && y != [] && !IsSpace(y[|y| - 1])
    ensures Strip(x + mid + y) == x + mid + y
  {
    var b := x + mid + y;
    assert b[0] == x[0] && b[|b| - 1] == y[|y| - 1];
    StripPlain(b);
  }

  /** Such a text followed by one whitespace character strips back to the text. */
  lemma StripJoinedEnded(x: string, mid: string, y: string, e: string)
    requires x != [] && !IsSpace(x[0]) && y != [] && !IsSpace(y[|y| - 1])
    requires |e| == 1 && IsSpace(e[0])
    ensures Strip(x + mid + y + e) == x + mid + y
  {
    var b := x + mid + y;
    assert b[0] == x[0] && b[|b| - 1] == y[|y| - 1];
    forall i | 0 <= i < |e| ensures IsSpace(e[i]) {
      assert i == 0;
    }
    StripPadded(b, "", e);
    assert "" + b + e == b + e;
  }

  /** The reflow of a stripped text, by its lines. */
  lemma ReflowOfSplit(a: string, lines: seq<string>)
    requires Strip(a) == a && SplitOn(a, '\n') == lines
    ensures Reflow(a) == Strip(Concat(ReflowLines(lines)))
  {
  }

  /** The reflowed lines of a two-line text, concatenated. */
  lemma ReflowLinesTwo(p: string, q: string)
    ensures Concat(ReflowLines([p, q])) == ReflowLine(p) + ReflowLine(q)
  {
    assert [p, q][1..] == [q] && [q][1..] == [];
    assert ReflowLines([q]) == [ReflowLine(q)];
    assert ReflowLines([p, q]) == [ReflowLine(p)] + [ReflowLine(q)];
    Concat2(ReflowLine(p), ReflowLine(q));
  }

  /** The reflowed lines of a three-line text, concatenated. */
  lemma ReflowLinesThree(p: string, q: string, r: string)
    ensures Concat(ReflowLines([p, q, r])) == ReflowLine(p) + ReflowLine(q) + ReflowLine(r)
  {
    assert [p, q, r][1..] == [q, r] && [q, r][1..] == [r] && [r][1..] == [];
    assert ReflowLines([r]) == [ReflowLine(r)];
    assert ReflowLines([q, r]) == [ReflowLine(q)] + [ReflowLine(r)];
    var u, v, w := ReflowLine(p), ReflowLine(q), ReflowLine(r);
    assert ReflowLines([p, q, r]) == [u] + ([v] + [w]);
    assert [u] + ([v] + [w]) == [u, v, w];
    Concat3(ReflowLine(p), ReflowLine(q), ReflowLine(r));
  }

  /** A stripped sentence is ended by a line break. */
  lemma ReflowSentence(x: string)
    requires OneLine(x) && EndsWith(x, ".")
    ensures ReflowLine(x) == x + "\n"
  {
    StripPlain(x);
  }

  /** A stripped line is ended by what `LineEnd` gives. */
  lemma ReflowPlain(y: string)
    requires OneLine(y)
    ensures ReflowLine(y) == y + LineEnd(y)
  {
    StripPlain(y);
  }

  /** An indented line loses its indentation. */
  lemma ReflowIndented(y: string)
    requires OneLine(y)
    ensures ReflowLine(" " + y) == y + LineEnd(y)
  {
    StripPadded(y, " ", "");
    assert " " + y + "" == " " + y;
  }

  /** An empty line becomes a lone space. */
  lemma ReflowEmpty()
    ensures ReflowLine("") == " "
  {
    StripPlain("");
  }

  /** Regroupings of the breaks and spaces around `x` and `y`. */
  lemma BlankJoin(x: string, y: string)
    ensures x + "\n" + "" + "\n" + y == x + "\n\n" + y
  {
  }

  lemma BlankReflowed(x: string, y: string, e: string)
    ensures x + "\n" + " " + (y + e) == x + "\n " + y + e
  {
  }

  lemma IndentJoin(x: string, y: string)
    ensures x + "\n" + (" " + y) == x + "\n " + y
  {
  }

  lemma IndentReflowed(x: string, y: string, e: string)
    ensures x + "\n" + (y + e) == x + "\n" + y + e
  {
  }

  /** A blank line between a sentence and a line is reflowed to a lone space. */
  lemma ReflowBlankLine(x: string, y: string)
    requires OneLine(x) && EndsWith(x, ".") && OneLine(y)
    ensures Reflow(x + "\n\n" + y) == x + "\n " + y
  {
    var a := x + "\n\n" + y;
    var lines := [x, "", y];
    forall k | 0 <= k < |lines| ensures '\n' !in lines[k] {
    }
    SplitJoin(lines, '\n');
    JoinThree(x, "", y, "\n");
    BlankJoin(x, y);
    StripJoined(x, "\n\n", y);
    ReflowLinesThree(x, "", y);
    ReflowSentence(x);
    ReflowEmpty();
    ReflowPlain(y);
    BlankReflowed(x, y, LineEnd(y));
    StripJoinedEnded(x, "\n ", y, LineEnd(y));
    ReflowOfSplit(a, lines);
  }

  /** A line's leading space is stripped before the line is reflowed. */
  lemma ReflowIndentedLine(x: string, y: string)
    requires OneLine(x) && EndsWith(x, ".") && OneLine(y)
    ensures Reflow(x + "\n " + y) == x + "\n" + y
  {
    var a := x + "\n " + y;
    StripJoined(x, "\n ", y);
    JoinTwo(x, " " + y, "\n");
    IndentJoin(x, y);
    assert '\n' !in " " + y;
    SplitJoin([x, " " + y], '\n');
    ReflowLinesTwo(x, " " + y);
    ReflowSentence(x);
    ReflowIndented(y);
    IndentReflowed(x, y, LineEnd(y));
    StripJoinedEnded(x, "\n", y, LineEnd(y));
    ReflowOfSplit(a, [x, " " + y]);
  }

  /** The list comprehension of the reflow: every line reflowed, in order. */
  function ReflowLines(lines: seq<string>): (r: seq<string>)
    ensures |r| == |lines|
  {
    if lines == [] then [] else [ReflowLine(lines[0])] + ReflowLines(lines[1..])
  }

  /** The line at `k` of the comprehension is the reflow of line `k`. */
  lemma {:induction false} ReflowLinesAt(lines: seq<string>, k: nat)
    requires k < |lines|
    ensures ReflowLines(lines)[k] == ReflowLine(lines[k])
  {
    if k > 0 {
      ReflowLinesAt(lines[1..], k - 1);
    }
  }

  lemma ReflowLineBreaks(l: string)
    requires '\n' !in l
    ensures BreaksAfterStop(ReflowLine(l))
    ensures ReflowLine(l) != [] && ReflowLine(l)[0] != '\n'
  {
    StripChars(l, '\n');
  }

  lemma {:induction false} ConcatBreaks(pieces: seq<string>)
    requires forall k :: 0 <= k < |pieces| ==> BreaksAfterStop(pieces[k])
    requires forall k :: 0 <= k < |pieces| ==> pieces[k] != [] && pieces[k][0] != '\n'
    ensures BreaksAfterStop(Concat(pieces))
  {
    if pieces != [] {
      var init := pieces[..|pieces| - 1];
      var last := pieces[|pieces| - 1];
      ConcatBreaks(init);
      var s := Concat(init);
      assert Concat(pieces) == s + last;
      forall i | 0 <= i < |s + last| ensures BreakAfterStop(s + last, i) {
        if i < |s| {
          assert BreakAfterStop(s, i);
        } else {
          assert BreakAfterStop(last, i - |s|);
        }
      }
    }
  }

  lemma StripBreaks(s: string)
    requires BreaksAfterStop(s)
    ensures BreaksAfterStop(Strip(s))
  {
    var r := Strip(s);
    var lo := StripLo(s);
    forall i | 0 <= i < |r| ensures BreakAfterStop(r, i) {
      assert BreakAfterStop(s, lo + i);
    }
  }

  // ------------------------------------------------------------- arXiv id

  const IdPrefix := "https://arxiv.org/abs/"

  /** `\d+\.\d+`: digits, a dot, digits. */
  predicate DottedNumber(x: string) {
    exists i :: 0 < i < |x| - 1 && x[i] == '.' && AllDigits(x[..i]) && AllDigits(x[i + 1..])
  }

  /** The greedy `\d+\.\d+` starting at `q`, if there is one. */
  function IdAt(s: string, q: nat): (r: Option<string>)
    ensures r.Some? ==> DottedNumber(r.value) && OccursAt(s, r.value, q)
    ensures r.Some? ==> q + |r.value| == |s| || !IsDigit(s[q + |r.value|])
    ensures r.None? ==> forall x :: DottedNumber(x) ==> !OccursAt(s, x, q)
  {
    var d1 := DigitRun(s, q);
    if d1 > 0 && q + d1 < |s| && s[q + d1] == '.' && DigitRun(s, q + d1 + 1) > 0 then
      var d2 := DigitRun(s, q + d1 + 1);
      DottedSlice(s, q, d1, d2);
      Some(s[q..q + d1 + 1 + d2])
    else
      NoDottedAt(s, q);
      None
  }

  /** Two digit runs joined by a dot make a dotted number that no digit follows. */
  lemma DottedSlice(s: string, q: nat, d1: nat, d2: nat)
    requires d1 == DigitRun(s, q) && d1 > 0 && q + d1 < |s| && s[q + d1] == '.'
    requires d2 == DigitRun(s, q + d1 + 1) && d2 > 0
    ensures q + d1 + 1 + d2 <= |s|
    ensures DottedNumber(s[q..q + d1 + 1 + d2]) && OccursAt(s, s[q..q + d1 + 1 + d2], q)
    ensures q + d1 + 1 + d2 == |s| || !IsDigit(s[q + d1 + 1 + d2])
  {
    var x := s[q..q + d1 + 1 + d2];
    assert x[..d1] == s[q..q + d1];
    assert x[d1 + 1..] == s[q + d1 + 1..q + d1 + 1 + d2];
    assert x[d1] == '.';
  }

  /** Where a dotted number starts at `q`, its digits run up to its dot and a digit follows the dot. */
  lemma DottedAt(s: string, q: nat, x: string, i: nat)
    requires OccursAt(s, x, q) && 0 < i < |x| - 1 && x[i] == '.' && AllDigits(x[..i]) && AllDigits(x[i + 1..])
    ensures DigitRun(s, q) == i && s[q + i] == '.' && DigitRun(s, q + i + 1) > 0
  {
    forall k | q <= k < q + i ensures IsDigit(s[k]) {
      assert s[k] == x[k - q] == x[..i][k - q];
    }
    assert s[q + i] == x[i];
    DigitRunLocal(s, q, i);
    assert s[q + i + 1] == x[i + 1] == x[i + 1..][0];
  }

  /** When the digits at `q` are not followed by a dot and a digit, no dotted number starts there. */
  lemma NoDottedAt(s: string, q: nat)
    requires !(DigitRun(s, q) > 0 && q + DigitRun(s, q) < |s| && s[q + DigitRun(s, q)] == '.' && DigitRun(s, q + DigitRun(s, q) + 1) > 0)
    ensures forall x :: DottedNumber(x) ==> !OccursAt(s, x, q)
  {
    forall x | DottedNumber(x) ensures !OccursAt(s, x, q) {
      var i :| 0 < i < |x| - 1 && x[i] == '.' && AllDigits(x[..i]) && AllDigits(x[i + 1..]);
      if OccursAt(s, x, q) {
        DottedAt(s, q, x, i);
      }
    }
  }

  /**
   * The greedy reading is the only one: a dotted number at `q` that no
   * digit follows is exactly what `IdAt` returns.
   */
  lemma IdAtExact(s: string, q: nat, x: string)
    requires DottedNumber(x) && OccursAt(s, x, q)
    requires q + |x| == |s| || !IsDigit(s[q + |x|])
    ensures IdAt(s, q) == Some(x)
  {
    var i :| 0 < i < |x| - 1 && x[i] == '.' && AllDigits(x[..i]) && AllDigits(x[i + 1..]);
    DottedAt(s, q, x, i);
    var d2 := DigitRun(s, q + i + 1);
    forall k | q + i + 1 <= k < q + |x| ensures IsDigit(s[k]) {
      assert s[k] == x[k - q] == x[i + 1..][k - q - i - 1];
    }
    assert q + i + 1 + d2 == q + |x|;
    assert IdAt(s, q).value == s[q..q + |x|];
  }

  /** The prefix and an identifier match at `p`. */
  predicate IdMatchAt(url: string, p: nat) {
    OccursAt(url, IdPrefix, p) && IdAt(url, p + |IdPrefix|).Some?
  }

  /** The leftmost position at or after `from` where the id pattern matches. */
  function IdFrom(url: string, from: nat): (r: Option<string>)
    ensures r.Some? ==> DottedNumber(r.value) && Contains(url, IdPrefix + r.value)
    ensures r.Some? ==> exists p: nat ::
      (from <= p && IdMatchAt(url, p) && r == IdAt(url, p + |IdPrefix|) && forall p': nat :: from <= p' < p ==> !IdMatchAt(url, p'))
    ensures r.None? ==> forall p: nat :: from <= p ==> !IdMatchAt(url, p)
    decreases |url| - from
  {
    if from + |IdPrefix| > |url| then None
    else if IdMatchAt(url, from) then
      var r := IdAt(url, from + |IdPrefix|);
      Juxtapose(url, from, IdPrefix, r.value);
      r
    else
      IdFrom(url, from + 1)
  }

  /**
   * `re.findall('https://arxiv.org/abs/(\d+\.\d+)', url)[0]`: the
   * identifier of the leftmost match; `None` is the `IndexError` raised
   * when the url holds no identifier.
   */
  function ArxivId(url: string): (r: Option<string>)
    ensures r.Some? ==> DottedNumber(r.value) && Contains(url, IdPrefix + r.value)
    ensures r.Some? ==> exists p: nat ::
      (IdMatchAt(url, p) && r == IdAt(url, p + |IdPrefix|) && forall p': nat :: p' < p ==> !IdMatchAt(url, p'))
    ensures r.None? ==> forall p: nat :: !IdMatchAt(url, p)
  {
    IdFrom(url, 0)
  }

  // ---------------------------------------------------------- submit date

  /** Every line break is followed by four spaces. */
  predicate Indented(s: string) {
    forall i :: 0 <= i < |s| && s[i] == '\n' ==> i + 5 <= |s| && s[i + 1..i + 5] == "    "
  }

  const Indent := "\n    "

  /** `date + '\n    ' + history.replace('\n', '\n    ')` when there is a history. */
  function SubmitDate(date: string, history: string): (r: string)
    ensures history == "" ==> r == date
    ensures history != "" ==> StartsWith(r, date + Indent) && Indented(r[|date|..])
    ensures history != "" ==> Replace(r[|date| + 5..], Indent, "\n") == history
    ensures '\n' !in date ==> Indented(r)
  {
    if history == "" then date
    else
      SubmitDateShape(date, history);
      date + Indent + Replace(history, "\n", Indent)
  }

  /** The indented history after the date: the step from `IndentAll` and `Unindent` to `SubmitDate`. */
  lemma SubmitDateShape(date: string, history: string)
    ensures var r := date + Indent + Replace(history, "\n", Indent);
      && StartsWith(r, date + Indent) && Indented(r[|date|..])
      && Replace(r[|date| + 5..], Indent, "\n") == history
      && ('\n' !in date ==> Indented(r))
  {
    var body := Replace(history, "\n", Indent);
    var r := date + Indent + body;
    IndentAll(history);
    Unindent(history);
    assert r[|date|..] == Indent + body;
    assert r[|date| + 5..] == body;
    IndentedFirst(body);
    IndentedAfter(date, Indent + body);
    assert r == date + (Indent + body);
  }

  /** A line break followed by four spaces in front of indented text keeps it indented. */
  lemma IndentedFirst(body: string)
    requires Indented(body)
    ensures Indented(Indent + body)
  {
    var s := Indent + body;
    forall i | 0 <= i < |s| && s[i] == '\n' ensures i + 5 <= |s| && s[i + 1..i + 5] == "    " {
      if i >= 5 {
        assert body[i - 5] == '\n';
        assert s[i + 1..i + 5] == body[i - 4..i];
      }
    }
  }

  /** Text without line breaks in front of indented text keeps it indented. */
  lemma IndentedAfter(pre: string, rest: string)
    requires Indented(rest)
    ensures '\n' !in pre ==> Indented(pre + rest)
  {
    var s := pre + rest;
    if '\n' !in pre {
      forall i | 0 <= i < |s| && s[i] == '\n' ensures i + 5 <= |s| && s[i + 1..i + 5] == "    " {
        if i >= |pre| {
          assert rest[i - |pre|] == '\n';
          assert s[i + 1..i + 5] == rest[i - |pre| + 1..i - |pre| + 5];
        }
      }
    }
  }

  /** An identifier is made of digits and a dot only. */
  lemma DottedHasNoBreak(x: string)
    requires DottedNumber(x)
    ensures '\n' !in x
  {
    var i :| 0 < i < |x| - 1 && x[i] == '.' && AllDigits(x[..i]) && AllDigits(x[i + 1..]);
    forall k | 0 <= k < |x| ensures x[k] != '\n' {
      if k < i {
        assert x[..i][k] == x[k];
      } else if k > i {
        assert x[i + 1..][k - i - 1] == x[k];
      }
    }
  }

  lemma {:induction false} IndentAll(h: string)
    ensures Indented(Replace(h, "\n", Indent))
    decreases |h|
  {
    var r := Replace(h, "\n", Indent);
    if |h| < 1 {
    } else if h[..1] == "\n" {
      IndentAll(h[1..]);
      var t := Replace(h[1..], "\n", Indent);
      assert r == Indent + t;
      forall i | 0 <= i < |r| && r[i] == '\n' ensures i + 5 <= |r| && r[i + 1..i + 5] == "    " {
        if i >= 5 {
          assert t[i - 5] == '\n';
          assert r[i + 1..i + 5] == t[i - 4..i];
        }
      }
    } else {
      IndentAll(h[1..]);
      var t := Replace(h[1..], "\n", Indent);
      assert h[0] != '\n' by { assert h[..1] == [h[0]]; }
      assert r == [h[0]] + t;
      forall i | 0 <= i < |r| && r[i] == '\n' ensures i + 5 <= |r| && r[i + 1..i + 5] == "    " {
        assert t[i - 1] == '\n';
        assert r[i + 1..i + 5] == t[i..i + 4];
      }
    }
  }

  /** Removing the indentation gives the history back. */
  lemma {:induction false} Unindent(h: string)
    ensures Replace(Replace(h, "\n", Indent), Indent, "\n") == h
    decreases |h|
  {
    var r := Replace(h, "\n", Indent);
    if |h| < 1 {
    } else if h[..1] == "\n" {
      Unindent(h[1..]);
      var t := Replace(h[1..], "\n", Indent);
      assert r == Indent + t;
      assert (Indent + t)[..5] == Indent;
      assert (Indent + t)[5..] == t;
      assert h == "\n" + h[1..];
    } else {
      Unindent(h[1..]);
      var t := Replace(h[1..], "\n", Indent);
      assert h[0] != '\n' by { assert h[..1] == [h[0]]; }
      assert r == [h[0]] + t;
      assert r[0] != '\n';
      if |r| >= 5 {
        assert r[..5] != Indent by { assert r[..5][0] == h[0]; }
      }
      assert r[1..] == t;
      assert h == [h[0]] + h[1..];
    }
  }
}
