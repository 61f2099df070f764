/**
 * The mail side of src/email_helper.py: how a digest mail's received date
 * is read, how a message's charset is guessed and its text collected, and
 * which mails, newest first, the scan of the mailbox keeps.
 *
 * The POP3 session, the e-mail parser and header decoding are outside the
 * model: a mail is its decoded subject and a message tree whose leaves
 * carry their content type, charset, `Content-Type` header, decoded payload
 * and attachment file name. Saving an attachment is recorded as the path
 * it is written to.
 */
module Mail {
  import opened Wrappers
  import opened Text

  /** Why the scan raised. */
  datatype MailFault =
    | BadDate      // `parser_received_date` found no usable date
    | BadCharset   // a `charset` item of the header had no `=`

  // ------------------------------------------------------- received date

  const Tag := "paper_"

  /** `paper_(\d{6})[^\d]` matches at `i`. */
  predicate TagAt(s: string, i: nat) {
    i + 13 <= |s| && OccursAt(s, Tag, i) && AllDigits(s[i + 6..i + 12]) && !IsDigit(s[i + 12])
  }

  /** Where the matches `re.findall` reports start: leftmost first, each resuming after the last. */
  function Tags(s: string, from: nat): (r: seq<nat>)
    ensures forall k :: 0 <= k < |r| ==> from <= r[k] && TagAt(s, r[k])
    ensures forall k :: 0 < k < |r| ==> r[k - 1] + 13 <= r[k]
    decreases |s| - from
  {
    if from + 13 > |s| then []
    else if TagAt(s, from) then [from] + Tags(s, from + 13)
    else Tags(s, from + 1)
  }

  /** A match at or after `from` is never missed. */
  lemma {:induction false} TagFound(s: string, from: nat, i: nat)
    requires from <= i && TagAt(s, i)
    ensures Tags(s, from) != []
    decreases i - from
  {
    if !TagAt(s, from) {
      TagFound(s, from + 1, i);
    }
  }

  /** A run of digits at `i` closed by `mark`: where the mark sits. */
  function FieldEnd(s: string, i: nat, mark: char): (r: Option<nat>)
    ensures r.Some? ==> i < r.value < |s| && s[r.value] == mark
  {
    var a := DigitRun(s, i);
    if a == 0 || i + a >= |s| || s[i + a] != mark then None else Some(i + a)
  }

  /** What a field holds is digits. */
  lemma FieldDigits(s: string, i: nat, mark: char)
    requires FieldEnd(s, i, mark).Some?
    ensures AllDigits(s[i..FieldEnd(s, i, mark).value])
  {
    var e := FieldEnd(s, i, mark).value;
    forall k | 0 <= k < e - i ensures IsDigit(s[i..e][k]) {
      assert s[i..e][k] == s[i + k];
    }
  }

  /** `\d+年\d+月\d+日` matches at `i`: its year, month and day digits. */
  function DateAt(s: string, i: nat): Option<(string, string, string)> {
    match FieldEnd(s, i, '年')
    case None => None
    case Some(e1) =>
      match FieldEnd(s, e1 + 1, '月')
      case None => None
      case Some(e2) =>
        match FieldEnd(s, e2 + 1, '日')
        case None => None
        case Some(e3) => Some((s[i..e1], s[e1 + 1..e2], s[e2 + 1..e3]))
  }

  /** The fields of a date are digits. */
  lemma DateAtDigits(s: string, i: nat)
    requires DateAt(s, i).Some?
    ensures AllDigits(DateAt(s, i).value.0) && AllDigits(DateAt(s, i).value.1) && AllDigits(DateAt(s, i).value.2)
  {
    var e1 := FieldEnd(s, i, '年').value;
    var e2 := FieldEnd(s, e1 + 1, '月').value;
    FieldDigits(s, i, '年');
    FieldDigits(s, e1 + 1, '月');
    FieldDigits(s, e2 + 1, '日');
  }

  /** The first such match at or after `from`. */
  function FirstDate(s: string, from: nat): (r: Option<(string, string, string)>)
    ensures r.Some? ==> AllDigits(r.value.0) && AllDigits(r.value.1) && AllDigits(r.value.2)
    decreases |s| - from
  {
    if from >= |s| then None
    else match DateAt(s, from)
      case Some(d) => DateAtDigits(s, from); Some(d)
      case None => FirstDate(s, from + 1)
  }

  /** `FirstDate` finds nothing exactly when no match starts at or after `from`. */
  lemma {:induction false} FirstDateNone(s: string, from: nat)
    ensures FirstDate(s, from).None? <==> forall i :: from <= i ==> DateAt(s, i).None?
    decreases |s| - from
  {
    if from >= |s| {
      forall i | from <= i ensures DateAt(s, i).None? {
        DateAtInside(s, i);
      }
    } else if DateAt(s, from).None? {
      FirstDateNone(s, from + 1);
      forall i | from <= i && DateAt(s, i).Some? ensures from + 1 <= i {
      }
    }
  }

  /** A match starts inside the text. */
  lemma DateAtInside(s: string, i: nat)
    ensures DateAt(s, i).Some? ==> i < |s|
  {
  }

  /** One step of the search: the match at `from`, or else the search from the next position. */
  lemma FirstDateStep(s: string, from: nat)
    requires from < |s|
    ensures FirstDate(s, from) == if DateAt(s, from).Some? then DateAt(s, from) else FirstDate(s, from + 1)
  {
  }

  /** The leftmost match at or after `from` is the one `FirstDate` reports. */
  lemma {:induction false} FirstDateAt(s: string, from: nat, p: nat)
    requires from <= p && DateAt(s, p).Some? && forall j :: from <= j < p ==> DateAt(s, j).None?
    ensures FirstDate(s, from) == DateAt(s, p)
    decreases p - from
  {
    DateAtInside(s, p);
    FirstDateStep(s, from);
    if from < p {
      assert DateAt(s, from).None?;
      FirstDateAt(s, from + 1, p);
    }
  }

  predicate LeapYear(y: int) {
    y % 4 == 0 && (y % 100 != 0 || y % 400 == 0)
  }

  function DaysIn(month: int, year: int): int {
    if month == 2 then (if LeapYear(year) then 29 else 28)
    else if month == 4 || month == 6 || month == 9 || month == 11 then 30
    else 31
  }

  /**
   * `strptime(..., '%Y年%m月%d日')` accepts the fields: a four-digit year
   * from 1 on, a month and a day of one or two digits, and a day the month has.
   */
  predicate Calendar(y: string, m: string, d: string)
    requires AllDigits(y) && AllDigits(m) && AllDigits(d)
  {
    |y| == 4 && 1 <= |m| <= 2 && 1 <= |d| <= 2 &&
    DecimalValue(y) >= 1 && 1 <= DecimalValue(m) <= 12 && 1 <= DecimalValue(d) <= DaysIn(DecimalValue(m), DecimalValue(y))
  }

  /** `'%02d' % n`. */
  function Pad2(n: nat): (r: string)
    requires n < 100
    ensures |r| == 2 && AllDigits(r)
  {
    [DigitChar(n / 10), DigitChar(n % 10)]
  }

  lemma Pad2Value(n: nat)
    requires n < 100
    ensures DecimalValue(Pad2(n)) == n
  {
    var r := Pad2(n);
    DigitCharValue(n / 10);
    DigitCharValue(n % 10);
    assert r[..1][..0] == [];
    assert DecimalValue(r[..1]) == n / 10;
    assert DecimalValue(r) == 10 * DecimalValue(r[..1]) + DigitValue(r[1]);
  }

  /** `strftime(..., '%y%m%d')`. */
  function Stamp(y: string, m: string, d: string): (r: string)
    requires AllDigits(y) && AllDigits(m) && AllDigits(d) && Calendar(y, m, d)
    ensures |r| == 6 && AllDigits(r)
  {
    Pad2(DecimalValue(y) % 100) + Pad2(DecimalValue(m)) + Pad2(DecimalValue(d))
  }

  /** The stamp spells the year modulo 100, the month and the day, two digits each. */
  lemma StampFields(y: string, m: string, d: string)
    requires AllDigits(y) && AllDigits(m) && AllDigits(d) && Calendar(y, m, d)
    ensures var r := Stamp(y, m, d);
      && DecimalValue(r[..2]) == DecimalValue(y) % 100
      && DecimalValue(r[2..4]) == DecimalValue(m)
      && DecimalValue(r[4..]) == DecimalValue(d)
  {
    var r := Stamp(y, m, d);
    assert r[..2] == Pad2(DecimalValue(y) % 100);
    assert r[2..4] == Pad2(DecimalValue(m));
    assert r[4..] == Pad2(DecimalValue(d));
    Pad2Value(DecimalValue(y) % 100);
    Pad2Value(DecimalValue(m));
    Pad2Value(DecimalValue(d));
  }

  /**
   * `parser_received_date`: the six digits of the only `paper_` tag, or else
   * the first Chinese date as `yymmdd`; `None` where the source raises.
   */
  function ReceivedDate(content: string): (r: Option<string>)
    ensures r.Some? ==> |r.value| == 6 && AllDigits(r.value)
  {
    var tags := Tags(content, 0);
    if |tags| == 1 then Some(content[tags[0] + 6..tags[0] + 12])
    else match FirstDate(content, 0)
      case None => None
      case Some((y, m, d)) => if Calendar(y, m, d) then Some(Stamp(y, m, d)) else None
  }

  /**
   * A lone match gives its six digits, wherever it sits in the content.
   * (Two matches twelve characters apart overlap, and `findall` reports
   * only the first; this lemma needs no other match at all.)
   */
  lemma TaggedDate(s: string, i: nat)
    requires TagAt(s, i) && forall j :: j != i ==> !TagAt(s, j)
    ensures ReceivedDate(s) == Some(s[i + 6..i + 12])
  {
    TagFound(s, 0, i);
    assert TagAt(s, Tags(s, 0)[0]);
    TagsResume(s, 0, 0);
    NoTags(s, i + 13);
  }

  /** The first match `re.findall` reports is the leftmost one; with none reported there is none. */
  lemma {:induction false} TagsFirst(s: string, from: nat)
    ensures Tags(s, from) == [] ==> forall i :: from <= i ==> !TagAt(s, i)
    ensures Tags(s, from) != [] ==> forall i :: from <= i < Tags(s, from)[0] ==> !TagAt(s, i)
    decreases |s| - from
  {
    if from + 13 <= |s| && !TagAt(s, from) {
      TagsFirst(s, from + 1);
    }
  }

  /** After each reported match, `re.findall` resumes just past it (so `TagsFirst` applies from there). */
  lemma {:induction false} TagsResume(s: string, from: nat, k: nat)
    requires k < |Tags(s, from)|
    ensures Tags(s, from)[k + 1..] == Tags(s, Tags(s, from)[k] + 13)
    decreases |s| - from
  {
    if TagAt(s, from) {
      var rest := Tags(s, from + 13);
      assert Tags(s, from) == [from] + rest;
      ConsTail(from, rest, k);
      if k > 0 {
        TagsResume(s, from + 13, k - 1);
      }
    } else {
      TagsResume(s, from + 1, k);
    }
  }

  /** Dropping the head shifts every later position by one. */
  lemma ConsTail(x: nat, rest: seq<nat>, k: nat)
    requires k <= |rest|
    ensures ([x] + rest)[0] == x && ([x] + rest)[k + 1..] == rest[k..]
    ensures 0 < k ==> ([x] + rest)[k] == rest[k - 1]
  {
  }

  /** Where nothing matches, nothing is reported. */
  lemma {:induction false} NoTags(s: string, from: nat)
    requires forall i :: from <= i ==> !TagAt(s, i)
    ensures Tags(s, from) == []
    decreases |s| - from
  {
    if from + 13 <= |s| {
      NoTags(s, from + 1);
    }
  }

  /** No match straddles into or lies in a prefix without a `p`. */
  lemma NoTagsIn(pre: string, post: string)
    requires 'p' !in pre && !Contains(post, Tag)
    ensures Tags(pre + post, 0) == []
    ensures forall i :: !TagAt(pre + post, i)
  {
    var s := pre + post;
    assert s[|pre|..] == post;
    forall i | 0 <= i ensures !TagAt(s, i) {
      if i + |Tag| <= |s| {
        if i < |pre| {
          assert s[i..i + |Tag|][0] == s[i] == pre[i];
        } else {
          OccursInSlice(s, |pre|, |s|, Tag, i - |pre|);
          assert !OccursAt(post, Tag, i - |pre|);
        }
      }
    }
    NoTags(s, 0);
  }

  /**
   * Without a tag, the leftmost Chinese date decides: `%y%m%d` of it when
   * `strptime` accepts it, and a failed parse when it does not.
   */
  lemma ChineseDate(s: string, p: nat, y: string, m: string, d: string)
    requires forall i :: !TagAt(s, i)
    requires DateAt(s, p) == Some((y, m, d)) && forall j: nat :: j < p ==> DateAt(s, j).None?
    requires AllDigits(y) && AllDigits(m) && AllDigits(d)
    ensures ReceivedDate(s) == if Calendar(y, m, d) then Some(Stamp(y, m, d)) else None
  {
    NoTags(s, 0);
    FirstDateAt(s, 0, p);
  }

  /** Without a tag and without a Chinese date the parse fails. */
  lemma NoDate(s: string)
    requires forall i :: !TagAt(s, i) && DateAt(s, i).None?
    ensures ReceivedDate(s).None?
  {
    NoTags(s, 0);
    FirstDateNone(s, 0);
  }

  /** A Chinese date written out at the start of tag-free content is read back as `yymmdd`. */
  lemma ChineseDateAtStart(y: string, m: string, d: string, post: string)
    requires |y| > 0 && |m| > 0 && |d| > 0 && AllDigits(y) && AllDigits(m) && AllDigits(d)
    requires Calendar(y, m, d) && !Contains(post, Tag)
    ensures ReceivedDate(DateText(y, m, d) + post) == Some(Stamp(y, m, d))
  {
    var t := DateText(y, m, d);
    forall i | 0 <= i < |t| ensures t[i] != 'p' {
      DateTextNoP(y, m, d, i);
    }
    var s := t + post;
    NoTagsIn(t, post);
    DateAtStart(y, m, d, post);
    ChineseDate(s, 0, y, m, d);
  }

  /** A Chinese date is digits and marks only, so it holds no `p`. */
  lemma DateTextNoP(y: string, m: string, d: string, i: nat)
    requires AllDigits(y) && AllDigits(m) && AllDigits(d) && i < |DateText(y, m, d)|
    ensures DateText(y, m, d)[i] != 'p'
  {
    var t := DateText(y, m, d);
    if i < |y| {
      assert t[i] == y[i];
    } else if i == |y| {
    } else if i < |y| + 1 + |m| {
      assert t[i] == m[i - |y| - 1];
    } else if i == |y| + 1 + |m| {
    } else if i < |y| + |m| + 2 + |d| {
      assert t[i] == d[i - |y| - |m| - 2];
    }
  }

  /** A non-empty digit field followed by a non-digit mark is read up to that mark. */
  lemma FieldAt(s: string, at: nat, f: string, mark: char)
    requires |f| > 0 && at + |f| < |s| && s[at..at + |f|] == f && AllDigits(f)
    requires s[at + |f|] == mark && !IsDigit(mark)
    ensures FieldEnd(s, at, mark) == Some(at + |f|)
  {
    forall i | at <= i < at + |f| ensures IsDigit(s[i]) {
      assert s[i] == s[at..at + |f|][i - at];
    }
    DigitRunLocal(s, at, |f|);
  }

  /** The text of a Chinese date. */
  function DateText(y: string, m: string, d: string): string {
    y + "年" + m + "月" + d + "日"
  }

  /** Where each field and mark of a Chinese date sits. */
  lemma DateTextShape(y: string, m: string, d: string)
    ensures var t, j, k := DateText(y, m, d), |y| + 1, |y| + |m| + 2;
      && |t| == k + |d| + 1
      && t[..|y|] == y && t[|y|] == '年'
      && t[j..j + |m|] == m && t[j + |m|] == '月'
      && t[k..k + |d|] == d && t[k + |d|] == '日'
  {
  }

  /** The same, with text after the date. */
  lemma DateTextShapeAfter(y: string, m: string, d: string, post: string)
    ensures var s, j, k := DateText(y, m, d) + post, |y| + 1, |y| + |m| + 2;
      && k + |d| < |s|
      && s[0..|y|] == y && s[|y|] == '年'
      && s[j..j + |m|] == m && s[j + |m|] == '月'
      && s[k..k + |d|] == d && s[k + |d|] == '日'
  {
    var t := DateText(y, m, d);
    var s, j, k := t + post, |y| + 1, |y| + |m| + 2;
    DateTextShape(y, m, d);
    assert s[0..|y|] == t[..|y|];
    assert s[j..j + |m|] == t[j..j + |m|];
    assert s[k..k + |d|] == t[k..k + |d|];
  }

  /** A Chinese date at the very start is read field by field. */
  lemma DateAtStart(y: string, m: string, d: string, post: string)
    requires |y| > 0 && |m| > 0 && |d| > 0 && AllDigits(y) && AllDigits(m) && AllDigits(d)
    ensures DateAt(DateText(y, m, d) + post, 0) == Some((y, m, d))
  {
    DateTextShapeAfter(y, m, d, post);
    DateAtShaped(DateText(y, m, d) + post, y, m, d);
  }

  /** A text laid out as digits, year mark, digits, month mark, digits, day mark is read as that date. */
  lemma DateAtShaped(s: string, y: string, m: string, d: string)
    requires |y| > 0 && |m| > 0 && |d| > 0 && AllDigits(y) && AllDigits(m) && AllDigits(d)
    requires |y| + |m| + 2 + |d| < |s|
    requires s[0..|y|] == y && s[|y|] == '年'
    requires s[|y| + 1..|y| + 1 + |m|] == m && s[|y| + 1 + |m|] == '月'
    requires s[|y| + |m| + 2..|y| + |m| + 2 + |d|] == d && s[|y| + |m| + 2 + |d|] == '日'
    ensures DateAt(s, 0) == Some((y, m, d))
  {
    FieldAt(s, 0, y, '年');
    FieldAt(s, |y| + 1, m, '月');
    FieldAt(s, |y| + |m| + 2, d, '日');
    DateAtFields(s, 0, y, m, d);
  }

  /** `DateAt` reads the three fields that end where their marks sit. */
  lemma DateAtFields(s: string, i: nat, y: string, m: string, d: string)
    requires FieldEnd(s, i, '年') == Some(i + |y|) && s[i..i + |y|] == y
    requires FieldEnd(s, i + |y| + 1, '月') == Some(i + |y| + 1 + |m|) && s[i + |y| + 1..i + |y| + 1 + |m|] == m
    requires FieldEnd(s, i + |y| + |m| + 2, '日') == Some(i + |y| + |m| + 2 + |d|)
    requires s[i + |y| + |m| + 2..i + |y| + |m| + 2 + |d|] == d
    ensures DateAt(s, i) == Some((y, m, d))
  {
  }

  /** Two matches far enough apart make at least two results. */
  lemma {:induction false} TwoTags(s: string, from: nat, i: nat, j: nat)
    requires from <= i && TagAt(s, i) && TagAt(s, j) && i + 13 <= j
    ensures |Tags(s, from)| >= 2
    decreases |s| - from
  {
    if TagAt(s, from) {
      TagFound(s, from + 13, j);
    } else {
      TwoTags(s, from + 1, i, j);
    }
  }

  /** With two tags the date is ambiguous: it then comes from the Chinese date, or the parse fails. */
  lemma TwoTagsNeedDate(s: string, i: nat, j: nat)
    requires TagAt(s, i) && TagAt(s, j) && i + 13 <= j
    ensures ReceivedDate(s) == (match FirstDate(s, 0)
      case None => None
      case Some((y, m, d)) => if Calendar(y, m, d) then Some(Stamp(y, m, d)) else None)
  {
    TwoTags(s, 0, i, j);
  }

  // ------------------------------------------------------------- charset

  /** The charset named by the first `;`-item of a lower-cased header that starts with `charset`. */
  function CharsetIn(items: seq<string>): Result<Option<string>, MailFault>
    decreases |items|
  {
    if items == [] then Success(None)
    else
      var item := Strip(items[0]);
      if StartsWith(item, "charset") then
        var p := SplitOn(item, '=');
        if |p| >= 2 then Success(Some(p[1])) else Failure(BadCharset)
      else CharsetIn(items[1..])
  }

  /** `guess_charset`: the message's own charset, or the one its `Content-Type` header names. */
  function Charset(own: Option<string>, header: string): Result<Option<string>, MailFault> {
    if own.Some? then Success(own) else CharsetIn(SplitOn(Lower(header), ';'))
  }

  /** The search at item `i`: that item decides, or the search goes on after it. */
  lemma CharsetStep(items: seq<string>, i: nat)
    requires i < |items|
    ensures var item := Strip(items[i]);
      CharsetIn(items[i..]) ==
        if !StartsWith(item, "charset") then CharsetIn(items[i + 1..])
        else if |SplitOn(item, '=')| >= 2 then Success(Some(SplitOn(item, '=')[1]))
        else Failure(BadCharset)
  {
    assert items[i..][0] == items[i];
    assert items[i..][1..] == items[i + 1..];
  }

  method GuessCharset(own: Option<string>, header: string) returns (r: Result<Option<string>, MailFault>)
    ensures r == Charset(own, header)
  {
    var charset := own;
    if charset.None? {
      var items := SplitOn(Lower(header), ';');
      var i := 0;
      while i < |items|
        invariant 0 <= i <= |items|
        invariant charset.None? && CharsetIn(items) == CharsetIn(items[i..])
      {
        var item := Strip(items[i]);
        CharsetStep(items, i);
        if StartsWith(item, "charset") {
          var p := SplitOn(item, '=');
          if |p| < 2 {
            return Failure(BadCharset);
          }
          charset := Some(p[1]);
          break;
        }
        i := i + 1;
      }
      assert charset.None? ==> items[i..] == [];
    }
    r := Success(charset);
  }

  /** Once an item names the charset, later items are never read. */
  lemma {:induction false} CharsetFirstWins(items: seq<string>, more: seq<string>)
    requires CharsetIn(items) != Success(None)
    ensures CharsetIn(items + more) == CharsetIn(items)
    decreases |items|
  {
    assert (items + more)[0] == items[0];
    if !StartsWith(Strip(items[0]), "charset") {
      assert (items + more)[1..] == items[1..] + more;
      CharsetFirstWins(items[1..], more);
    }
  }

  /** A charset read from the header holds neither `;` nor `=`. */
  lemma {:induction false} CharsetClean(items: seq<string>)
    requires forall k :: 0 <= k < |items| ==> ';' !in items[k]
    requires CharsetIn(items).Success? && CharsetIn(items).value.Some?
    ensures ';' !in CharsetIn(items).value.value && '=' !in CharsetIn(items).value.value
    decreases |items|
  {
    var item := Strip(items[0]);
    if StartsWith(item, "charset") {
      StripChars(items[0], ';');
      var p := SplitOn(item, '=');
      JoinWithParts(p, "=", ';');
    } else {
      CharsetClean(items[1..]);
    }
  }

  // ------------------------------------------------------------- content

  /** A message: a leaf part, or a multipart holding parts. */
  datatype Message =
    | Part(contentType: string, own: Option<string>, header: string, payload: string, filename: Option<string>)
    | Multipart(parts: seq<Message>, filename: Option<string>)

  /** `parser_content`: a text leaf's payload, nothing for other leaves, the parts' texts for a multipart. */
  function Content(m: Message): Result<string, MailFault>
    decreases m, if m.Multipart? then |m.parts| + 1 else 0
  {
    match m
    case Part(contentType, own, header, payload, _) =>
      if contentType == "text/plain" || contentType == "text/html" then
        match Charset(own, header)
        case Failure(e) => Failure(e)
        case Success(_) => Success(payload)
      else Success("")
    case Multipart(parts, _) => Joined(m, |parts|)
  }

  /** The first `n` parts' texts, each stripped and led by a newline, empty ones skipped. */
  function Joined(m: Message, n: nat): Result<string, MailFault>
    requires m.Multipart? && n <= |m.parts|
    decreases m, n
  {
    if n == 0 then Success("")
    else match Joined(m, n - 1)
      case Failure(e) => Failure(e)
      case Success(acc) =>
        match Content(m.parts[n - 1])
        case Failure(e) => Failure(e)
        case Success(c) => Success(AddPart(acc, c))
  }

  /** `content += f'\n{part_content}' if part_content else ''` with the part's text stripped. */
  function AddPart(acc: string, c: string): string {
    var t := Strip(c);
    acc + if t == [] then [] else "\n" + t
  }

  /** A part that raises stops the join: later parts are not read. */
  lemma {:induction false} JoinedStops(m: Message, i: nat, j: nat)
    requires m.Multipart? && i <= j <= |m.parts| && Joined(m, i).Failure?
    ensures Joined(m, j) == Joined(m, i)
    decreases j
  {
    if i < j {
      JoinedStops(m, i, j - 1);
    }
  }

  method ParserContent(m: Message) returns (r: Result<string, MailFault>)
    ensures r == Content(m)
    decreases m
  {
    match m {
      case Part(contentType, own, header, payload, _) =>
        r := Success("");
        if contentType == "text/plain" || contentType == "text/html" {
          var charset := GuessCharset(own, header);
          if charset.Failure? {
            return Failure(charset.error);
          }
          r := Success(payload);
        }
      case Multipart(parts, _) =>
        var content := "";
        for i := 0 to |parts|
          invariant Joined(m, i) == Success(content)
        {
          var part := ParserContent(parts[i]);
          if part.Failure? {
            JoinedStops(m, i + 1, |parts|);
            return Failure(part.error);
          }
          var partContent := Strip(part.value);
          content := content + if partContent == [] then [] else "\n" + partContent;
        }
        r := Success(content);
    }
  }

  /** A multipart's text is empty or a newline-led run of trimmed texts: it never ends in whitespace. */
  lemma {:induction false} JoinedShape(m: Message, n: nat)
    requires m.Multipart? && n <= |m.parts| && Joined(m, n).Success?
    ensures var c := Joined(m, n).value; c == [] || (c[0] == '\n' && !IsSpace(c[|c| - 1]))
    decreases n
  {
    if n > 0 {
      JoinedShape(m, n - 1);
      var acc := Joined(m, n - 1).value;
      var c := Content(m.parts[n - 1]).value;
      assert Joined(m, n).value == AddPart(acc, c);
      JoinStep(acc, c);
    }
  }

  /** One more part keeps the joined text's shape. */
  lemma JoinStep(acc: string, c: string)
    requires acc == [] || (acc[0] == '\n' && !IsSpace(acc[|acc| - 1]))
    ensures var r := AddPart(acc, c); r == [] || (r[0] == '\n' && !IsSpace(r[|r| - 1]))
  {
    var t := Strip(c);
    if t != [] {
      var r := acc + "\n" + t;
      assert r[|r| - 1] == t[|t| - 1];
      assert r[0] == if acc == [] then '\n' else acc[0];
    }
  }

  /** Adding a part whose text strips to nothing leaves a multipart's text as it was. */
  lemma BlankPartIgnored(parts: seq<Message>, p: Message, f: Option<string>)
    requires Content(p).Success? && Strip(Content(p).value) == []
    ensures Content(Multipart(parts + [p], f)) == Content(Multipart(parts, f))
  {
    var m, m' := Multipart(parts + [p], f), Multipart(parts, f);
    assert m.parts[..|parts|] == m'.parts[..|parts|];
    JoinedPrefix(m, m', |parts|);
    assert m.parts[|parts|] == p;
    assert Content(m) == Joined(m, |parts| + 1);
    assert Content(m') == Joined(m', |parts|);
    if Joined(m', |parts|).Success? {
      var acc := Joined(m', |parts|).value;
      assert AddPart(acc, Content(p).value) == acc;
    }
  }

  /** The join of the first `n` parts reads only those parts. */
  lemma {:induction false} JoinedPrefix(m: Message, m': Message, n: nat)
    requires m.Multipart? && m'.Multipart? && n <= |m.parts| && n <= |m'.parts|
    requires m.parts[..n] == m'.parts[..n]
    ensures Joined(m, n) == Joined(m', n)
    decreases n
  {
    if n > 0 {
      assert m.parts[..n - 1] == m'.parts[..n - 1];
      assert m.parts[n - 1] == m.parts[..n][n - 1];
      JoinedPrefix(m, m', n - 1);
    }
  }

  // ------------------------------------------------------------ the scan

  /** `re.match('^paper_\d{6}.md$', name)`: the dot is any character but a newline, and `$` allows one final newline. */
  predicate AttachmentName(name: string) {
    (|name| == 15 || (|name| == 16 && name[15] == '\n')) &&
    OccursAt(name, Tag, 0) && AllDigits(name[6..12]) && name[12] != '\n' && name[13] == 'm' && name[14] == 'd'
  }

  /** Every `paper_<six digits>.md` is saved, and so is the same name with any other character for the dot. */
  lemma AttachmentNames(d: string, dot: char)
    requires |d| == 6 && AllDigits(d) && dot != '\n'
    ensures AttachmentName(Tag + d + ".md")
    ensures AttachmentName(Tag + d + [dot] + "md")
    ensures !AttachmentName(Tag + d + ".md.bak")
  {
    var a := Tag + d + ".md";
    assert a[..6] == Tag && a[6..12] == d;
    var b := Tag + d + [dot] + "md";
    assert b[..6] == Tag && b[6..12] == d;
  }

  /** `os.path.join(part_dir, file_name)` for a relative file name. */
  function PathJoin(dir: string, name: string): string {
    if dir == [] || EndsWith(dir, "/") then dir + name else dir + "/" + name
  }

  /** The attachment names `msg.walk()` yields, in the order it visits the parts. */
  function Filenames(m: Message): seq<Option<string>>
    decreases m, if m.Multipart? then |m.parts| + 1 else 0
  {
    match m
    case Part(_, _, _, _, f) => [f]
    case Multipart(parts, f) => [f] + PartsFilenames(m, |parts|)
  }

  function PartsFilenames(m: Message, n: nat): seq<Option<string>>
    requires m.Multipart? && n <= |m.parts|
    decreases m, n
  {
    if n == 0 then [] else PartsFilenames(m, n - 1) + Filenames(m.parts[n - 1])
  }

  /** The paths of the attachments saved: named ones whose name passes the filter, in order. */
  function Saved(names: seq<Option<string>>, dir: string): (r: seq<string>)
    ensures |r| <= |names|
    decreases |names|
  {
    if names == [] then []
    else
      var last := names[|names| - 1];
      var rest := Saved(names[..|names| - 1], dir);
      if last.Some? && AttachmentName(last.value) then rest + [PathJoin(dir, last.value)] else rest
  }

  /** Each saved path is the directory joined with an accepted name. */
  lemma {:induction false} SavedAccepted(names: seq<Option<string>>, dir: string, k: nat)
    requires k < |Saved(names, dir)|
    ensures exists j :: 0 <= j < |names| && names[j].Some? && AttachmentName(names[j].value) && Saved(names, dir)[k] == PathJoin(dir, names[j].value)
    decreases |names|
  {
    var n := |names| - 1;
    var rest := Saved(names[..n], dir);
    if k < |rest| {
      SavedAccepted(names[..n], dir, k);
      var j :| 0 <= j < n && names[..n][j].Some? && AttachmentName(names[..n][j].value) && rest[k] == PathJoin(dir, names[..n][j].value);
      assert names[j] == names[..n][j];
    } else {
      assert names[n].Some?;
    }
  }

  method SaveAttachments(names: seq<Option<string>>, dir: string) returns (parts: seq<string>)
    ensures parts == Saved(names, dir)
  {
    parts := [];
    for i := 0 to |names|
      invariant parts == Saved(names[..i], dir)
    {
      assert names[..i + 1][..i] == names[..i];
      var fileName := names[i];
      if fileName.None? {
        continue;
      }
      if !AttachmentName(fileName.value) {
        continue;
      }
      parts := parts + [PathJoin(dir, fileName.value)];
    }
    assert names[..|names|] == names;
  }

  /** A mail as the scan sees it: its decoded subject and its message. */
  datatype Mail = Mail(subject: string, message: Message)

  /** What the scan yields for a kept mail. */
  datatype Item = Item(subject: string, content: string, time: string, parts: seq<string>)

  /** The items yielded, newest first, and how the scan ended: `None` when it ran out or stopped. */
  datatype Scan = Scan(items: seq<Item>, fault: Option<MailFault>)

  /** The text the date is read from: the subject, a space, and the first 2000 characters of the content. */
  function Probe(subject: string, content: string): string {
    subject + " " + content[..if |content| < 2000 then |content| else 2000]
  }

  /** The scan of a mailbox whose mails are numbered 1 to `|mails|`, oldest first: it visits the newest first. */
  function ScanOf(mails: seq<Mail>, minDate: string, dir: string): Scan
    decreases |mails|
  {
    if mails == [] then Scan([], None)
    else
      var mail := mails[|mails| - 1];
      var older := mails[..|mails| - 1];
      if !Contains(mail.subject, Tag) then ScanOf(older, minDate, dir)
      else match Content(mail.message)
        case Failure(e) => Scan([], Some(e))
        case Success(content) =>
          match ReceivedDate(Probe(mail.subject, content))
          case None => Scan([], Some(BadDate))
          case Some(date) =>
            if LexLe(date, minDate) then Scan([], None)
            else
              var rest := ScanOf(older, minDate, dir);
              Scan([Item(mail.subject, content, date, Saved(Filenames(mail.message), dir))] + rest.items, rest.fault)
  }

  /** `parse_email_server` from the listing on, with the yielded items collected. */
  method ParseEmailServer(mails: seq<Mail>, minDate: string, partDir: string) returns (items: seq<Item>, fault: Option<MailFault>)
    ensures Scan(items, fault) == ScanOf(mails, minDate, partDir)
  {
    items := [];
    fault := None;
    var i := |mails|;
    assert mails[..i] == mails;
    while i > 0
      invariant 0 <= i <= |mails|
      invariant ScanOf(mails, minDate, partDir) == Scan(items + ScanOf(mails[..i], minDate, partDir).items, ScanOf(mails[..i], minDate, partDir).fault)
      decreases i
    {
      var mail := mails[i - 1];
      assert mails[..i][..i - 1] == mails[..i - 1];
      if !Contains(mail.subject, Tag) {
        i := i - 1;
        continue;
      }
      var content := ParserContent(mail.message);
      if content.Failure? {
        fault := Some(content.error);
        return;
      }
      var received := ReceivedDate(Probe(mail.subject, content.value));
      if received.None? {
        fault := Some(BadDate);
        return;
      }
      if LexLe(received.value, minDate) {
        assert items + [] == items;
        break;
      }
      var parts := SaveAttachments(Filenames(mail.message), partDir);
      var item := Item(mail.subject, content.value, received.value, parts);
      assert items + ([item] + ScanOf(mails[..i - 1], minDate, partDir).items) == (items + [item]) + ScanOf(mails[..i - 1], minDate, partDir).items;
      items := items + [item];
      i := i - 1;
    }
    assert mails[..0] == [];
  }

  /** Every item comes from a tagged mail whose date is later than `minDate`. */
  lemma {:induction false} ScanKeepsNew(mails: seq<Mail>, minDate: string, dir: string, k: nat)
    requires k < |ScanOf(mails, minDate, dir).items|
    ensures var item := ScanOf(mails, minDate, dir).items[k];
      Contains(item.subject, Tag) && !LexLe(item.time, minDate) && |item.time| == 6 && AllDigits(item.time)
    decreases |mails|
  {
    var older := mails[..|mails| - 1];
    var mail := mails[|mails| - 1];
    if !Contains(mail.subject, Tag) {
      ScanKeepsNew(older, minDate, dir, k);
    } else {
      assert Content(mail.message).Success?;
      var content := Content(mail.message).value;
      assert ReceivedDate(Probe(mail.subject, content)).Some?;
      var date := ReceivedDate(Probe(mail.subject, content)).value;
      var rest := ScanOf(older, minDate, dir);
      assert ScanOf(mails, minDate, dir).items == [Item(mail.subject, content, date, Saved(Filenames(mail.message), dir))] + rest.items;
      if k > 0 {
        ScanKeepsNew(older, minDate, dir, k - 1);
      }
    }
  }

  /** A mail whose subject has no `paper_` neither yields an item nor stops the scan. */
  lemma {:induction false} ScanSkipsUntagged(older: seq<Mail>, mail: Mail, newer: seq<Mail>, minDate: string, dir: string)
    requires !Contains(mail.subject, Tag)
    ensures ScanOf(older + [mail] + newer, minDate, dir) == ScanOf(older + newer, minDate, dir)
    decreases |newer|
  {
    var all := older + [mail] + newer;
    if newer == [] {
      assert all[..|all| - 1] == older;
      assert older + newer == older;
    } else {
      var n := |newer| - 1;
      assert all[..|all| - 1] == older + [mail] + newer[..n];
      assert (older + newer)[..|older + newer| - 1] == older + newer[..n];
      assert all[|all| - 1] == (older + newer)[|older + newer| - 1];
      ScanSkipsUntagged(older, mail, newer[..n], minDate, dir);
    }
  }

  /** The first kept mail dated `minDate` or earlier ends the scan: nothing older is read. */
  lemma ScanStopsAtOld(older: seq<Mail>, mail: Mail, minDate: string, dir: string)
    requires Contains(mail.subject, Tag) && Content(mail.message).Success?
    requires var date := ReceivedDate(Probe(mail.subject, Content(mail.message).value)); date.Some? && LexLe(date.value, minDate)
    ensures ScanOf(older + [mail], minDate, dir) == Scan([], None)
  {
    assert (older + [mail])[..|older|] == older;
  }
}
