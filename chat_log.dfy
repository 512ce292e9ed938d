/**
 * The day extraction of the emotion-diary app: the label of a calendar
 * day, the date-separator pattern built from it, the two message-line
 * patterns, the noise filter, and the scan over an exported chat log that
 * keeps the most recent 30 messages of that day.
 */
module ChatLog {
  import opened Wrappers
  import opened Text

  /** A calendar day as the caller's clock reports it; it is never validated. */
  datatype Date = Date(year: nat, month: nat, day: nat)

  /** `f"{year}년 {month}월 {day}일"`, the label the export prints on a day's separator line. */
  function DateLabel(d: Date): (r: string)
    ensures r != [] && IsDigit(r[0]) && r[|r| - 1] == '일'
  {
    Decimal(d.year) + "년 " + Decimal(d.month) + "월 " + Decimal(d.day) + "일"
  }

  /** Two digit strings, each closed by the same separator that opens with a non-digit: prefix order forces them equal. */
  lemma DigitsThenSeparator(u: string, v: string, sep: string, x: string, y: string)
    requires AllDigits(u) && AllDigits(v) && sep != [] && !IsDigit(sep[0])
    requires u + (sep + x) <= v + (sep + y)
    ensures u == v && x <= y
  {
    var l, m := u + (sep + x), v + (sep + y);
    assert l[..|u|] == u && l[|u|] == sep[0];
    assert m[..|v|] == v && m[|v|] == sep[0];
    assert forall i :: 0 <= i < |l| ==> l[i] == m[i];
    assert |u| == |v|;
    assert l[..|u|] == m[..|u|];
    assert l[|u|..] == sep + x && m[|u|..] == sep + y;
    assert (sep + x)[|sep|..] == x && (sep + y)[|sep|..] == y;
  }

  /** A label, and what follows it, read from the left: year digits, "년 ", month digits, "월 ", day digits, "일". */
  lemma LabelParts(d: Date, rest: string)
    ensures DateLabel(d) + rest
         == Decimal(d.year) + ("년 " + (Decimal(d.month) + ("월 " + (Decimal(d.day) + ("일" + rest)))))
  {
  }

  /**
   * A label is never a prefix of another day's label (nor of that label
   * followed by more text): "2025년 7월 1일" does not begin "2025년 7월 12일".
   */
  lemma DateLabelDeterminesDate(d: Date, e: Date, rest: string)
    requires DateLabel(d) <= DateLabel(e) + rest
    ensures d == e
  {
    var yd, md, dd := Decimal(d.year), Decimal(d.month), Decimal(d.day);
    var ye, me, de := Decimal(e.year), Decimal(e.month), Decimal(e.day);
    LabelParts(d, []);
    LabelParts(e, rest);
    assert DateLabel(d) + [] == DateLabel(d);
    DigitsThenSeparator(yd, ye, "년 ", md + ("월 " + (dd + ("일" + []))), me + ("월 " + (de + ("일" + rest))));
    DigitsThenSeparator(md, me, "월 ", dd + ("일" + []), de + ("일" + rest));
    DigitsThenSeparator(dd, de, "일", [], rest);
    DecimalInjective(d.year, e.year);
    DecimalInjective(d.month, e.month);
    DecimalInjective(d.day, e.day);
  }

  predicate IsDashOrSpace(c: char)
  {
    c == '-' || IsSpace(c)
  }

  predicate AllDashOrSpace(s: string)
  {
    forall i :: 0 <= i < |s| ==> IsDashOrSpace(s[i])
  }

  /**
   * `date_hdr.match(ln)` for `date_hdr = ^[-\s]*<escaped label>.*$`: after
   * a run of dashes and whitespace the line goes on with the label. The
   * trailing `.*$` accepts whatever follows. That reading is Python's only
   * on strings without '\n', which every line of the scan is.
   */
  predicate IsHeader(ln: string, dateStr: string)
    ensures dateStr <= ln ==> IsHeader(ln, dateStr)
    ensures IsHeader(ln, dateStr) ==> |dateStr| <= |ln|
    decreases |ln|
  {
    dateStr <= ln || (ln != [] && IsDashOrSpace(ln[0]) && IsHeader(ln[1..], dateStr))
  }

  /** A header has a dash/space prefix after which the label begins. */
  lemma {:induction false} HeaderSplit(ln: string, dateStr: string) returns (k: nat)
    requires IsHeader(ln, dateStr)
    ensures k <= |ln| && AllDashOrSpace(ln[..k]) && dateStr <= ln[k..]
    decreases |ln|
  {
    if dateStr <= ln {
      k := 0;
      assert ln[..0] == [] && ln[0..] == ln;
    } else {
      var j := HeaderSplit(ln[1..], dateStr);
      k := j + 1;
      assert ln[1..][j..] == ln[k..];
      assert ln[..k] == [ln[0]] + ln[1..][..j];
    }
  }

  /** A dash/space prefix followed by the label makes a header. */
  lemma {:induction false} HeaderJoin(ln: string, dateStr: string, k: nat)
    requires k <= |ln| && AllDashOrSpace(ln[..k]) && dateStr <= ln[k..]
    ensures IsHeader(ln, dateStr)
    decreases k
  {
    if k == 0 {
      assert ln[0..] == ln;
    } else {
      assert IsDashOrSpace(ln[..k][0]);
      assert ln[1..][k - 1..] == ln[k..];
      assert ln[1..][..k - 1] == ln[..k][1..];
      HeaderJoin(ln[1..], dateStr, k - 1);
    }
  }

  /** The header test against its reading as a pattern: some dash/space prefix, then the label. */
  lemma IsHeaderIff(ln: string, dateStr: string)
    ensures IsHeader(ln, dateStr) <==> exists k :: 0 <= k <= |ln| && AllDashOrSpace(ln[..k]) && dateStr <= ln[k..]
  {
    if IsHeader(ln, dateStr) {
      var k := HeaderSplit(ln, dateStr);
    }
    forall k | 0 <= k <= |ln| && AllDashOrSpace(ln[..k]) && dateStr <= ln[k..]
      ensures IsHeader(ln, dateStr)
    {
      HeaderJoin(ln, dateStr, k);
    }
  }

  /** Past a decoration of dashes and whitespace, the header test is a prefix test on the rest of the line. */
  lemma {:induction false} HeaderAfterDecoration(pre: string, body: string, dateStr: string)
    requires AllDashOrSpace(pre)
    requires body != [] && !IsDashOrSpace(body[0]) && dateStr != [] && !IsDashOrSpace(dateStr[0])
    ensures IsHeader(pre + body, dateStr) <==> dateStr <= body
    decreases |pre|
  {
    if pre == [] {
      assert pre + body == body;
    } else {
      HeaderAfterDecoration(pre[1..], body, dateStr);
      assert (pre + body)[1..] == pre[1..] + body;
      assert (pre + body)[0] == pre[0];
    }
  }

  /**
   * A separator line of day `e`, decorated in front with dashes and
   * whitespace, opens the scan for the label of day `d` exactly when the two
   * days are the same.
   */
  lemma HeaderOfDay(pre: string, e: Date, rest: string, d: Date)
    requires AllDashOrSpace(pre)
    ensures IsHeader(pre + DateLabel(e) + rest, DateLabel(d)) <==> d == e
  {
    assert pre + DateLabel(e) + rest == pre + (DateLabel(e) + rest);
    HeaderAfterDecoration(pre, DateLabel(e) + rest, DateLabel(d));
    if DateLabel(d) <= DateLabel(e) + rest {
      DateLabelDeterminesDate(d, e, rest);
    }
  }

  /** What `(오전|오후)` matches: "오전" (a.m.) or "오후" (p.m.). */
  predicate IsMeridiem(s: string)
  {
    s == "오전" || s == "오후"
  }

  /** What `\d{1,2}:\d{2}` matches: one or two digits, ':', two digits. */
  predicate IsClock(s: string)
  {
    (|s| == 4 || |s| == 5) && s[|s| - 3] == ':' && forall j :: 0 <= j < |s| && j != |s| - 3 ==> IsDigit(s[j])
  }

  /** `(오전|오후)` at index `i` of `ln`: the index behind it. */
  function MeridiemAt(ln: string, i: nat): (r: Option<nat>)
    requires i <= |ln|
    ensures r.Some? <==> i + 2 <= |ln| && IsMeridiem(ln[i..i + 2])
    ensures r.Some? ==> r.value == i + 2 && ln[i] == '오'
  {
    if i + 2 <= |ln| && ln[i] == '오' && (ln[i + 1] == '전' || ln[i + 1] == '후') then Some(i + 2)
    else assert i + 2 <= |ln| ==> ln[i..i + 2] == [ln[i], ln[i + 1]]; None
  }

  /**
   * `\d{1,2}:\d{2}` at index `i` of `ln`: the index behind the minutes. The
   * greedy `\d{1,2}` tries two hour digits first, then one.
   */
  function ClockAt(ln: string, i: nat): (r: Option<nat>)
    requires i <= |ln|
    ensures r.Some? ==> i + 4 <= r.value <= i + 5 && r.value <= |ln| && IsDigit(ln[i])
    ensures r.Some? ==> IsClock(ln[i..r.value])
    ensures forall e :: i <= e <= |ln| && IsClock(ln[i..e]) ==> r == Some(e)
  {
    if i + 5 <= |ln| && IsDigit(ln[i]) && IsDigit(ln[i + 1]) && ln[i + 2] == ':' && IsDigit(ln[i + 3]) && IsDigit(ln[i + 4]) then Some(i + 5)
    else if i + 4 <= |ln| && IsDigit(ln[i]) && ln[i + 1] == ':' && IsDigit(ln[i + 2]) && IsDigit(ln[i + 3]) then Some(i + 4)
    else None
  }

  /** `(오전|오후)\s*\d{1,2}:\d{2}` at index `i` of `ln`: the index behind the minutes. */
  function TimeAt(ln: string, i: nat): (r: Option<nat>)
    requires i <= |ln|
    ensures r.Some? ==> i < r.value <= |ln| && ln[i] == '오'
    ensures r.Some? ==> i + 2 <= |ln| && IsMeridiem(ln[i..i + 2])
    ensures r.Some? ==> i + 2 <= r.value && SkipSpaces(ln, i + 2) <= r.value && IsClock(ln[SkipSpaces(ln, i + 2)..r.value])
  {
    match MeridiemAt(ln, i)
    case None => None
    case Some(k) => ClockAt(ln, SkipSpaces(ln, k))
  }

  /**
   * What `msg1` asks of the text from index `i`, just behind the `]` of the
   * author: `\s*(오전|오후)\s*\d{1,2}:\d{2}\s*`. The value is where group 3
   * starts.
   */
  function AfterAuthor(ln: string, i: nat): (r: Option<nat>)
    requires i <= |ln|
    ensures r.Some? ==> i < r.value <= |ln|
  {
    match TimeAt(ln, SkipSpaces(ln, i))
    case None => None
    case Some(k) => Some(SkipSpaces(ln, k))
  }

  /** A `]` at index `k` of `ln` (past the opening `[`) behind which the rest of `msg1` matches. */
  predicate ClosesAuthor(ln: string, k: nat)
  {
    1 <= k < |ln| && ln[k] == ']' && AfterAuthor(ln, k + 1).Some?
  }

  /**
   * The `]` that closes the lazy author group `\[(.*?)\]` of `msg1`: the
   * first one at or after `i` behind which the rest of the pattern matches.
   */
  function AuthorClose(ln: string, i: nat): (r: Option<nat>)
    requires 1 <= i <= |ln|
    ensures r.Some? ==> i <= r.value && ClosesAuthor(ln, r.value)
    ensures forall k :: i <= k && ClosesAuthor(ln, k) ==> r.Some? && r.value <= k
    decreases |ln| - i
  {
    if i == |ln| then None
    else if ClosesAuthor(ln, i) then Some(i)
    else AuthorClose(ln, i + 1)
  }

  /**
   * `msg1.match(ln)` for `^\[(.*?)\]\s*(오전|오후)\s*\d{1,2}:\d{2}\s*(.*)`: group 3 when
   * it matches. `.` is read as any character, which is Python's `.` on lines
   * without '\n', the only lines the scan tests.
   */
  function Msg1(ln: string): (r: Option<string>)
    ensures r.Some? ==> ln != [] && ln[0] == '[' && IsSuffix(r.value, ln)
  {
    if ln != [] && ln[0] == '[' then
      match AuthorClose(ln, 1)
      case None => None
      case Some(j) =>
        match AfterAuthor(ln, j + 1)
        case None => None
        case Some(g) => Some(ln[g..])
    else None
  }

  /**
   * `msg1` matches exactly the lines that open with `[` and have a `]`
   * behind which the rest matches; the author ends at the earliest such `]`,
   * and group 3 is what follows the time and its whitespace.
   */
  lemma Msg1Matches(ln: string)
    ensures Msg1(ln).Some? <==> (ln != [] && ln[0] == '[' && exists j: nat :: ClosesAuthor(ln, j))
    ensures Msg1(ln).Some? ==> exists j: nat :: (ClosesAuthor(ln, j)
      && Msg1(ln) == Some(ln[AfterAuthor(ln, j + 1).value..])
      && forall k: nat :: k < j ==> !ClosesAuthor(ln, k))
  {
    if ln != [] && ln[0] == '[' {
      var r := AuthorClose(ln, 1);
      if r.Some? {
        var j := r.value;
        assert ClosesAuthor(ln, j) && Msg1(ln) == Some(ln[AfterAuthor(ln, j + 1).value..]);
      }
    }
  }

  /** The index of the first `]` in `ln` at or after `i`, if any. */
  function FirstClose(ln: string, i: nat): (r: Option<nat>)
    requires i <= |ln|
    ensures r.Some? ==> i <= r.value < |ln| && ln[r.value] == ']' && forall k :: i <= k < r.value ==> ln[k] != ']'
    ensures r.None? ==> forall k :: i <= k < |ln| ==> ln[k] != ']'
    decreases |ln| - i
  {
    if i == |ln| then None
    else if ln[i] == ']' then Some(i)
    else FirstClose(ln, i + 1)
  }

  /** Where the author bracket of `msg2` opens: the `[` after the time and its whitespace. */
  function Msg2Open(ln: string): (r: Option<nat>)
    ensures r.Some? ==> r.value < |ln| && ln[r.value] == '[' && ln[0] == '오'
  {
    match TimeAt(ln, 0)
    case None => None
    case Some(t) =>
      var u := SkipSpaces(ln, t);
      if u < |ln| && ln[u] == '[' then Some(u) else None
  }

  /**
   * `msg2.match(ln)` for `^(오전|오후)\s*\d{1,2}:\d{2}\s*\[(.*?)\]\s*(.*)`:
   * group 3 when it matches. As `\s*(.*)` matches anything, the lazy
   * author group ends at the first `]`. `.` is read as any character, which
   * is Python's `.` on lines without '\n', the only lines the scan tests.
   */
  function Msg2(ln: string): (r: Option<string>)
    ensures r.Some? ==> ln != [] && ln[0] == '오' && IsSuffix(r.value, ln)
  {
    match Msg2Open(ln)
    case None => None
    case Some(u) => Msg2From(ln, u)
  }

  /** The rest of `msg2` once its `[` is found at `u`: `(.*?)\]\s*(.*)`, group 3 when it matches. */
  function Msg2From(ln: string, u: nat): (r: Option<string>)
    requires u < |ln|
    ensures r.Some? ==> IsSuffix(r.value, ln)
  {
    match FirstClose(ln, u + 1)
    case None => None
    case Some(j) => Some(ln[SkipSpaces(ln, j + 1)..])
  }

  /** `msg2` matches exactly the lines whose author bracket opens after the time and closes somewhere behind. */
  lemma Msg2Matches(ln: string)
    ensures Msg2(ln).Some? <==> Msg2Open(ln).Some? && ']' in ln[Msg2Open(ln).value + 1..]
  {
    match Msg2Open(ln)
    case None =>
    case Some(u) =>
      if ']' in ln[u + 1..] {
        var k :| 0 <= k < |ln[u + 1..]| && ln[u + 1..][k] == ']';
        assert ln[u + 1 + k] == ']';
      }
  }

  /**
   * Group 3 of `msg2`, once its `[` is found at `u`: what follows the first
   * `]` behind it, less its leading whitespace.
   */
  lemma Msg2Group(ln: string, u: nat, k: nat)
    requires u < k < |ln| && ln[k] == ']'
    requires forall m :: u < m < k ==> ln[m] != ']'
    ensures Msg2From(ln, u) == Some(ln[SkipSpaces(ln, k + 1)..])
  {
    assert FirstClose(ln, u + 1) == Some(k);
  }

  /** The time pattern accepts a meridiem, whitespace and a clock, and ends behind the clock. */
  lemma TimeAtAccepts(ln: string, i: nat, c: nat, e: nat)
    requires i + 2 <= c <= e <= |ln| && IsMeridiem(ln[i..i + 2]) && AllSpace(ln[i + 2..c]) && IsClock(ln[c..e])
    ensures TimeAt(ln, i) == Some(e)
  {
    assert ln[c] == ln[c..e][0];
    SkipSpacesTo(ln, i + 2, c);
  }

  /**
   * The rest of `msg1` behind the author's `]` accepts whitespace from `i`,
   * the meridiem at `t`, whitespace, the clock from `c` to `e` and
   * whitespace up to `g`; group 3 starts at `g`, the first non-whitespace.
   */
  lemma AfterAuthorAccepts(ln: string, i: nat, t: nat, c: nat, e: nat, g: nat)
    requires i <= t && t + 2 <= c <= e <= g <= |ln|
    requires AllSpace(ln[i..t]) && IsMeridiem(ln[t..t + 2]) && AllSpace(ln[t + 2..c]) && IsClock(ln[c..e])
    requires AllSpace(ln[e..g]) && (g < |ln| ==> !IsSpace(ln[g]))
    ensures AfterAuthor(ln, i) == Some(g)
  {
    TimeAtAccepts(ln, t, c, e);
    assert ln[t] == ln[t..t + 2][0];
    SkipSpacesTo(ln, i, t);
    SkipSpacesTo(ln, e, g);
  }

  /** With '[' at 0 and the first `]` at `j`, behind which the rest of `msg1` matches, group 3 starts where that rest ends. */
  lemma Msg1At(ln: string, j: nat)
    requires 1 <= j < |ln| && ln[0] == '[' && ln[j] == ']' && AfterAuthor(ln, j + 1).Some?
    requires forall k :: 1 <= k < j ==> ln[k] != ']'
    ensures Msg1(ln) == Some(ln[AfterAuthor(ln, j + 1).value..])
  {
    assert ClosesAuthor(ln, j);
    assert AuthorClose(ln, 1) == Some(j);
  }

  /**
   * A line laid out as `msg1` asks, read by positions: '[' at 0, the first
   * `]` at `j`, whitespace, the meridiem at `t`, whitespace, the clock from
   * `c` to `e`, whitespace up to `g`, and no whitespace at `g`. Group 3 is
   * the rest of the line from `g`.
   */
  lemma Msg1Accepts(ln: string, j: nat, t: nat, c: nat, e: nat, g: nat)
    requires 1 <= j < t && t + 2 <= c <= e <= g <= |ln| && ln[0] == '[' && ln[j] == ']'
    requires forall k :: 1 <= k < j ==> ln[k] != ']'
    requires AllSpace(ln[j + 1..t]) && IsMeridiem(ln[t..t + 2]) && AllSpace(ln[t + 2..c]) && IsClock(ln[c..e])
    requires AllSpace(ln[e..g]) && (g < |ln| ==> !IsSpace(ln[g]))
    ensures Msg1(ln) == Some(ln[g..])
  {
    AfterAuthorAccepts(ln, j + 1, t, c, e, g);
    Msg1At(ln, j);
  }

  /** The `[` of `msg2` opens at `u` when the line starts with a meridiem, whitespace, a clock from `c` to `e`, and whitespace up to `u`. */
  lemma Msg2OpenAccepts(ln: string, c: nat, e: nat, u: nat)
    requires 2 <= c <= e <= u < |ln| && ln[u] == '['
    requires IsMeridiem(ln[..2]) && AllSpace(ln[2..c]) && IsClock(ln[c..e]) && AllSpace(ln[e..u])
    ensures Msg2Open(ln) == Some(u)
  {
    assert ln[0..2] == ln[..2];
    TimeAtAccepts(ln, 0, c, e);
    SkipSpacesTo(ln, e, u);
  }

  /**
   * What the rest of `msg1` matched from `i` to `g`: whitespace up to `t`,
   * the meridiem, whitespace, a clock ending at some `e`, and whitespace up
   * to `g`, where group 3 begins at the first non-whitespace.
   */
  lemma AfterAuthorSound(ln: string, i: nat)
    requires i <= |ln| && AfterAuthor(ln, i).Some?
    ensures var t := SkipSpaces(ln, i); t + 2 <= |ln| && AllSpace(ln[i..t]) && IsMeridiem(ln[t..t + 2])
    ensures var t, g := SkipSpaces(ln, i), AfterAuthor(ln, i).value; exists e :: SkipSpaces(ln, t + 2) <= e <= g && IsClock(ln[SkipSpaces(ln, t + 2)..e]) && AllSpace(ln[e..g])
    ensures var g := AfterAuthor(ln, i).value; g < |ln| ==> !IsSpace(ln[g])
  {
    var t := SkipSpaces(ln, i);
    var e := TimeAt(ln, t).value;
    var g := AfterAuthor(ln, i).value;
    assert g == SkipSpaces(ln, e);
    AllSpaceUpTo(ln, i, t);
    AllSpaceUpTo(ln, e, g);
  }

  /** The `[` of `msg2` stands right after the opening meridiem, whitespace, a clock and whitespace. */
  lemma Msg2OpenSound(ln: string)
    requires Msg2Open(ln).Some?
    ensures 2 <= |ln| && IsMeridiem(ln[..2]) && ln[Msg2Open(ln).value] == '['
    ensures exists e :: SkipSpaces(ln, 2) <= e <= Msg2Open(ln).value && IsClock(ln[SkipSpaces(ln, 2)..e]) && AllSpace(ln[e..Msg2Open(ln).value])
  {
    var e := TimeAt(ln, 0).value;
    var u := Msg2Open(ln).value;
    assert u == SkipSpaces(ln, e);
    assert ln[..2] == ln[0..2];
    AllSpaceUpTo(ln, e, u);
  }

  /**
   * A line laid out as `msg2` asks, read by positions: the meridiem at 0,
   * whitespace, the clock from `c` to `e`, whitespace, '[' at `u`, the first
   * `]` behind it at `k`, whitespace up to `g`, and no whitespace at `g`.
   * Group 3 is the rest of the line from `g`.
   */
  lemma Msg2Accepts(ln: string, c: nat, e: nat, u: nat, k: nat, g: nat)
    requires 2 <= c <= e <= u < k < g <= |ln|
    requires IsMeridiem(ln[..2]) && AllSpace(ln[2..c]) && IsClock(ln[c..e]) && AllSpace(ln[e..u])
    requires ln[u] == '[' && ln[k] == ']' && forall m :: u < m < k ==> ln[m] != ']'
    requires AllSpace(ln[k + 1..g]) && (g < |ln| ==> !IsSpace(ln[g]))
    ensures Msg2(ln) == Some(ln[g..])
  {
    Msg2OpenAccepts(ln, c, e, u);
    Msg2Group(ln, u, k);
    SkipSpacesTo(ln, k + 1, g);
  }

  /**
   * Every line `[author] 오전/오후 h:mm text`, with any whitespace between
   * the parts, is a `msg1` message whose group 3 is the text, provided the
   * author holds no `]` and the text does not open with whitespace.
   */
  lemma Msg1Form(author: string, s1: string, mer: string, s2: string, clock: string, s3: string, text: string)
    requires ']' !in author && IsMeridiem(mer) && IsClock(clock)
    requires AllSpace(s1) && AllSpace(s2) && AllSpace(s3)
    requires text == [] || !IsSpace(text[0])
    ensures Msg1("[" + author + "]" + s1 + mer + s2 + clock + s3 + text) == Some(text)
  {
    var p1 := "[" + author + "]";
    var p2 := p1 + s1;
    var p3 := p2 + mer;
    var p4 := p3 + s2;
    var p5 := p4 + clock;
    var p6 := p5 + s3;
    var ln := p6 + text;
    assert p5 <= ln && p4 <= ln && p3 <= ln && p2 <= ln;
    PieceOf(p1, s1, ln);
    PieceOf(p2, mer, ln);
    PieceOf(p3, s2, ln);
    PieceOf(p4, clock, ln);
    PieceOf(p5, s3, ln);
    var j, t, c, e, g := |p1| - 1, |p2|, |p4|, |p5|, |p6|;
    assert ln[g..] == text;
    forall k | 1 <= k < j ensures ln[k] != ']' {
      assert ln[k] == p1[k] == author[k - 1];
    }
    if g < |ln| {
      assert ln[g] == text[0];
    }
    assert ln[j] == ']';
    Msg1Accepts(ln, j, t, c, e, g);
  }

  /**
   * Every line `오전/오후 h:mm [author] text`, with any whitespace between
   * the parts, is a `msg2` message whose group 3 is the text, provided the
   * author holds no `]` and the text does not open with whitespace.
   */
  lemma Msg2Form(mer: string, s1: string, clock: string, s2: string, author: string, s3: string, text: string)
    requires ']' !in author && IsMeridiem(mer) && IsClock(clock)
    requires AllSpace(s1) && AllSpace(s2) && AllSpace(s3)
    requires text == [] || !IsSpace(text[0])
    ensures Msg2(mer + s1 + clock + s2 + "[" + author + "]" + s3 + text) == Some(text)
  {
    var p1 := mer + s1;
    var p2 := p1 + clock;
    var p3 := p2 + s2;
    var p4 := p3 + "[";
    var p5 := p4 + author;
    var p6 := p5 + "]";
    var p7 := p6 + s3;
    var ln := p7 + text;
    assert p6 <= ln && p5 <= ln && p3 <= ln && p2 <= ln && p1 <= ln;
    PieceOf([], mer, ln);
    PieceOf(mer, s1, ln);
    PieceOf(p1, clock, ln);
    PieceOf(p2, s2, ln);
    PieceOf(p6, s3, ln);
    var c, e, u, k, g := |p1|, |p2|, |p3|, |p5|, |p7|;
    assert ln[g..] == text;
    assert ln[u] == '[' && ln[k] == ']';
    forall m | u < m < k ensures ln[m] != ']' {
      assert ln[m] == p5[m] == author[m - u - 1];
    }
    if g < |ln| {
      assert ln[g] == text[0];
    }
    Msg2Accepts(ln, c, e, u, k, g);
  }

  /** `m = msg1.match(ln) or msg2.match(ln)` followed by `m.group(3).strip()`. */
  function Content(ln: string): (r: Option<string>)
    ensures r.Some? <==> Msg1(ln).Some? || Msg2(ln).Some?
    ensures r.Some? ==> ln != [] && (ln[0] == '[' || ln[0] == '오')
    ensures r.Some? ==> r.value == [] || (!IsSpace(r.value[0]) && !IsSpace(r.value[|r.value| - 1]))
  {
    match Msg1(ln)
    case Some(g) => Some(Strip(g))
    case None =>
      match Msg2(ln)
      case Some(g) => Some(Strip(g))
      case None => None
  }

  /** A line that opens with a dash or a digit, as every date separator does, is no message. */
  lemma {:induction false} SeparatorIsNoMessage(ln: string)
    requires ln != [] && (ln[0] == '-' || IsDigit(ln[0]))
    ensures Content(ln) == None
  {
    assert Msg1(ln) == None;
    assert TimeAt(ln, 0) == None;
  }

  /**
   * A time written in brackets after the author, as in
   * "[민수] [오후 1:30] 안녕!", fits neither pattern, so the line is dropped.
   */
  lemma BracketedTimeIsNoMessage(author: string, time: string, rest: string)
    requires ']' !in author && ']' !in time && ']' !in rest
    requires rest != [] ==> !IsSpace(rest[0]) && rest[0] != '오'
    ensures Content("[" + author + "] [" + time + "] " + rest) == None
  {
    var ln := "[" + author + "] [" + time + "] " + rest;
    var a := |author| + 1;
    var b := a + 3 + |time|;
    assert |ln| == b + 2 + |rest|;
    assert ln[0] == '[' && ln[a] == ']' && ln[a + 1] == ' ' && ln[a + 2] == '[' && ln[b] == ']' && ln[b + 1] == ' ';
    forall k | 1 <= k < |ln| && k != a && k != b
      ensures ln[k] != ']'
    {
      if k < a {
        assert ln[k] == author[k - 1];
      } else if a + 2 < k < b {
        assert ln[k] == time[k - a - 3];
      } else if b + 1 < k {
        assert ln[k] == rest[k - b - 2];
      }
    }
    assert !ClosesAuthor(ln, a) by {
      assert SkipSpaces(ln, a + 1) == a + 2;
    }
    assert !ClosesAuthor(ln, b) by {
      if rest == [] {
        assert SkipSpaces(ln, b + 1) == |ln|;
      } else {
        assert ln[b + 2] == rest[0];
        assert SkipSpaces(ln, b + 1) == b + 2;
      }
    }
    assert AuthorClose(ln, 1) == None;
    assert TimeAt(ln, 0) == None;
  }

  /** A message line with nothing after the time still yields a message: the empty one. */
  lemma EmptyMessageKept()
    ensures Content("[a] 오후 1:00") == Some("")
    ensures Kept("[a] 오후 1:00") == [""]
  {
    var ln := "[a] 오후 1:00";
    assert |ln| == 11 && ln[2] == ']' && ln[3] == ' ' && ln[4] == '오' && ln[6] == ' ';
    assert SkipSpaces(ln, 3) == 4;
    assert SkipSpaces(ln, 6) == 7;
    assert ClockAt(ln, 7) == Some(11);
    assert TimeAt(ln, 4) == Some(11);
    assert AfterAuthor(ln, 3) == Some(11);
    assert AuthorClose(ln, 1) == Some(2);
    assert Msg1(ln) == Some([]);
    assert Strip([]) == [];
    assert !IsNoise([]);
  }

  /** The markers of lines that are not conversation: a photo, an emoticon, someone joining, someone leaving. */
  const NoiseMarkers: seq<string> := ["[사진]", "이모티콘", "님이 입장", "님이 나갔"]

  /** `any(k in msg_txt for k in (...))`. */
  predicate IsNoise(txt: string)
    ensures IsNoise(txt) ==> |txt| >= 4
  {
    exists k :: 0 <= k < |NoiseMarkers| && Contains(txt, NoiseMarkers[k])
  }

  /** A message holding any of the markers, wherever it stands, is noise. */
  lemma MarkerIsNoise(pre: string, k: nat, post: string)
    requires k < |NoiseMarkers|
    ensures IsNoise(pre + NoiseMarkers[k] + post)
  {
    var txt := pre + NoiseMarkers[k] + post;
    ContainsAt(txt, NoiseMarkers[k]);
    assert NoiseMarkers[k] <= txt[|pre|..];
  }

  /** What a line that is not a header adds while collecting: its content, unless that is noise. */
  function Kept(ln: string): (r: seq<string>)
    ensures |r| <= 1
    ensures forall e :: e in r ==> Content(ln) == Some(e) && !IsNoise(e)
    ensures Content(ln).Some? && !IsNoise(Content(ln).value) ==> r == [Content(ln).value]
  {
    match Content(ln)
    case Some(txt) => if IsNoise(txt) then [] else [txt]
    case None => []
  }

  /** The entry a line keeps, read off the first of the two matches that succeeds. */
  lemma KeptOfMatch(ln: string, m: Option<string>)
    requires m == (if Msg1(ln).Some? then Msg1(ln) else Msg2(ln))
    ensures Kept(ln) == (if m.Some? && !IsNoise(Strip(m.value)) then [Strip(m.value)] else [])
  {
  }

  /** What one stripped line adds to the entries, given the state `collect` before it. */
  function Appended(ln: string, dateStr: string, collect: bool): seq<string>
  {
    if IsHeader(ln, dateStr) || !collect then [] else Kept(ln)
  }

  /** What the loop of `extract_today` appends, over the raw lines, from the state `collect`. */
  function Scan(lines: seq<string>, dateStr: string, collect: bool): (r: seq<string>)
    ensures |r| <= |lines|
    decreases |lines|
  {
    if lines == [] then []
    else
      var ln := Strip(lines[0]);
      Appended(ln, dateStr, collect) + Scan(lines[1..], dateStr, collect || IsHeader(ln, dateStr))
  }

  lemma ScanStep(lines: seq<string>, i: nat, dateStr: string, collect: bool)
    requires i < |lines|
    ensures Scan(lines[i..], dateStr, collect)
         == Appended(Strip(lines[i]), dateStr, collect) + Scan(lines[i + 1..], dateStr, collect || IsHeader(Strip(lines[i]), dateStr))
  {
    assert lines[i..][0] == lines[i] && lines[i..][1..] == lines[i + 1..];
  }

  /** The messages of every line that is not a header, with no state at all. */
  function Messages(lines: seq<string>, dateStr: string): seq<string>
    decreases |lines|
  {
    if lines == [] then []
    else
      var ln := Strip(lines[0]);
      (if IsHeader(ln, dateStr) then [] else Kept(ln)) + Messages(lines[1..], dateStr)
  }

  /**
   * Once collecting, the scan never stops: the `break` meant for the next
   * day's separator sits behind the header test that already caught every
   * header, so each later line is judged on its own.
   */
  lemma {:induction false} CollectingNeverStops(lines: seq<string>, dateStr: string)
    ensures Scan(lines, dateStr, true) == Messages(lines, dateStr)
    decreases |lines|
  {
    if lines != [] {
      CollectingNeverStops(lines[1..], dateStr);
    }
  }

  /** Lines before the first header, and the header itself, add nothing. */
  lemma {:induction false} ScanFromFirstHeader(lines: seq<string>, dateStr: string, i: nat)
    requires i < |lines| && IsHeader(Strip(lines[i]), dateStr)
    requires forall j :: 0 <= j < i ==> !IsHeader(Strip(lines[j]), dateStr)
    ensures Scan(lines, dateStr, false) == Messages(lines[i + 1..], dateStr)
    decreases i
  {
    if i == 0 {
      CollectingNeverStops(lines[1..], dateStr);
    } else {
      ScanFromFirstHeader(lines[1..], dateStr, i - 1);
      assert lines[1..][i..] == lines[i + 1..];
    }
  }

  /** Without a header for the label, nothing is collected. */
  lemma {:induction false} ScanWithoutHeader(lines: seq<string>, dateStr: string)
    requires forall j :: 0 <= j < |lines| ==> !IsHeader(Strip(lines[j]), dateStr)
    ensures Scan(lines, dateStr, false) == []
    decreases |lines|
  {
    if lines != [] {
      ScanWithoutHeader(lines[1..], dateStr);
    }
  }

  /**
   * Every collected entry is the stripped group 3 of `msg1`, or of `msg2`
   * where `msg1` fails, on a line that is no header, and is not noise.
   */
  lemma {:induction false} ScanKeepsOnlyMessages(lines: seq<string>, dateStr: string, collect: bool)
    ensures forall e :: e in Scan(lines, dateStr, collect) ==>
      !IsNoise(e) && exists j :: 0 <= j < |lines| && !IsHeader(Strip(lines[j]), dateStr) && Content(Strip(lines[j])) == Some(e)
    decreases |lines|
  {
    if lines != [] {
      ScanKeepsOnlyMessages(lines[1..], dateStr, IsHeader(Strip(lines[0]), dateStr) || collect);
      forall e | e in Scan(lines, dateStr, collect)
        ensures !IsNoise(e) && exists j :: 0 <= j < |lines| && !IsHeader(Strip(lines[j]), dateStr) && Content(Strip(lines[j])) == Some(e)
      {
        if e in Scan(lines[1..], dateStr, IsHeader(Strip(lines[0]), dateStr) || collect) {
          var j :| 0 <= j < |lines[1..]| && !IsHeader(Strip(lines[1..][j]), dateStr) && Content(Strip(lines[1..][j])) == Some(e);
          assert lines[1..][j] == lines[j + 1];
        } else {
          assert e in Kept(Strip(lines[0]));
        }
      }
    }
  }

  /**
   * A separator of another day, met while collecting, neither ends nor
   * feeds the collection: the messages behind it are still taken.
   */
  lemma OtherDayDoesNotStop(sep: string, pre: string, e: Date, rest: string, d: Date, lines: seq<string>)
    requires Strip(sep) == pre + DateLabel(e) + rest && AllDashOrSpace(pre)
    requires d != e
    ensures Scan([sep] + lines, DateLabel(d), true) == Scan(lines, DateLabel(d), true)
  {
    var ln := Strip(sep);
    HeaderOfDay(pre, e, rest, d);
    assert ln[0] == '-' || IsDigit(ln[0]) by {
      if pre != [] {
        assert ln[0] == pre[0] && !IsSpace(ln[0]);
      } else {
        assert ln[0] == DateLabel(e)[0];
      }
    }
    SeparatorIsNoMessage(ln);
    assert ([sep] + lines)[1..] == lines;
  }

  /** Python's `chat[-n:]`: the last `n` entries, or all of them when there are fewer. */
  function Recent(s: seq<string>, n: nat): (r: seq<string>)
    ensures |r| == if |s| < n then |s| else n
    ensures s == s[..|s| - |r|] + r
  {
    s[|s| - (if |s| < n then |s| else n)..]
  }

  /** How many of the latest messages `extract_today` returns. */
  const MaxEntries: nat := 30

  /**
   * `extract_today(text, date_str)`: split the text into lines, strip each,
   * start collecting at a header for the label, keep the non-noise content
   * of every message line from then on, and join the last 30 with "\n".
   */
  method ExtractToday(text: string, dateStr: string) returns (out: string)
    ensures out == Join(Recent(Scan(SplitLines(text), dateStr, false), MaxEntries), "\n")
  {
    var lines := SplitLines(text);
    var chat: seq<string> := [];
    var collect := false;
    assert lines[0..] == lines;
    for i := 0 to |lines|
      invariant chat + Scan(lines[i..], dateStr, collect) == Scan(lines, dateStr, false)
    {
      ScanStep(lines, i, dateStr, collect);
      ghost var before, wasCollecting := chat, collect;
      var ln := Strip(lines[i]);
      if IsHeader(ln, dateStr) {
        assert Appended(ln, dateStr, wasCollecting) == [];
        assert Scan(lines[i..], dateStr, wasCollecting) == Scan(lines[i + 1..], dateStr, true);
        collect := true;
        assert chat + Scan(lines[i + 1..], dateStr, collect) == before + Scan(lines[i..], dateStr, wasCollecting);
        continue;
      }
      if collect {
        if IsHeader(ln, dateStr) {
          break;
        }
        var m := Msg1(ln);
        if m.None? {
          m := Msg2(ln);
        }
        KeptOfMatch(ln, m);
        if m.Some? {
          var txt := Strip(m.value);
          if !IsNoise(txt) {
            chat := chat + [txt];
          }
        }
        assert chat == before + Kept(ln);
      }
      assert chat == before + Appended(ln, dateStr, wasCollecting) && collect == (wasCollecting || IsHeader(ln, dateStr));
      AppendAssoc(before, Appended(ln, dateStr, wasCollecting), Scan(lines[i + 1..], dateStr, collect));
    }
    assert Scan(lines[|lines|..], dateStr, collect) == [];
    assert chat == Scan(lines, dateStr, false);
    var n := if |chat| < MaxEntries then |chat| else MaxEntries;
    out := Join(chat[|chat| - n..], "\n");
  }

  /** A log without a separator line for the day gives the empty text. */
  lemma NoHeaderNoText(text: string, dateStr: string)
    requires forall j :: 0 <= j < |SplitLines(text)| ==> !IsHeader(Strip(SplitLines(text)[j]), dateStr)
    ensures Join(Recent(Scan(SplitLines(text), dateStr, false), MaxEntries), "\n") == ""
  {
    ScanWithoutHeader(SplitLines(text), dateStr);
  }

  /**
   * The extracted text, split at "\n", gives back exactly the retained
   * entries, as no entry can hold a line break.
   */
  lemma ExtractedTextSplitsBack(text: string, dateStr: string)
    requires Recent(Scan(SplitLines(text), dateStr, false), MaxEntries) != []
    ensures Split(Join(Recent(Scan(SplitLines(text), dateStr, false), MaxEntries), "\n"), '\n')
         == Recent(Scan(SplitLines(text), dateStr, false), MaxEntries)
  {
    var lines := SplitLines(text);
    ScanHasNoLineBreak(lines, dateStr, false);
    RecentSplitsBack(Scan(lines, dateStr, false), MaxEntries);
  }

  /** The latest entries of a list of single-line messages survive joining and splitting on newlines. */
  lemma RecentSplitsBack(all: seq<string>, n: nat)
    requires Recent(all, n) != []
    requires forall e :: e in all ==> NoLineBreak(e)
    ensures Split(Join(Recent(all, n), "\n"), '\n') == Recent(all, n)
  {
    var r := Recent(all, n);
    forall k | 0 <= k < |r| ensures '\n' !in r[k] {
      assert r[k] == all[|all| - |r| + k];
      NoLineBreakHasNoNewline(r[k]);
    }
    SplitJoin(r, '\n');
  }

  lemma {:induction false} ScanHasNoLineBreak(lines: seq<string>, dateStr: string, collect: bool)
    requires forall j :: 0 <= j < |lines| ==> NoLineBreak(lines[j])
    ensures forall e :: e in Scan(lines, dateStr, collect) ==> NoLineBreak(e)
    decreases |lines|
  {
    if lines != [] {
      var ln := Strip(lines[0]);
      ScanHasNoLineBreak(lines[1..], dateStr, collect || IsHeader(ln, dateStr));
      StripKeepsNoLineBreak(lines[0]);
      ContentHasNoLineBreak(ln);
    }
  }

  lemma ContentHasNoLineBreak(ln: string)
    requires NoLineBreak(ln)
    ensures Content(ln).Some? ==> NoLineBreak(Content(ln).value)
  {
    if Content(ln).Some? {
      var g;
      if Msg1(ln).Some? {
        g := Msg1(ln).value;
      } else {
        g := Msg2(ln).value;
      }
      SuffixKeepsNoLineBreak(g, ln);
      StripKeepsNoLineBreak(g);
    }
  }
}
