/**
 * The parts of Python's `str` that the two scripts lean on, written out:
 * the whitespace set of `str.isspace` (which is also the set the regular
 * expression class `\s` matches on `str` patterns), `str.strip`,
 * `str.splitlines`, decimal rendering of an `int` in an f-string,
 * `sep.join` and its inverse `str.split`, and substring membership `sub in s`.
 */
module Text {

  /**
   * Python's `str.isspace` set: U+0009..U+000D, U+001C..U+001F, U+0020,
   * U+0085, U+00A0, U+1680, U+2000..U+200A, U+2028, U+2029, U+202F, U+205F
   * and U+3000. `re` uses the same set for `\s` on `str` patterns.
   */
  predicate IsSpace(c: char)
  {
    ('\t' <= c <= '\r') || ('\U{1C}' <= c <= '\U{1F}') || c == ' ' || c == '\U{85}' || c == '\U{A0}'
    || c == '\U{1680}' || ('\U{2000}' <= c <= '\U{200A}') || c == '\U{2028}' || c == '\U{2029}'
    || c == '\U{202F}' || c == '\U{205F}' || c == '\U{3000}'
  }

  /** The characters `str.splitlines` breaks at; the pair "\r\n" counts as a single break. */
  predicate IsLineBreak(c: char)
  {
    c == '\n' || c == '\r' || c == '\U{0B}' || c == '\U{0C}' || ('\U{1C}' <= c <= '\U{1E}')
    || c == '\U{85}' || c == '\U{2028}' || c == '\U{2029}'
  }

  /** The ASCII digits; the model's reading of the regular expression class `\d`. */
  predicate IsDigit(c: char)
  {
    '0' <= c <= '9'
  }

  predicate AllSpace(s: string)
  {
    forall i :: 0 <= i < |s| ==> IsSpace(s[i])
  }

  predicate AllDigits(s: string)
  {
    forall i :: 0 <= i < |s| ==> IsDigit(s[i])
  }

  predicate NoLineBreak(s: string)
  {
    forall i :: 0 <= i < |s| ==> !IsLineBreak(s[i])
  }

  lemma NoLineBreakHasNoNewline(s: string)
    requires NoLineBreak(s)
    ensures '\n' !in s
  {
  }

  /** `t` is what is left of `s` after dropping some characters from its front. */
  predicate IsSuffix(t: string, s: string)
  {
    |t| <= |s| && t == s[|s| - |t|..]
  }

  lemma SuffixKeepsNoLineBreak(t: string, s: string)
    requires IsSuffix(t, s) && NoLineBreak(s)
    ensures NoLineBreak(t)
  {
    forall i | 0 <= i < |t| ensures !IsLineBreak(t[i]) {
      assert t[i] == s[|s| - |t| + i];
    }
  }

  /** The first index at or after `i` that holds no whitespace, or `|s|`: where a greedy `\s*` from `i` stops. */
  function SkipSpaces(s: string, i: nat): (k: nat)
    requires i <= |s|
    ensures i <= k <= |s|
    ensures forall j :: i <= j < k ==> IsSpace(s[j])
    ensures k < |s| ==> !IsSpace(s[k])
    decreases |s| - i
  {
    if i < |s| && IsSpace(s[i]) then SkipSpaces(s, i + 1) else i
  }

  /** What a greedy `\s*` from `i` skips is all whitespace. */
  lemma AllSpaceUpTo(s: string, i: nat, k: nat)
    requires i <= |s| && k == SkipSpaces(s, i)
    ensures AllSpace(s[i..k])
  {
    forall j | 0 <= j < k - i ensures IsSpace(s[i..k][j]) {
      assert s[i..k][j] == s[i + j];
    }
  }

  /** A greedy `\s*` from `i` stops at `k` when `s[i..k]` is all whitespace and `s[k]` is not. */
  lemma SkipSpacesTo(s: string, i: nat, k: nat)
    requires i <= k <= |s| && AllSpace(s[i..k]) && (k < |s| ==> !IsSpace(s[k]))
    ensures SkipSpaces(s, i) == k
  {
    forall j | i <= j < k ensures IsSpace(s[j]) {
      assert s[j] == s[i..k][j - i];
    }
  }

  /** The end of `s[i..k]` once the whitespace at its back is dropped. */
  function DropTrailingSpaces(s: string, i: nat, k: nat): (e: nat)
    requires i <= k <= |s|
    ensures i <= e <= k
    ensures forall j :: e <= j < k ==> IsSpace(s[j])
    ensures e > i ==> !IsSpace(s[e - 1])
    decreases k
  {
    if k > i && IsSpace(s[k - 1]) then DropTrailingSpaces(s, i, k - 1) else k
  }

  /** Where `s.strip()` starts: behind the leading whitespace. */
  function StripStart(s: string): (a: nat)
    ensures a <= |s|
  {
    SkipSpaces(s, 0)
  }

  /**
   * `s.strip()`: the slice of `s` that remains once every leading and every
   * trailing whitespace character is removed.
   */
  function Strip(s: string): (r: string)
    ensures r == [] || (!IsSpace(r[0]) && !IsSpace(r[|r| - 1]))
    ensures StripStart(s) + |r| <= |s| && r == s[StripStart(s)..StripStart(s) + |r|]
    ensures forall j :: 0 <= j < StripStart(s) ==> IsSpace(s[j])
    ensures forall j :: StripStart(s) + |r| <= j < |s| ==> IsSpace(s[j])
  {
    var a := SkipSpaces(s, 0);
    var e := DropTrailingSpaces(s, a, |s|);
    assert a == e || !IsSpace(s[a]);
    s[a..e]
  }

  lemma StripKeepsNoLineBreak(s: string)
    requires NoLineBreak(s)
    ensures NoLineBreak(Strip(s))
  {
    var r, a := Strip(s), StripStart(s);
    forall i | 0 <= i < |r| ensures !IsLineBreak(r[i]) {
      assert r[i] == s[a + i];
    }
  }

  /** The index of the first line break in `s` at or after `i`, or `|s|` when there is none. */
  function BreakIndex(s: string, i: nat): (k: nat)
    requires i <= |s|
    ensures i <= k <= |s|
    ensures k < |s| ==> IsLineBreak(s[k])
    ensures NoLineBreak(s[i..k])
    decreases |s| - i
  {
    if i == |s| || IsLineBreak(s[i]) then i else BreakIndex(s, i + 1)
  }

  /** The length of the line break at `s[k]`: two for "\r\n", one otherwise. */
  function BreakLength(s: string, k: nat): nat
    requires k < |s|
  {
    if s[k] == '\r' && k + 1 < |s| && s[k + 1] == '\n' then 2 else 1
  }

  /**
   * `s.splitlines()`: the lines of `s` without their breaks; a break at the
   * very end does not open a further, empty line, and "" has no lines.
   */
  function SplitLines(s: string): (lines: seq<string>)
    ensures forall j :: 0 <= j < |lines| ==> NoLineBreak(lines[j])
    ensures lines == [] <==> s == []
    decreases |s|
  {
    if s == [] then []
    else
      var k := BreakIndex(s, 0);
      if k == |s| then [s]
      else [s[..k]] + SplitLines(s[k + BreakLength(s, k)..])
  }

  /**
   * Lines joined with "\n" split back into the same lines, provided none
   * holds a break and the last is not empty (a final "\n" opens no line).
   */
  lemma {:induction false} SplitLinesJoin(parts: seq<string>)
    requires parts != [] && parts[|parts| - 1] != []
    requires forall j :: 0 <= j < |parts| ==> NoLineBreak(parts[j])
    ensures SplitLines(Join(parts, "\n")) == parts
    decreases |parts|
  {
    var s := Join(parts, "\n");
    var p := parts[0];
    var k := BreakIndex(s, 0);
    if |parts| == 1 {
      assert k == |s|;
    } else {
      var rest := Join(parts[1..], "\n");
      assert s == p + "\n" + rest;
      assert s[|p|] == '\n' && NoLineBreak(s[..|p|]);
      assert k == |p|;
      assert s[..k] == p && s[k + 1..] == rest;
      SplitLinesJoin(parts[1..]);
      assert [p] + parts[1..] == parts;
    }
  }

  function DigitChar(n: nat): (c: char)
    requires n < 10
    ensures IsDigit(c)
  {
    (n + '0' as int) as char
  }

  function DigitValue(c: char): (n: nat)
    requires IsDigit(c)
    ensures n < 10 && DigitChar(n) == c
  {
    c as int - '0' as int
  }

  /**
   * How an f-string renders a non-negative `int`: plain decimal digits,
   * with a leading '0' only for zero itself.
   */
  function Decimal(n: nat): (r: string)
    ensures r != [] && AllDigits(r)
    ensures r[0] == '0' <==> n == 0
    ensures n == 0 ==> r == "0"
    decreases n
  {
    if n < 10 then [DigitChar(n)] else Decimal(n / 10) + [DigitChar(n % 10)]
  }

  /** The number a string of decimal digits denotes. */
  function DecimalValue(s: string): nat
    requires AllDigits(s)
    decreases |s|
  {
    if s == [] then 0 else DecimalValue(s[..|s| - 1]) * 10 + DigitValue(s[|s| - 1])
  }

  /** Reading back a rendered number gives the number: the rendering loses nothing. */
  lemma {:induction false} DecimalRoundTrip(n: nat)
    ensures DecimalValue(Decimal(n)) == n
    decreases n
  {
    var r := Decimal(n);
    if n < 10 {
      assert r[..0] == [];
    } else {
      DecimalRoundTrip(n / 10);
      assert r[..|r| - 1] == Decimal(n / 10);
    }
  }

  lemma DecimalInjective(m: nat, n: nat)
    requires Decimal(m) == Decimal(n)
    ensures m == n
  {
    DecimalRoundTrip(m);
    DecimalRoundTrip(n);
  }

  /** `f"{n:02d}"`: decimal, padded with zeros to at least two digits. */
  function Pad2(n: nat): (r: string)
    ensures |r| >= 2 && AllDigits(r)
    ensures r[0] == '0' <==> n < 10
    ensures n < 100 ==> |r| == 2
  {
    if n < 10 then "0" + Decimal(n)
    else assert n < 100 ==> |Decimal(n / 10)| == 1; Decimal(n)
  }

  /** The padding adds only a leading zero: reading the digits back gives the number. */
  lemma Pad2RoundTrip(n: nat)
    ensures DecimalValue(Pad2(n)) == n
  {
    DecimalRoundTrip(n);
    if n < 10 {
      var r := Pad2(n);
      assert r == ['0', DigitChar(n)];
      assert r[..1] == "0" && r[..1][..0] == [];
    }
  }

  lemma Pad2Injective(m: nat, n: nat)
    requires Pad2(m) == Pad2(n)
    ensures m == n
  {
    Pad2RoundTrip(m);
    Pad2RoundTrip(n);
  }

  /** Concatenation regroups freely; called where the solver would otherwise search for the regrouping. */
  lemma AppendAssoc<T>(a: seq<T>, b: seq<T>, c: seq<T>)
    ensures a + b + c == a + (b + c)
  {
  }

  /** A piece appended to a prefix of `whole` can be read back from `whole` at that place. */
  lemma PieceOf(pre: string, piece: string, whole: string)
    requires pre + piece <= whole
    ensures whole[|pre|..|pre| + |piece|] == piece
  {
    assert whole[|pre|..|pre| + |piece|] == (pre + piece)[|pre|..];
  }

  /** `sep.join(parts)`. */
  function Join(parts: seq<string>, sep: string): (r: string)
    ensures parts != [] ==> parts[0] <= r
    ensures parts == [] ==> r == []
    decreases |parts|
  {
    if parts == [] then []
    else if |parts| == 1 then parts[0]
    else parts[0] + sep + Join(parts[1..], sep)
  }

  /** `s.split(c)` for a one-character separator: never empty, "" gives [""]. */
  function Split(s: string, c: char): (r: seq<string>)
    ensures r != []
    decreases |s|
  {
    if s == [] then [[]]
    else
      var rest := Split(s[1..], c);
      if s[0] == c then [[]] + rest else [[s[0]] + rest[0]] + rest[1..]
  }

  lemma {:induction false} SplitWithoutSeparator(u: string, c: char)
    requires c !in u
    ensures Split(u, c) == [u]
    decreases |u|
  {
    if u != [] {
      SplitWithoutSeparator(u[1..], c);
      assert [u[0]] + u[1..] == u;
    }
  }

  lemma {:induction false} SplitAtSeparator(u: string, w: string, c: char)
    requires c !in u
    ensures Split(u + [c] + w, c) == [u] + Split(w, c)
    decreases |u|
  {
    if u == [] {
      assert u + [c] + w == [c] + w;
      assert ([c] + w)[1..] == w;
    } else {
      SplitAtSeparator(u[1..], w, c);
      assert (u + [c] + w)[1..] == u[1..] + [c] + w;
      assert [u[0]] + u[1..] == u;
    }
  }

  /**
   * Joining with a one-character separator that no part contains and
   * splitting again at it gives the parts back.
   */
  lemma {:induction false} SplitJoin(parts: seq<string>, c: char)
    requires parts != []
    requires forall j :: 0 <= j < |parts| ==> c !in parts[j]
    ensures Split(Join(parts, [c]), c) == parts
    decreases |parts|
  {
    if |parts| == 1 {
      SplitWithoutSeparator(parts[0], c);
    } else {
      SplitJoin(parts[1..], c);
      SplitAtSeparator(parts[0], Join(parts[1..], [c]), c);
      assert [parts[0]] + parts[1..] == parts;
    }
  }

  /** `sub in s`: `sub` occurs somewhere in `s`. */
  predicate Contains(s: string, sub: string)
    ensures sub <= s ==> Contains(s, sub)
    ensures Contains(s, sub) ==> |sub| <= |s|
    decreases |s|
  {
    sub <= s || (s != [] && Contains(s[1..], sub))
  }

  lemma {:induction false} ContainsAt(s: string, sub: string)
    ensures Contains(s, sub) <==> exists i :: 0 <= i <= |s| && sub <= s[i..]
    decreases |s|
  {
    assert s[0..] == s;
    if s != [] {
      ContainsAt(s[1..], sub);
      if Contains(s[1..], sub) {
        var i :| 0 <= i <= |s[1..]| && sub <= s[1..][i..];
        assert s[1..][i..] == s[i + 1..];
      }
      if i :| 0 <= i <= |s| && sub <= s[i..] {
        if i > 0 {
          assert s[1..][i - 1..] == s[i..];
        }
      }
    }
  }
}
