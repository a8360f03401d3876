/** The optional-value wrapper shared by every module of the model. */
module Maybe {

  datatype Option<+T> = None | Some(value: T) {

    /** The wrapped value, or `default` when there is none. */
    function GetOr(default: T): T {
      match this
      case Some(v) => v
      case None => default
    }
  }
}

/**
 * The pieces of JavaScript's string library the core relies on: `\d`, the
 * whitespace class used by `trim` and `\s`, case mapping, `split`/`join`,
 * decimal integer text and `parseInt(_, 10)`.
 */
module Text {
  import opened Maybe

  /** `\d` in a JavaScript regular expression: ASCII digits only. */
  predicate IsDigit(c: char) {
    '0' <= c <= '9'
  }

  predicate AllDigits(s: string) {
    forall i :: 0 <= i < |s| ==> IsDigit(s[i])
  }

  /**
   * ECMAScript WhiteSpace and LineTerminator code points: the set that
   * `String.prototype.trim`, `parseInt` and the regular-expression class `\s`
   * all use.
   */
  predicate IsSpace(c: char) {
    || c == '\t' || c == '\n' || c == '\U{000B}' || c == '\U{000C}' || c == '\r'
    || c == ' ' || c == '\U{00A0}' || c == '\U{1680}'
    || ('\U{2000}' <= c <= '\U{200A}')
    || c == '\U{2028}' || c == '\U{2029}' || c == '\U{202F}' || c == '\U{205F}'
    || c == '\U{3000}' || c == '\U{FEFF}'
  }

  predicate AllSpace(s: string) {
    forall i :: 0 <= i < |s| ==> IsSpace(s[i])
  }

  /** The first position at or after `i` that does not hold whitespace, or `|s|`. */
  function SkipSpaces(s: string, i: nat): (j: nat)
    requires i <= |s|
    ensures i <= j <= |s|
    ensures forall k :: i <= k < j ==> IsSpace(s[k])
    ensures j < |s| ==> !IsSpace(s[j])
    decreases |s| - i
  {
    if i == |s| || !IsSpace(s[i]) then i else SkipSpaces(s, i + 1)
  }

  /** The position after the last non-whitespace character of `s[lo..j]`, or `lo`. */
  function SkipSpacesBack(s: string, lo: nat, j: nat): (k: nat)
    requires lo <= j <= |s|
    ensures lo <= k <= j
    ensures forall m :: k <= m < j ==> IsSpace(s[m])
    ensures k > lo ==> !IsSpace(s[k - 1])
    decreases j
  {
    if j == lo || !IsSpace(s[j - 1]) then j else SkipSpacesBack(s, lo, j - 1)
  }

  /** `s` without its leading whitespace. */
  function TrimStart(s: string): string {
    s[SkipSpaces(s, 0)..]
  }

  /** `s` without its leading and trailing whitespace. */
  function Trim(s: string): string {
    var a := SkipSpaces(s, 0);
    s[a..SkipSpacesBack(s, a, |s|)]
  }

  /**
   * Trimming cuts only whitespace off either side of `s`, and what is left
   * neither starts nor ends with whitespace; it is empty iff `s` is blank.
   */
  lemma TrimIsSlice(s: string)
    ensures var r := Trim(s);
      && (exists a, b :: 0 <= a <= b <= |s| && r == s[a..b] && AllSpace(s[..a]) && AllSpace(s[b..]))
      && (|r| > 0 ==> !IsSpace(r[0]) && !IsSpace(r[|r| - 1]))
      && (r == [] <==> AllSpace(s))
  {
    var a := SkipSpaces(s, 0);
    var b := SkipSpacesBack(s, a, |s|);
    SpacesBetween(s, 0, a);
    SpacesBetween(s, b, |s|);
    TrimEnds(s, a, b);
    if a == b {
      assert s[..a] == s;
    }
  }

  /** Whitespace at every index of `s[i..j]` makes that slice blank. */
  lemma SpacesBetween(s: string, i: nat, j: nat)
    requires i <= j <= |s|
    requires forall k :: i <= k < j ==> IsSpace(s[k])
    ensures AllSpace(s[i..j])
    ensures i == 0 ==> AllSpace(s[..j])
    ensures j == |s| ==> AllSpace(s[i..])
  {
    assert forall k :: 0 <= k < j - i ==> s[i..j][k] == s[i + k];
    assert s[..j] == s[0..j];
    assert s[i..] == s[i..|s|];
  }

  lemma TrimEnds(s: string, a: nat, b: nat)
    requires a == SkipSpaces(s, 0) && b == SkipSpacesBack(s, a, |s|)
    ensures a < b ==> !IsSpace(s[a..b][0]) && !IsSpace(s[a..b][b - a - 1])
    ensures a == b ==> a == |s|
  {
    if a < |s| {
      NotBlankAt(s, a);
      assert s[a..b][0] == s[a];
      assert s[a..b][b - a - 1] == s[b - 1];
    }
  }

  /** Scanning back from the end stops at the latest non-whitespace position after `lo`. */
  lemma NotBlankAt(s: string, lo: nat)
    requires lo < |s| && !IsSpace(s[lo])
    ensures SkipSpacesBack(s, lo, |s|) > lo
  {

  }

  /** The JavaScript lower-case mapping, restricted to the characters whose
      lower-case form is an ASCII letter. */
  function LowerChar(c: char): char {
    if 'A' <= c <= 'Z' then (c as int + 32) as char
    else if c == '\U{212A}' then 'k'   // KELVIN SIGN
    else c
  }

  /** The JavaScript upper-case mapping, restricted to the characters whose
      single-character upper-case form is an ASCII letter. */
  function UpperChar(c: char): char {
    if 'a' <= c <= 'z' then (c as int - 32) as char
    else if c == '\U{0131}' then 'I'   // LATIN SMALL LETTER DOTLESS I
    else if c == '\U{017F}' then 'S'   // LATIN SMALL LETTER LONG S
    else c
  }

  /** `s` in lower case, character by character. */
  function Lower(s: string): (r: string)
    ensures |r| == |s|
    ensures forall i :: 0 <= i < |s| ==> r[i] == LowerChar(s[i])
  {
    if s == [] then [] else [LowerChar(s[0])] + Lower(s[1..])
  }

  /** `s` in upper case, character by character. */
  function Upper(s: string): (r: string)
    ensures |r| == |s|
    ensures forall i :: 0 <= i < |s| ==> r[i] == UpperChar(s[i])
  {
    if s == [] then [] else [UpperChar(s[0])] + Upper(s[1..])
  }

  /** Upper-casing twice is upper-casing once. */
  lemma UpperIdempotent(s: string)
    ensures Upper(Upper(s)) == Upper(s)
  {
    assert forall i | 0 <= i < |s| :: UpperChar(UpperChar(s[i])) == UpperChar(s[i]);
  }

  /** Lower-casing twice is lower-casing once. */
  lemma LowerIdempotent(s: string)
    ensures Lower(Lower(s)) == Lower(s)
  {
    assert forall i | 0 <= i < |s| :: LowerChar(LowerChar(s[i])) == LowerChar(s[i]);
  }

  /** Position of the first `c` in `s`, if any. */
  function IndexOf(s: string, c: char): (r: Option<nat>)
    ensures r.None? <==> c !in s
    ensures r.Some? ==> r.value < |s| && s[r.value] == c && c !in s[..r.value]
  {
    if s == [] then None
    else if s[0] == c then Some(0)
    else
      match IndexOf(s[1..], c)
      case None => None
      case Some(k) =>
        assert s[..k + 1] == [s[0]] + s[1..][..k];
        Some(k + 1)
  }

  /** `s.split(sep)` for a one-character separator. */
  function Split(s: string, sep: char): (parts: seq<string>)
    ensures |parts| >= 1
    ensures forall i :: 0 <= i < |parts| ==> sep !in parts[i]
    decreases |s|
  {
    match IndexOf(s, sep)
    case None => [s]
    case Some(k) => [s[..k]] + Split(s[k + 1..], sep)
  }

  /** The parts with `sep` between each two of them. */
  function Join(parts: seq<string>, sep: char): string {
    if |parts| == 0 then []
    else if |parts| == 1 then parts[0]
    else parts[0] + [sep] + Join(parts[1..], sep)
  }

  /** Splitting and joining on the same separator gives back the text. */
  lemma {:induction false} JoinSplit(s: string, sep: char)
    ensures Join(Split(s, sep), sep) == s
    decreases |s|
  {
    match IndexOf(s, sep)
    case None =>
    case Some(k) =>
      var rest := s[k + 1..];
      var tail := Split(rest, sep);
      JoinSplit(rest, sep);
      assert Split(s, sep) == [s[..k]] + tail;
      assert ([s[..k]] + tail)[1..] == tail;
      assert Join([s[..k]] + tail, sep) == s[..k] + [sep] + Join(tail, sep);
      assert s == s[..k] + [sep] + rest;
  }

  /** Joining separator-free parts and splitting again gives back the parts. */
  lemma {:induction false} SplitJoin(parts: seq<string>, sep: char)
    requires |parts| >= 1
    requires forall i :: 0 <= i < |parts| ==> sep !in parts[i]
    ensures Split(Join(parts, sep), sep) == parts
    decreases |parts|
  {
    if |parts| > 1 {
      var tail := Join(parts[1..], sep);
      SplitAtFirst(parts[0], sep, tail);
      SplitJoin(parts[1..], sep);
      assert parts == [parts[0]] + parts[1..];
    }
  }

  /** A separator-free head, the separator, then anything: the first piece is the head. */
  lemma SplitAtFirst(a: string, sep: char, t: string)
    requires sep !in a
    ensures Split(a + [sep] + t, sep) == [a] + Split(t, sep)
  {
    var s := a + [sep] + t;
    assert s[..|a|] == a;
    assert s[|a|] == sep;
    assert s[|a| + 1..] == t;
    assert IndexOf(s, sep) == Some(|a|);
  }

  /** The value of a digit character. */
  function DigitValue(c: char): (d: nat)
    requires IsDigit(c)
    ensures d < 10
  {
    c as int - '0' as int
  }

  function DigitChar(d: nat): (c: char)
    requires d < 10
    ensures IsDigit(c) && DigitValue(c) == d
  {
    ('0' as int + d) as char
  }

  /** The value of a run of decimal digits, most significant first. */
  function DigitsValue(s: string): nat
    requires AllDigits(s)
  {
    if s == [] then 0 else DigitsValue(s[..|s| - 1]) * 10 + DigitValue(s[|s| - 1])
  }

  /** Decimal text of a natural number, without leading zeros. */
  function NatText(n: nat): (r: string)
    ensures |r| >= 1 && AllDigits(r)
    ensures DigitsValue(r) == n
    ensures r[0] == '0' ==> n == 0
  {
    if n < 10 then [DigitChar(n)]
    else
      var h := NatText(n / 10);
      var r := h + [DigitChar(n % 10)];
      assert r[..|r| - 1] == h;
      r
  }

  /** `String(n)` for an integer `n`. */
  function IntText(n: int): (r: string)
    ensures |r| >= 1
  {
    if n < 0 then "-" + NatText(-n) else NatText(n)
  }

  /** Number of leading digits of `s`. */
  function DigitPrefix(s: string): (n: nat)
    ensures n <= |s| && AllDigits(s[..n])
    ensures n < |s| ==> !IsDigit(s[n])
  {
    if s == [] || !IsDigit(s[0]) then 0
    else
      var k := DigitPrefix(s[1..]);
      assert s[..k + 1] == [s[0]] + s[1..][..k];
      k + 1
  }

  /** The digit run at the front of `a + t` stops inside `a` unless `a` is all digits. */
  lemma {:induction false} DigitPrefixAppend(a: string, t: string)
    ensures DigitPrefix(a + t) == if DigitPrefix(a) < |a| then DigitPrefix(a) else |a| + DigitPrefix(t)
    decreases |a|
  {
    if a == [] {
      assert a + t == t;
    } else if IsDigit(a[0]) {
      assert (a + t)[1..] == a[1..] + t;
      DigitPrefixAppend(a[1..], t);
    }
  }

  /**
   * `parseInt(s, 10)`: leading whitespace is skipped, one optional sign is
   * read, then the longest run of decimal digits; no digit gives NaN, here
   * `None`.
   */
  function ParseInt(s: string): (r: Option<int>)
    ensures r.None? <==> DigitPrefix(SignStripped(TrimStart(s))) == 0
  {
    var t := TrimStart(s);
    var negative := |t| > 0 && t[0] == '-';
    var u := SignStripped(t);
    var n := DigitPrefix(u);
    if n == 0 then None
    else
      var v: int := DigitsValue(u[..n]);
      Some(if negative then -v else v)
  }

  /** `t` with one leading `+` or `-` removed. */
  function SignStripped(t: string): string {
    if |t| > 0 && (t[0] == '-' || t[0] == '+') then t[1..] else t
  }

  /** Digits of `NatText(n)` followed by a non-digit tail read back as `n`. */
  lemma NatTextPrefix(n: nat, tail: string)
    requires tail == [] || !IsDigit(tail[0])
    ensures DigitPrefix(NatText(n) + tail) == |NatText(n)|
  {
    var r := NatText(n);
    DigitPrefixOfDigits(r, tail);
  }

  lemma {:induction false} DigitPrefixOfDigits(r: string, tail: string)
    requires AllDigits(r)
    requires tail == [] || !IsDigit(tail[0])
    ensures DigitPrefix(r + tail) == |r|
    decreases |r|
  {
    if r != [] {
      assert (r + tail)[1..] == r[1..] + tail;
      DigitPrefixOfDigits(r[1..], tail);
    } else {
      assert r + tail == tail;
    }
  }

  /** `parseInt` reads back the decimal text of every integer. */
  lemma ParseIntText(n: int)
    ensures ParseInt(IntText(n)) == Some(n)
  {
    var s := IntText(n);
    var m: nat := if n < 0 then -n else n;
    var digits := NatText(m);
    assert !IsSpace(s[0]);
    assert TrimStart(s) == s;
    assert SignStripped(s) == digits;
    NatTextPrefix(m, []);
    assert digits + [] == digits;
    assert digits[..|digits|] == digits;
  }

  /** Every character of `s` that satisfies `keep`, in order. */
  function Filter(s: string, keep: char -> bool): (r: string)
    ensures |r| <= |s|
    ensures forall i :: 0 <= i < |r| ==> keep(r[i])
  {
    if s == [] then []
    else if keep(s[0]) then [s[0]] + Filter(s[1..], keep)
    else Filter(s[1..], keep)
  }

  /** Filtering keeps exactly the characters of `s` that pass. */
  lemma {:induction false} FilterMembers(s: string, keep: char -> bool)
    ensures forall c :: c in Filter(s, keep) <==> c in s && keep(c)
  {
    if s != [] {
      FilterMembers(s[1..], keep);
      assert forall c :: c in s <==> c == s[0] || c in s[1..];
    }
  }

  lemma {:induction false} FilterAppend(a: string, b: string, keep: char -> bool)
    ensures Filter(a + b, keep) == Filter(a, keep) + Filter(b, keep)
  {
    if a == [] {
      assert a + b == b;
    } else {
      assert (a + b)[1..] == a[1..] + b;
      FilterAppend(a[1..], b, keep);
    }
  }

  /** Filtering keeps a text whose every character passes. */
  lemma {:induction false} FilterAll(s: string, keep: char -> bool)
    requires forall i :: 0 <= i < |s| ==> keep(s[i])
    ensures Filter(s, keep) == s
  {
    if s != [] {
      FilterAll(s[1..], keep);
      assert [s[0]] + s[1..] == s;
    }
  }

  /** Two tests that agree on every character of `s` keep the same text. */
  lemma {:induction false} FilterSame(s: string, p: char -> bool, q: char -> bool)
    requires forall i :: 0 <= i < |s| ==> p(s[i]) == q(s[i])
    ensures Filter(s, p) == Filter(s, q)
  {
    if s != [] {
      FilterSame(s[1..], p, q);
    }
  }

  /** Filtering empties a text none of whose characters passes. */
  lemma {:induction false} FilterNone(s: string, keep: char -> bool)
    requires forall i :: 0 <= i < |s| ==> !keep(s[i])
    ensures Filter(s, keep) == []
  {
    if s != [] {
      FilterNone(s[1..], keep);
    }
  }

  /** A text that neither starts nor ends with whitespace is its own trim. */
  lemma TrimUnpadded(s: string)
    requires s != [] ==> !IsSpace(s[0]) && !IsSpace(s[|s| - 1])
    ensures Trim(s) == s
  {
    assert SkipSpaces(s, 0) == 0;
    if s != [] {
      assert SkipSpacesBack(s, 0, |s|) == |s|;
    }
    assert s[0..|s|] == s;
  }

  /** Trimming twice is trimming once. */
  lemma TrimTwice(s: string)
    ensures Trim(Trim(s)) == Trim(s)
  {
    TrimIsSlice(s);
    TrimUnpadded(Trim(s));
  }

  /** `s.replace(c, d)` with a string pattern: only the first `c` changes. */
  function ReplaceFirst(s: string, c: char, d: char): (r: string)
    ensures |r| == |s|
    ensures forall i :: 0 <= i < |s| && r[i] != s[i] ==> s[i] == c && r[i] == d && c !in s[..i]
    ensures c in s ==> d in r
    ensures c !in s ==> r == s
  {
    match IndexOf(s, c)
    case None => s
    case Some(k) =>
      var r := s[..k] + [d] + s[k + 1..];
      assert r[k] == d;
      assert forall i :: 0 <= i < |s| && i != k ==> r[i] == s[i];
      r
  }

  /** Where the replacement lands: at the first occurrence, everything else in place. */
  lemma ReplaceFirstAt(s: string, c: char, d: char, k: nat)
    requires IndexOf(s, c) == Some(k)
    ensures ReplaceFirst(s, c, d) == s[..k] + [d] + s[k + 1..]
  {
  }

  predicate NotSpace(c: char) {
    !IsSpace(c)
  }

  /** Removing every match of `\s+` (`s.replace(/\s+/g, "")`). */
  function RemoveSpaces(s: string): (r: string)
    ensures forall i :: 0 <= i < |r| ==> !IsSpace(r[i])
    ensures forall c :: c in s && !IsSpace(c) ==> c in r
  {
    FilterMembers(s, NotSpace);
    Filter(s, NotSpace)
  }

  /** `p` is a prefix of `s`. */
  predicate StartsWith(s: string, p: string) {
    |p| <= |s| && s[..|p|] == p
  }

  /** `s.slice(-2)`: the last two characters, or all of a shorter string. */
  function LastTwo(s: string): (r: string)
    ensures |r| == if |s| < 2 then |s| else 2
    ensures s == s[..|s| - |r|] + r
  {
    if |s| < 2 then s else s[|s| - 2..]
  }
}
