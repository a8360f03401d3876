/**
 * Reading an amount the way the order-initiation route does
 * (`toNumberFlexible`): numbers pass, strings are cleaned down to digits,
 * `,`, `.` and `-` and then read by `parseFloat`; anything else is NaN,
 * here `None`.
 */
module Amount {
  import opened Maybe
  import opened Text
  import opened Js

  /** Characters the cleanup keeps: `[\d,.\-]`. */
  predicate IsAmountChar(c: char) {
    IsDigit(c) || c == ',' || c == '.' || c == '-'
  }

  predicate IsMark(c: char) {
    c == ',' || c == '.'
  }

  predicate NotDot(c: char) {
    c != '.'
  }

  predicate NotComma(c: char) {
    c != ','
  }

  predicate NotMark(c: char) {
    !IsMark(c)
  }

  predicate NoMarks(s: string) {
    forall i :: 0 <= i < |s| ==> !IsMark(s[i])
  }

  /**
   * The cleanup before reading: trim, then keep only digits, `,`, `.` and
   * `-`. Trimming never changes the outcome, since whitespace is not kept.
   */
  function CleanAmountText(s: string): (r: string)
    ensures r == Filter(s, IsAmountChar)
    ensures forall i :: 0 <= i < |r| ==> IsAmountChar(r[i])
    ensures forall c :: c in s && IsAmountChar(c) ==> c in r
    ensures forall c :: c in r ==> c in s
  {
    CleanIgnoresPadding(s);
    FilterMembers(s, IsAmountChar);
    Filter(Trim(s), IsAmountChar)
  }

  /** Whitespace around the text carries no amount character. */
  lemma CleanIgnoresPadding(s: string)
    ensures Filter(Trim(s), IsAmountChar) == Filter(s, IsAmountChar)
  {
    TrimIsSlice(s);
    var a, b :| 0 <= a <= b <= |s| && Trim(s) == s[a..b] && AllSpace(s[..a]) && AllSpace(s[b..]);
    PaddedFilter(s, a, b);
  }

  lemma PaddedFilter(s: string, a: nat, b: nat)
    requires a <= b <= |s| && AllSpace(s[..a]) && AllSpace(s[b..])
    ensures Filter(s[a..b], IsAmountChar) == Filter(s, IsAmountChar)
  {
    SliceThree(s, a, b);
    PaddedJoin(s[..a], s[a..b], s[b..]);
  }

  lemma SliceThree(s: string, a: nat, b: nat)
    requires a <= b <= |s|
    ensures s == s[..a] + s[a..b] + s[b..]
  {
  }

  lemma PaddedJoin(x: string, y: string, z: string)
    requires AllSpace(x) && AllSpace(z)
    ensures Filter(x + y + z, IsAmountChar) == Filter(y, IsAmountChar)
  {
    FilterAppend(x + y, z, IsAmountChar);
    FilterAppend(x, y, IsAmountChar);
    SpacesDropped(x);
    SpacesDropped(z);
  }

  lemma SpacesDropped(w: string)
    requires AllSpace(w)
    ensures Filter(w, IsAmountChar) == []
  {
    FilterNone(w, IsAmountChar);
  }

  /** Cleaning two texts one after the other is cleaning their concatenation. */
  lemma CleanAppend(a: string, b: string)
    ensures CleanAmountText(a + b) == CleanAmountText(a) + CleanAmountText(b)
  {
    FilterAppend(a, b, IsAmountChar);
  }

  /**
   * The decimal-mark step as written: a text without `.` has its first `,`
   * turned into `.`; no other character changes, and a text that already
   * holds a `.` is kept whole.
   */
  function CommaAsDecimal(t: string): (r: string)
    ensures |r| == |t|
    ensures forall i :: 0 <= i < |t| && r[i] != t[i] ==> t[i] == ',' && r[i] == '.' && ',' !in t[..i]
    ensures '.' in t ==> r == t
    ensures ',' in t ==> '.' in r
  {
    if ',' in t && '.' !in t then ReplaceFirst(t, ',', '.') else t
  }

  /**
   * The decimal-mark step corrected for thousands separators: when both
   * marks occur, the one written last is the decimal mark and every
   * occurrence of the other is dropped; otherwise as written.
   */
  function DecimalMarks(t: string): (r: string)
    ensures !(',' in t && '.' in t) ==> r == CommaAsDecimal(t)
    ensures ',' in t && '.' in t ==> '.' in r
  {
    if ',' in t && '.' in t then
      var marks := Filter(t, IsMark);
      FilterMembers(t, IsMark);
      assert ',' in marks;
      if marks[|marks| - 1] == ',' then
        var u := Filter(t, NotDot);
        FilterMembers(t, NotDot);
        assert ',' in u;
        ReplaceFirst(u, ',', '.')
      else
        FilterMembers(t, NotComma);
        Filter(t, NotComma)
    else CommaAsDecimal(t)
  }

  /**
   * `parseFloat(t)` on a cleaned text: an optional sign, integer digits,
   * then optionally `.` and fraction digits; reading stops at the first
   * character that does not fit, and no digit at all gives NaN.
   */
  function ParseDecimalPrefix(t: string): (r: Option<Decimal>)
    ensures r.None? <==> DigitPrefix(SignStripped(t)) == 0 && |FractionDigits(SignStripped(t))| == 0
  {
    var negative := |t| > 0 && t[0] == '-';
    var u := SignStripped(t);
    var i := DigitPrefix(u);
    var frac := FractionDigits(u);
    if i == 0 && frac == [] then None
    else
      var m: int := DigitsValue(u[..i] + frac);
      Some(Decimal(if negative then -m else m, |frac|))
  }

  /** The digits after a `.` that directly follows the integer digits of `u`. */
  function FractionDigits(u: string): (f: string)
    ensures AllDigits(f)
  {
    var rest := u[DigitPrefix(u)..];
    if |rest| > 0 && rest[0] == '.' then rest[1..][..DigitPrefix(rest[1..])] else []
  }

  /** `toNumberFlexible`, with the decimal-mark step chosen by `asWritten`. */
  function ToNumberFlex(v: Json, asWritten: bool): (r: Option<Decimal>)
    ensures v.Num? ==> r == Some(v.n)
    ensures !v.Num? && !v.Str? ==> r.None?
    ensures v.Str? && AllSpace(v.s) ==> r.None?
  {
    match v
    case Num(d) => Some(d)
    case Str(s) =>
      TrimIsSlice(s);
      if Trim(s) == [] then None
      else
        var t := CleanAmountText(s);
        ParseDecimalPrefix(if asWritten then CommaAsDecimal(t) else DecimalMarks(t))
    case _ => None
  }

  /** `toNumberFlexible` corrected for thousands separators. */
  function ToNumberFlexible(v: Json): (r: Option<Decimal>)
    ensures v.Num? ==> r == Some(v.n)
    ensures !v.Num? && !v.Str? ==> r.None?
    ensures v.Str? && AllSpace(v.s) ==> r.None?
  {
    ToNumberFlex(v, false)
  }

  /** `toNumberFlexible` as the source writes it. */
  function ToNumberFlexibleAsWritten(v: Json): (r: Option<Decimal>)
    ensures v.Num? ==> r == Some(v.n)
    ensures !v.Num? && !v.Str? ==> r.None?
    ensures v.Str? && AllSpace(v.s) ==> r.None?
  {
    ToNumberFlex(v, true)
  }

  /** The two readings differ only on text that holds both a `,` and a `.` after cleanup. */
  lemma AsWrittenAgreesWithOneMark(v: Json)
    requires v.Str? ==> !(',' in CleanAmountText(v.s) && '.' in CleanAmountText(v.s))
    ensures ToNumberFlexibleAsWritten(v) == ToNumberFlexible(v)
  {
  }

  // ---------------------------------------------------------------------
  // Reading numbers back

  /** The integer digits and the fraction digits of `w.f` followed by a non-digit. */
  lemma DecimalParts(w: string, f: string, tail: string)
    requires AllDigits(w) && AllDigits(f)
    requires tail == [] || !IsDigit(tail[0])
    ensures DigitPrefix(w + "." + f + tail) == |w|
    ensures FractionDigits(w + "." + f + tail) == f
  {
    IntegerPart(w, f, tail);
    var t := w + "." + f + tail;
    var rest := t[|w|..];
    DotSplit(w, f, tail);
    assert rest[1..] == f + tail;
    DigitPrefixOfDigits(f, tail);
    assert (f + tail)[..|f|] == f;
  }

  lemma IntegerPart(w: string, f: string, tail: string)
    requires AllDigits(w)
    ensures DigitPrefix(w + "." + f + tail) == |w|
  {
    DotSplit(w, f, tail);
    DigitPrefixOfDigits(w, "." + f + tail);
  }

  /** Where the pieces of `w.f` followed by `tail` sit. */
  lemma DotSplit(w: string, f: string, tail: string)
    ensures w + "." + f + tail == w + ("." + f + tail)
    ensures (w + "." + f + tail)[|w|..] == "." + f + tail
    ensures (w + "." + f + tail)[|w| + 1..] == f + tail
  {
  }

  /** Integer digits, a `.`, fraction digits and then a non-digit read as the exact decimal they spell. */
  lemma ReadDecimal(w: string, f: string, tail: string)
    requires AllDigits(w) && AllDigits(f) && |w| > 0
    requires tail == [] || !IsDigit(tail[0])
    ensures ParseDecimalPrefix(w + "." + f + tail) == Some(Decimal(DigitsValue(w + f), |f|))
  {
    var t := w + "." + f + tail;
    DecimalParts(w, f, tail);
    DotSplit(w, f, tail);
    assert t[0] == w[0];
    assert SignStripped(t) == t;
    assert t[..|w|] == w;
  }

  /** Integer digits followed by a character other than a digit or `.` read as that integer. */
  lemma ReadInteger(w: string, tail: string)
    requires AllDigits(w) && |w| > 0
    requires tail == [] || (!IsDigit(tail[0]) && tail[0] != '.')
    ensures ParseDecimalPrefix(w + tail) == Some(Decimal(DigitsValue(w), 0))
  {
    var t := w + tail;
    DigitPrefixOfDigits(w, tail);
    assert t[0] == w[0];
    assert SignStripped(t) == t;
    assert t[..|w|] == w;
    assert t[|w|..] == tail;
    assert FractionDigits(t) == [];
    assert w + [] == w;
  }

  // ---------------------------------------------------------------------
  // The formats the route documents

  predicate AllAmountChars(s: string) {
    forall i :: 0 <= i < |s| ==> IsAmountChar(s[i])
  }

  lemma AmountCharsAppend(a: string, b: string)
    requires AllAmountChars(a) && AllAmountChars(b)
    ensures AllAmountChars(a + b)
  {
    forall i | 0 <= i < |a + b| ensures IsAmountChar((a + b)[i]) {
      if i < |a| { assert (a + b)[i] == a[i]; } else { assert (a + b)[i] == b[i - |a|]; }
    }
  }

  lemma DigitsAreAmountChars(s: string)
    requires AllDigits(s)
    ensures AllAmountChars(s)
  {
  }

  /** A text of amount characters that starts with a digit survives the cleanup whole. */
  lemma CleanKeeps(s: string)
    requires s != [] && IsDigit(s[0])
    requires AllAmountChars(s)
    ensures CleanAmountText(s) == s
    ensures Trim(s) != []
  {
    assert !IsSpace(s[|s| - 1]) by { assert IsAmountChar(s[|s| - 1]); }
    TrimUnpadded(s);
    FilterAll(s, IsAmountChar);
  }

  /** Digit groups joined by marks are amount text that the cleanup keeps. */
  lemma CleanGroups(w: string, m: string, g: string)
    requires AllDigits(w) && AllDigits(g) && |w| > 0
    requires m == "." || m == ","
    ensures CleanAmountText(w + m + g) == w + m + g
    ensures Trim(w + m + g) != []
    ensures AllAmountChars(w + m + g)
  {
    DigitsAreAmountChars(w);
    DigitsAreAmountChars(g);
    MarkIsAmountText(m);
    AmountCharsAppend(w, m);
    AmountCharsAppend(w + m, g);
    assert (w + m + g)[0] == w[0];
    CleanKeeps(w + m + g);
  }

  lemma CleanGroups3(w: string, m: string, g: string, n: string, f: string)
    requires AllDigits(w) && AllDigits(g) && AllDigits(f) && |w| > 0
    requires m == "." || m == ","
    requires n == "." || n == ","
    ensures CleanAmountText(w + m + g + n + f) == w + m + g + n + f
    ensures Trim(w + m + g + n + f) != []
  {
    CleanGroups(w, m, g);
    DigitsAreAmountChars(f);
    MarkIsAmountText(n);
    AmountCharsAppend(w + m + g, n);
    AmountCharsAppend(w + m + g + n, f);
    assert (w + m + g + n + f)[0] == w[0];
    CleanKeeps(w + m + g + n + f);
  }

  lemma MarkIsAmountText(m: string)
    requires m == "." || m == ","
    ensures AllAmountChars(m)
  {
    assert |m| == 1 && IsAmountChar(m[0]);
  }

  lemma Regroup(a: string, b: string, c: string)
    ensures a + b + c == a + (b + c)
  {
  }

  /** The first `,` of `a,b` (with `a` all digits) becomes `.`. */
  lemma ReplaceComma(a: string, b: string)
    requires AllDigits(a)
    ensures ReplaceFirst(a + "," + b, ',', '.') == a + "." + b
  {
    IndexOfComma(a, b);
    ReplaceFirstAt(a + "," + b, ',', '.', |a|);
    var s := a + "," + b;
    assert s[..|a|] == a;
    assert s[|a| + 1..] == b;
  }

  lemma IndexOfComma(a: string, b: string)
    requires AllDigits(a)
    ensures IndexOf(a + "," + b, ',') == Some(|a|)
  {
    var s := a + "," + b;
    assert s[|a|] == ',';
    assert s[..|a|] == a;
  }

  lemma DigitsAppend(a: string, b: string)
    requires AllDigits(a) && AllDigits(b)
    ensures AllDigits(a + b)
  {
  }

  lemma NoTail(s: string)
    ensures s + [] == s
  {
  }

  /** `w.g,f` after the corrected decimal-mark step. */
  lemma DottedMarksStep(w: string, g: string, f: string)
    requires AllDigits(w) && AllDigits(g) && AllDigits(f)
    ensures DecimalMarks(w + "." + g + "," + f) == w + g + "." + f
  {
    var s := w + "." + g + "," + f;
    assert s[|w|] == '.' && s[|w| + 1 + |g|] == ',';
    DottedMarks(w, g, f);
    DottedDropped(w, g, f);
    DigitsAppend(w, g);
    ReplaceComma(w + g, f);
  }

  /** `w,g.f` after the corrected decimal-mark step. */
  lemma CommaMarksStep(w: string, g: string, f: string)
    requires AllDigits(w) && AllDigits(g) && AllDigits(f)
    ensures DecimalMarks(w + "," + g + "." + f) == w + g + "." + f
  {
    var s := w + "," + g + "." + f;
    assert s[|w|] == ',' && s[|w| + 1 + |g|] == '.';
    CommaMarks(w, g, f);
    CommaDropped(w, g, f);
  }

  lemma DottedMarks(w: string, g: string, f: string)
    requires AllDigits(w) && AllDigits(g) && AllDigits(f)
    ensures Filter(w + "." + g + "," + f, IsMark) == ".,"
  {
    FilterJoin5(w, ".", g, ",", f, IsMark);
    DigitsFiltered(w);
    DigitsFiltered(g);
    DigitsFiltered(f);
    FilterOne('.', IsMark);
    FilterOne(',', IsMark);
  }

  lemma DottedDropped(w: string, g: string, f: string)
    requires AllDigits(w) && AllDigits(g) && AllDigits(f)
    ensures Filter(w + "." + g + "," + f, NotDot) == w + g + "," + f
  {
    FilterJoin5(w, ".", g, ",", f, NotDot);
    NoTail(w);
    DigitsFiltered(w);
    DigitsFiltered(g);
    DigitsFiltered(f);
    FilterOne('.', NotDot);
    FilterOne(',', NotDot);
  }

  lemma CommaMarks(w: string, g: string, f: string)
    requires AllDigits(w) && AllDigits(g) && AllDigits(f)
    ensures Filter(w + "," + g + "." + f, IsMark) == ",."
  {
    FilterJoin5(w, ",", g, ".", f, IsMark);
    DigitsFiltered(w);
    DigitsFiltered(g);
    DigitsFiltered(f);
    FilterOne('.', IsMark);
    FilterOne(',', IsMark);
  }

  lemma CommaDropped(w: string, g: string, f: string)
    requires AllDigits(w) && AllDigits(g) && AllDigits(f)
    ensures Filter(w + "," + g + "." + f, NotComma) == w + g + "." + f
  {
    FilterJoin5(w, ",", g, ".", f, NotComma);
    NoTail(w);
    DigitsFiltered(w);
    DigitsFiltered(g);
    DigitsFiltered(f);
    FilterOne('.', NotComma);
    FilterOne(',', NotComma);
  }

  /** Filtering five pieces is filtering each of them. */
  lemma FilterJoin5(a: string, b: string, c: string, d: string, e: string, keep: char -> bool)
    ensures Filter(a + b + c + d + e, keep)
         == Filter(a, keep) + Filter(b, keep) + Filter(c, keep) + Filter(d, keep) + Filter(e, keep)
  {
    FilterAppend(a + b + c + d, e, keep);
    FilterAppend(a + b + c, d, keep);
    FilterAppend(a + b, c, keep);
    FilterAppend(a, b, keep);
  }

  lemma FilterOne(c: char, keep: char -> bool)
    ensures Filter([c], keep) == if keep(c) then [c] else []
  {
    assert [c][1..] == [];
  }

  /** Digits carry no mark: the mark filters drop none of them and keep none as marks. */
  lemma DigitsFiltered(w: string)
    requires AllDigits(w)
    ensures Filter(w, NotDot) == w && Filter(w, NotComma) == w && Filter(w, IsMark) == []
  {
    FilterAll(w, NotDot);
    FilterAll(w, NotComma);
    FilterNone(w, IsMark);
  }

  /**
   * Thousands grouped with `.` and decimals after `,`, as in `1.234,56`:
   * corrected, the groups join into the integer part; as written, reading
   * stops at the comma and the first group becomes the fraction.
   */
  lemma DottedThousands(w: string, g: string, f: string)
    requires AllDigits(w) && AllDigits(g) && AllDigits(f) && |w| > 0
    ensures ToNumberFlexible(Str(w + "." + g + "," + f)) == Some(Decimal(DigitsValue(w + g + f), |f|))
    ensures ToNumberFlexibleAsWritten(Str(w + "." + g + "," + f)) == Some(Decimal(DigitsValue(w + g), |g|))
  {
    CleanGroups3(w, ".", g, ",", f);
    DottedAsWritten(w, g, f);
    DottedCorrected(w, g, f);
  }

  lemma DottedAsWritten(w: string, g: string, f: string)
    requires AllDigits(w) && AllDigits(g) && AllDigits(f) && |w| > 0
    ensures ParseDecimalPrefix(CommaAsDecimal(w + "." + g + "," + f)) == Some(Decimal(DigitsValue(w + g), |g|))
  {
    var s := w + "." + g + "," + f;
    assert s[|w|] == '.';
    Regroup(w + "." + g, ",", f);
    ReadDecimal(w, g, "," + f);
  }

  lemma DottedCorrected(w: string, g: string, f: string)
    requires AllDigits(w) && AllDigits(g) && AllDigits(f) && |w| > 0
    ensures ParseDecimalPrefix(DecimalMarks(w + "." + g + "," + f)) == Some(Decimal(DigitsValue(w + g + f), |f|))
  {
    DottedMarksStep(w, g, f);
    DigitsAppend(w, g);
    NoTail(w + g + "." + f);
    ReadDecimal(w + g, f, []);
  }

  /**
   * Thousands grouped with `,` and decimals after `.`, as in `1,234.56`:
   * corrected, the groups join into the integer part; as written, reading
   * stops at the comma.
   */
  lemma CommaThousands(w: string, g: string, f: string)
    requires AllDigits(w) && AllDigits(g) && AllDigits(f) && |w| > 0
    ensures ToNumberFlexible(Str(w + "," + g + "." + f)) == Some(Decimal(DigitsValue(w + g + f), |f|))
    ensures ToNumberFlexibleAsWritten(Str(w + "," + g + "." + f)) == Some(Decimal(DigitsValue(w), 0))
  {
    CleanGroups3(w, ",", g, ".", f);
    CommaAsWritten(w, g, f);
    CommaCorrected(w, g, f);
  }

  lemma CommaAsWritten(w: string, g: string, f: string)
    requires AllDigits(w) && AllDigits(g) && AllDigits(f) && |w| > 0
    ensures ParseDecimalPrefix(CommaAsDecimal(w + "," + g + "." + f)) == Some(Decimal(DigitsValue(w), 0))
  {
    var s := w + "," + g + "." + f;
    assert s[|w| + 1 + |g|] == '.';
    CommaSplit(w, g, f);
    ReadInteger(w, "," + g + "." + f);
  }

  lemma CommaSplit(w: string, g: string, f: string)
    ensures w + "," + g + "." + f == w + ("," + g + "." + f)
  {
  }

  lemma CommaCorrected(w: string, g: string, f: string)
    requires AllDigits(w) && AllDigits(g) && AllDigits(f) && |w| > 0
    ensures ParseDecimalPrefix(DecimalMarks(w + "," + g + "." + f)) == Some(Decimal(DigitsValue(w + g + f), |f|))
  {
    CommaMarksStep(w, g, f);
    DigitsAppend(w, g);
    NoTail(w + g + "." + f);
    ReadDecimal(w + g, f, []);
  }

  /** With a single comma and no dot, the comma is the decimal mark, as written and corrected. */
  lemma CommaDecimal(w: string, f: string)
    requires AllDigits(w) && AllDigits(f) && |w| > 0
    ensures ToNumberFlexible(Str(w + "," + f)) == Some(Decimal(DigitsValue(w + f), |f|))
    ensures ToNumberFlexibleAsWritten(Str(w + "," + f)) == ToNumberFlexible(Str(w + "," + f))
  {
    CleanGroups(w, ",", f);
    CommaRead(w, f);
  }

  lemma CommaRead(w: string, f: string)
    requires AllDigits(w) && AllDigits(f) && |w| > 0
    ensures ParseDecimalPrefix(CommaAsDecimal(w + "," + f)) == Some(Decimal(DigitsValue(w + f), |f|))
    ensures DecimalMarks(w + "," + f) == CommaAsDecimal(w + "," + f)
  {
    CommaOnly(w, f);
    ReplaceComma(w, f);
    NoTail(w + "." + f);
    ReadDecimal(w, f, []);
  }

  lemma CommaOnly(w: string, f: string)
    requires AllDigits(w) && AllDigits(f)
    ensures ',' in w + "," + f && '.' !in w + "," + f
  {
    var s := w + "," + f;
    assert s[|w|] == ',';
    forall i | 0 <= i < |s| ensures s[i] != '.' {
      if i < |w| { assert s[i] == w[i]; } else if i > |w| { assert s[i] == f[i - |w| - 1]; }
    }
  }

  // ---------------------------------------------------------------------
  // Grouped amounts in general

  /**
   * Corrected decimal-mark step: when the last mark of the text is written
   * only once, it becomes the decimal point and every mark before it is
   * dropped.
   */
  lemma LastMarkIsDecimal(a: string, m: char, b: string)
    requires IsMark(m) && m !in a && NoMarks(b)
    ensures DecimalMarks(a + [m] + b) == Filter(a, NotMark) + "." + b
  {
    if m == ',' {
      CommaLast(a, b);
    } else {
      DotLast(a, b);
    }
  }

  lemma CommaLast(a: string, b: string)
    requires ',' !in a && NoMarks(b)
    ensures DecimalMarks(a + "," + b) == Filter(a, NotMark) + "." + b
  {
    if '.' in a {
      CommaAfterDots(a, b);
    } else {
      CommaOnlyMark(a, b);
    }
  }

  /** Both marks, the `,` last: the dots go and the `,` becomes the point. */
  lemma CommaAfterDots(a: string, b: string)
    requires ',' !in a && '.' in a && NoMarks(b)
    ensures DecimalMarks(a + "," + b) == Filter(a, NotMark) + "." + b
  {
    var t := a + "," + b;
    var w := Filter(a, NotMark);
    assert t[|a|] == ',';
    assert '.' in t by { var k :| 0 <= k < |a| && a[k] == '.'; assert t[k] == '.'; }
    MarksOf(a, ',', b);
    DotsDropped(a, b);
    assert ',' !in w;
    ReplaceCommaAt(w, b);
  }

  /** The marks of `a`, a mark `m` and mark-free `b` are those of `a`, then `m`. */
  lemma MarksOf(a: string, m: char, b: string)
    requires IsMark(m) && NoMarks(b)
    ensures Filter(a + [m] + b, IsMark) == Filter(a, IsMark) + [m]
  {
    FilterAppend(a + [m], b, IsMark);
    FilterAppend(a, [m], IsMark);
    FilterOne(m, IsMark);
    FilterNone(b, IsMark);
  }

  lemma DotsDropped(a: string, b: string)
    requires ',' !in a && NoMarks(b)
    ensures Filter(a + "," + b, NotDot) == Filter(a, NotMark) + "," + b
  {
    FilterSame(a, NotDot, NotMark);
    FilterAppend(a + ",", b, NotDot);
    FilterAppend(a, ",", NotDot);
    FilterOne(',', NotDot);
    FilterAll(b, NotDot);
  }

  /** A `,` with no other mark anywhere: it becomes the point. */
  lemma CommaOnlyMark(a: string, b: string)
    requires ',' !in a && '.' !in a && NoMarks(b)
    ensures DecimalMarks(a + "," + b) == Filter(a, NotMark) + "." + b
  {
    assert (a + "," + b)[|a|] == ',';
    FilterAll(a, NotMark);
    NoDotIn(a, ",", b);
    ReplaceCommaAt(a, b);
  }

  lemma DotLast(a: string, b: string)
    requires '.' !in a && NoMarks(b)
    ensures DecimalMarks(a + "." + b) == Filter(a, NotMark) + "." + b
  {
    var t := a + "." + b;
    assert t[|a|] == '.';
    if ',' in a {
      FilterSame(a, NotComma, NotMark);
      FilterAppend(a + ".", b, NotComma);
      FilterAppend(a, ".", NotComma);
      FilterOne('.', NotComma);
      FilterAll(b, NotComma);
      FilterAppend(a + ".", b, IsMark);
      FilterAppend(a, ".", IsMark);
      FilterOne('.', IsMark);
      FilterNone(b, IsMark);
      assert ',' in t by { var k :| 0 <= k < |a| && a[k] == ','; assert t[k] == ','; }
    } else {
      FilterAll(a, NotMark);
      NoCommaIn(a, b);
    }
  }

  /** A text of `a`, a mark and `b` holds no `.` when none of its pieces does. */
  lemma NoDotIn(a: string, m: string, b: string)
    requires '.' !in a && '.' !in m && NoMarks(b)
    ensures '.' !in a + m + b
  {
    var t := a + m + b;
    forall i | 0 <= i < |t| ensures t[i] != '.' {
      if i < |a| {
        assert t[i] == a[i];
      } else if i < |a| + |m| {
        assert t[i] == m[i - |a|];
      } else {
        assert t[i] == b[i - |a| - |m|];
      }
    }
  }

  lemma NoCommaIn(a: string, b: string)
    requires ',' !in a && '.' !in a && NoMarks(b)
    ensures ',' !in a + "." + b
  {
    var t := a + "." + b;
    forall i | 0 <= i < |t| ensures t[i] != ',' {
      if i < |a| {
        assert t[i] == a[i];
      } else if i > |a| {
        assert t[i] == b[i - |a| - 1];
      }
    }
  }

  /** The first `,` of `w,b`, with no `,` in `w`, becomes `.`. */
  lemma ReplaceCommaAt(w: string, b: string)
    requires ',' !in w
    ensures ReplaceFirst(w + "," + b, ',', '.') == w + "." + b
  {
    var s := w + "," + b;
    assert s[|w|] == ',';
    assert s[..|w|] == w;
    assert IndexOf(s, ',') == Some(|w|);
    ReplaceFirstAt(s, ',', '.', |w|);
    assert s[|w| + 1..] == b;
  }

  /** Text that starts with a digit and holds only digits and marks. */
  predicate GroupedDigits(w: string) {
    |w| > 0 && IsDigit(w[0]) && forall i :: 0 <= i < |w| ==> IsDigit(w[i]) || IsMark(w[i])
  }

  /**
   * Digit groups separated by marks, then a final mark written once and
   * the fraction digits, as in `1.234.567,89` or `1,234,567.89`: the groups
   * join into the integer part and the final mark is the decimal point.
   */
  lemma GroupedAmount(w: string, m: char, f: string)
    requires GroupedDigits(w) && IsMark(m) && m !in w && AllDigits(f)
    ensures AllDigits(Filter(w, NotMark) + f)
    ensures ToNumberFlexible(Str(w + [m] + f)) == Some(Decimal(DigitsValue(Filter(w, NotMark) + f), |f|))
  {
    var s := w + [m] + f;
    GroupedText(w, m, f);
    CleanKeeps(s);
    LastMarkIsDecimal(w, m, f);
    var g := Filter(w, NotMark);
    GroupDigits(w);
    DigitsAppend(g, f);
    ReadDecimal(g, f, []);
    NoTail(g + "." + f);
  }

  lemma GroupedText(w: string, m: char, f: string)
    requires GroupedDigits(w) && IsMark(m) && AllDigits(f)
    ensures AllAmountChars(w + [m] + f) && (w + [m] + f)[0] == w[0]
  {
    DigitsAreAmountChars(f);
    AmountCharsAppend(w, [m]);
    AmountCharsAppend(w + [m], f);
  }

  /** Dropping the marks of grouped digits leaves the digits, at least one. */
  lemma GroupDigits(w: string)
    requires GroupedDigits(w)
    ensures AllDigits(Filter(w, NotMark)) && |Filter(w, NotMark)| > 0
  {
    var r := Filter(w, NotMark);
    FilterMembers(w, NotMark);
    forall i | 0 <= i < |r| ensures IsDigit(r[i]) {
      assert r[i] in w;
      var j :| 0 <= j < |w| && w[j] == r[i];
    }
    assert r == [w[0]] + Filter(w[1..], NotMark);
  }

  /**
   * Text whose cleanup holds at most one kind of mark reads the same both
   * ways: as the cleaned text with its first `,` taken as the decimal point
   * when there is no `.`.
   */
  lemma OneMarkReading(s: string)
    requires !AllSpace(s)
    requires !(',' in Filter(s, IsAmountChar) && '.' in Filter(s, IsAmountChar))
    ensures ToNumberFlexible(Str(s)) == ParseDecimalPrefix(CommaAsDecimal(Filter(s, IsAmountChar)))
    ensures ToNumberFlexibleAsWritten(Str(s)) == ToNumberFlexible(Str(s))
  {
    TrimIsSlice(s);
  }

  /** The witness: `"1.234,56"` reads as 1.234 as written, and as 1234.56 corrected. */
  lemma DottedThousandsWitness()
    ensures ToNumberFlexibleAsWritten(Str("1.234,56")) == Some(Decimal(1234, 3))
    ensures ToNumberFlexible(Str("1.234,56")) == Some(Decimal(123456, 2))
  {
    WitnessText();
    DottedThousands("1", "234", "56");
    WitnessDigits();
  }

  lemma WitnessText()
    ensures "1" + "." + "234" + "," + "56" == "1.234,56"
    ensures "1" + "234" == "1234" && "1" + "234" + "56" == "123456"
  {
  }

  lemma WitnessDigits()
    ensures DigitsValue("1234") == 1234
    ensures DigitsValue("123456") == 123456
  {
    assert "12"[..1] == "1";
    assert "123"[..2] == "12";
    assert "1234"[..3] == "123";
    assert "12345"[..4] == "1234";
    assert "123456"[..5] == "12345";
  }
}
