/**
 * The redaction applied to every payload before it is stored
 * (`redactPayload` in the store module): sensitive card fields are blanked,
 * expiry fields are cut down to their last two characters, and long digit
 * runs inside strings are masked.
 */
module Redaction {
  import opened Maybe
  import opened Text
  import opened Js

  // ---------------------------------------------------------------------
  // maskCardLike

  /** The mask of one digit run: every character but the last four becomes `*`. */
  function MaskAllButLast4(m: string): (r: string)
    ensures |r| == |m|
    ensures forall i :: 0 <= i < |m| ==> r[i] == (if i < |m| - 4 then '*' else m[i])
  {
    seq(|m|, i requires 0 <= i < |m| => if i < |m| - 4 then '*' else m[i])
  }

  /**
   * `s.replace(/\d{13,19}/g, mask)`: scanning left to right, wherever at
   * least 13 digits start, the longest run of at most 19 of them is masked
   * and the scan resumes after it; elsewhere the scan moves on one character.
   * The length is kept, and only digits can turn into `*`.
   */
  function MaskCardLike(s: string): (r: string)
    ensures |r| == |s|
    ensures forall i :: 0 <= i < |s| ==> r[i] == s[i] || (r[i] == '*' && IsDigit(s[i]))
    decreases |s|
  {
    if s == [] then []
    else
      var run := DigitPrefix(s);
      if run >= 13 then
        var k := if run > 19 then 19 else run;
        var head := MaskAllButLast4(s[..k]);
        var tail := MaskCardLike(s[k..]);
        MaskedHead(s, k);
        MaskedJoin(s[..k], s[k..], head, tail);
        assert s[..k] + s[k..] == s;
        head + tail
      else
        var tail := MaskCardLike(s[1..]);
        MaskedJoin(s[..1], s[1..], s[..1], tail);
        assert s[..1] + s[1..] == s && s[..1] == [s[0]];
        [s[0]] + tail
  }

  /** `r` is `s` with some digits turned into `*`. */
  predicate MaskedFrom(r: string, s: string) {
    |r| == |s| && forall i :: 0 <= i < |s| ==> r[i] == s[i] || (r[i] == '*' && IsDigit(s[i]))
  }

  lemma MaskedHead(s: string, k: nat)
    requires k <= DigitPrefix(s)
    ensures MaskedFrom(MaskAllButLast4(s[..k]), s[..k])
  {
    assert AllDigits(s[..DigitPrefix(s)]);
    assert forall i :: 0 <= i < k ==> s[..k][i] == s[..DigitPrefix(s)][i];
  }

  lemma MaskedJoin(x: string, y: string, hx: string, hy: string)
    requires MaskedFrom(hx, x)
    requires |hy| == |y| && forall i :: 0 <= i < |y| ==> hy[i] == y[i] || (hy[i] == '*' && IsDigit(y[i]))
    ensures MaskedFrom(hx + hy, x + y)
  {
    forall i | 0 <= i < |x + y|
      ensures (hx + hy)[i] == (x + y)[i] || ((hx + hy)[i] == '*' && IsDigit((x + y)[i]))
    {
      if i < |x| {
        assert (hx + hy)[i] == hx[i] && (x + y)[i] == x[i];
      } else {
        assert (hx + hy)[i] == hy[i - |x|] && (x + y)[i] == y[i - |x|];
      }
    }
  }

  /** Somewhere in `s` at least 13 digits follow one another. */
  predicate HasCardRun(s: string) {
    exists i :: 0 <= i < |s| && DigitPrefix(s[i..]) >= 13
  }

  /** Masking changes a string iff it holds a run of 13 or more digits. */
  lemma {:induction false} MaskUnchangedIff(s: string)
    ensures MaskCardLike(s) == s <==> !HasCardRun(s)
    decreases |s|
  {
    if s != [] {
      var run := DigitPrefix(s);
      assert s[0..] == s;
      if run >= 13 {
        assert MaskCardLike(s)[0] == '*';
      } else {
        MaskUnchangedIff(s[1..]);
        assert HasCardRun(s) <==> HasCardRun(s[1..]) by {
          if HasCardRun(s) {
            var i :| 0 <= i < |s| && DigitPrefix(s[i..]) >= 13;
            assert i != 0;
            assert s[1..][i - 1..] == s[i..];
          }
          if HasCardRun(s[1..]) {
            var j :| 0 <= j < |s[1..]| && DigitPrefix(s[1..][j..]) >= 13;
            assert s[1..][j..] == s[j + 1..];
          }
        }
        assert MaskCardLike(s) == [s[0]] + MaskCardLike(s[1..]);
        if MaskCardLike(s[1..]) != s[1..] {
          assert MaskCardLike(s)[1..] == MaskCardLike(s[1..]);
        }
      }
    }
  }

  /** A lone run of 13 to 19 digits keeps only its last four digits. */
  lemma MaskSingleRun(d: string)
    requires AllDigits(d) && 13 <= |d| <= 19
    ensures MaskCardLike(d) == MaskAllButLast4(d)
    ensures forall i :: 0 <= i < |d| ==> MaskCardLike(d)[i] == if i < |d| - 4 then '*' else d[i]
  {
    DigitPrefixOfDigits(d, []);
    assert d + [] == d;
    assert d[..|d|] == d;
    assert d[|d|..] == [];
  }

  /** A run longer than 19 digits is a 19-digit match followed by the rest, scanned again. */
  lemma MaskLongRun(d: string)
    requires AllDigits(d) && |d| > 19
    ensures MaskCardLike(d) == MaskAllButLast4(d[..19]) + MaskCardLike(d[19..])
  {
    DigitPrefixOfDigits(d, []);
    assert d + [] == d;
  }

  /**
   * A run of 28 to 31 digits keeps its last 13 to 16 digits in clear: the
   * first match takes 19 digits and masks 15 of them, and the 9 to 12 left
   * after it are too few to match again.
   */
  lemma LongRunLeftInClear(d: string)
    requires AllDigits(d) && 28 <= |d| <= 31
    ensures MaskCardLike(d)[15..] == d[15..]
    ensures HasCardRun(MaskCardLike(d))
  {
    ClearTail(d);
    DigitsFrom(MaskCardLike(d), 15);
  }

  lemma ClearTail(d: string)
    requires AllDigits(d) && 28 <= |d| <= 31
    ensures |MaskCardLike(d)| == |d| && MaskCardLike(d)[15..] == d[15..]
  {
    var rest := d[19..];
    ShortRunKept(rest);
    MaskLongRun(d);
    var m := MaskAllButLast4(d[..19]);
    assert (m + rest)[15..] == m[15..] + rest;
    assert m[15..] == d[15..19];
    assert d[15..] == d[15..19] + rest;
  }

  /** At least 13 digits from position `i` to the end form a card-like run. */
  lemma DigitsFrom(r: string, i: nat)
    requires i + 13 <= |r| && AllDigits(r[i..])
    ensures HasCardRun(r)
  {
    DigitPrefixOfDigits(r[i..], []);
    assert r[i..] + [] == r[i..];
  }

  /** A text of fewer than 13 characters holds no run to mask. */
  lemma ShortRunKept(s: string)
    requires |s| < 13
    ensures MaskCardLike(s) == s
  {
    MaskUnchangedIff(s);
    forall i | 0 <= i < |s| ensures DigitPrefix(s[i..]) < 13 { }
  }

  /** A non-digit separates two independent scans. */
  lemma {:induction false} MaskSplit(a: string, c: char, b: string)
    requires !IsDigit(c)
    ensures MaskCardLike(a + [c] + b) == MaskCardLike(a) + [c] + MaskCardLike(b)
    decreases |a|, 1
  {
    var s := a + [c] + b;
    assert DigitPrefix([c] + b) == 0;
    if a == [] {
      assert s == [c] + b;
      assert s[1..] == b;
    } else {
      assert s == a + ([c] + b);
      DigitPrefixAppend(a, [c] + b);
      if DigitPrefix(a) >= 13 {
        MaskSplitMatch(a, c, b);
      } else {
        MaskSplitSkip(a, c, b);
      }
    }
  }

  /** The scan's match step: at least 13 digits, of which at most 19 are masked. */
  lemma MaskMatchUnfold(s: string, k: nat)
    requires DigitPrefix(s) >= 13 && k == (if DigitPrefix(s) > 19 then 19 else DigitPrefix(s))
    ensures k <= |s|
    ensures MaskCardLike(s) == MaskAllButLast4(s[..k]) + MaskCardLike(s[k..])
  {
  }

  /** `MaskSplit` when the scan starts with a card-number match. */
  lemma {:induction false} MaskSplitMatch(a: string, c: char, b: string)
    requires !IsDigit(c) && a != []
    requires DigitPrefix(a + [c] + b) == DigitPrefix(a) >= 13
    ensures MaskCardLike(a + [c] + b) == MaskCardLike(a) + [c] + MaskCardLike(b)
    decreases |a|, 0
  {
    var run := DigitPrefix(a);
    var k := if run > 19 then 19 else run;
    MaskMatchUnfold(a + [c] + b, k);
    MaskMatchUnfold(a, k);
    SliceAround(a, c, b, k);
    MaskSplit(a[k..], c, b);
    AppendAround(MaskAllButLast4(a[..k]), MaskCardLike(a[k..]), c, MaskCardLike(b));
  }

  lemma SliceAround(a: string, c: char, b: string, k: nat)
    requires k <= |a|
    ensures (a + [c] + b)[..k] == a[..k]
    ensures (a + [c] + b)[k..] == a[k..] + [c] + b
  {
  }

  lemma AppendAround(h: string, p: string, c: char, q: string)
    ensures h + (p + [c] + q) == (h + p) + [c] + q
  {
  }

  /** `MaskSplit` when the scan copies its first character. */
  lemma {:induction false} MaskSplitSkip(a: string, c: char, b: string)
    requires !IsDigit(c) && a != []
    requires DigitPrefix(a + [c] + b) == DigitPrefix(a) < 13
    ensures MaskCardLike(a + [c] + b) == MaskCardLike(a) + [c] + MaskCardLike(b)
    decreases |a|, 0
  {
    var s := a + [c] + b;
    assert s[1..] == a[1..] + [c] + b;
    MaskSplit(a[1..], c, b);
    var p := MaskCardLike(a[1..]);
    var q := MaskCardLike(b);
    assert MaskCardLike(s) == [a[0]] + (p + [c] + q);
    assert MaskCardLike(a) == [a[0]] + p;
    assert [a[0]] + (p + [c] + q) == ([a[0]] + p) + [c] + q;
  }

  // ---------------------------------------------------------------------
  // redactValue

  /** `isPlainObject`: `typeof v === "object"`, not `null` and not an array. */
  predicate IsPlainObject(v: Json) {
    v.Obj?
  }

  /** Keys whose value is replaced whatever it holds (compared lower-cased). */
  const SensitiveKeys: seq<string> := ["card_number", "pan", "primaryaccountnumber", "card_cvv", "cvv", "cvc"]

  /** Keys whose value is cut down to its last two characters (compared lower-cased). */
  const ExpiryKeys: seq<string> := ["card_expire", "expiry", "expire"]

  const RedactedText: string := "[REDACTED]"

  /** The key `out[k] = …` cannot create as an own property of `{}`. */
  const ProtoKey: string := "__proto__"

  predicate IsSensitiveKey(k: string) {
    Lower(k) in SensitiveKeys
  }

  predicate IsExpiryKey(k: string) {
    Lower(k) in ExpiryKeys
  }

  /** The text an expiry value is masked from: the string itself, else `String(v ?? "")`. */
  function ExpiryText(v: Json): string {
    if v.Str? then v.s else ToJsString(Coalesce(v, Str("")))
  }

  /**
   * The replacement of an expiry value: `"**"` and the last two characters
   * of its text, or `"[REDACTED]"` when the text is empty.
   */
  function ExpiryMask(v: Json): (r: Json)
    ensures r.Str?
    ensures ExpiryText(v) == [] ==> r.s == RedactedText
    ensures ExpiryText(v) != [] ==>
      var t := ExpiryText(v);
      3 <= |r.s| <= 4 && r.s[..2] == "**" && |r.s| - 2 == (if |t| < 2 then |t| else 2)
      && t[|t| - (|r.s| - 2)..] == r.s[2..]
  {
    var t := ExpiryText(v);
    if t != [] then
      var l := LastTwo(t);
      assert t[|t| - |l|..] == l;
      Str("**" + l)
    else Str(RedactedText)
  }

  /** Which values have an empty expiry text, and so are replaced by `"[REDACTED]"`. */
  lemma ExpiryTextEmpty(v: Json)
    ensures Nullish(v) || v == Str("") ==> ExpiryText(v) == []
    ensures v.Bool? || v.Num? || v.Obj? || (v.Str? && v.s != []) ==> ExpiryText(v) != []
  {
  }

  /**
   * `redactValue`. With `asWritten` the object copy assigns with `out[k] = …`
   * into `{}`, where the key `"__proto__"` hits the prototype setter and never
   * becomes an own property; without it every key is copied as an own
   * property, which is what the function is meant to do.
   */
  function Redact(v: Json, asWritten: bool): (r: Json)
    decreases v, 1
  {
    match v
    case Str(s) => Str(MaskCardLike(s))
    case Arr(items) => Arr(RedactItems(items, asWritten))
    case Obj(props) => Obj(RedactProps(props, asWritten))
    case _ => v
  }

  function RedactItems(items: seq<Json>, asWritten: bool): (r: seq<Json>)
    ensures |r| == |items|
    ensures forall i :: 0 <= i < |items| ==> r[i] == Redact(items[i], asWritten)
    decreases items
  {
    if items == [] then []
    else [Redact(items[0], asWritten)] + RedactItems(items[1..], asWritten)
  }

  /** The value stored under key `k` for the input value `v`. */
  function RedactEntry(k: string, v: Json, asWritten: bool): Json
    decreases v, 2
  {
    if IsSensitiveKey(k) then Str(RedactedText)
    else if IsExpiryKey(k) then ExpiryMask(v)
    else Redact(v, asWritten)
  }

  function RedactProps(props: seq<Prop>, asWritten: bool): (r: seq<Prop>)
    decreases props
  {
    if props == [] then []
    else
      var p := props[0];
      var rest := RedactProps(props[1..], asWritten);
      if asWritten && p.key == ProtoKey then rest
      else [Prop(p.key, RedactEntry(p.key, p.value, asWritten))] + rest
  }

  /** `redactValue` corrected: every key is kept. */
  function RedactValue(v: Json): (r: Json)
    ensures v.Str? ==> r.Str? && |r.s| == |v.s| && (r == v <==> !HasCardRun(v.s))
    ensures v.Undefined? || v.Null? || v.Bool? || v.Num? ==> r == v
    ensures v.Arr? ==> r.Arr? && |r.items| == |v.items|
    ensures v.Obj? ==> r.Obj? && Keys(r.props) == Keys(v.props)
  {
    if v.Str? then MaskUnchangedIff(v.s); Redact(v, false)
    else if v.Obj? then KeysKept(v.props); Redact(v, false)
    else Redact(v, false)
  }

  /** `redactValue` as the source writes it. */
  function RedactValueAsWritten(v: Json): (r: Json)
    ensures v.Obj? ==> r.Obj? && Keys(r.props) == WithoutKey(Keys(v.props), ProtoKey)
  {
    if v.Obj? then KeysKeptAsWritten(v.props); Redact(v, true)
    else Redact(v, true)
  }

  /** `ks` with every occurrence of `k` removed. */
  function WithoutKey(ks: seq<string>, k: string): (r: seq<string>)
    ensures k !in r
    ensures forall x :: x in r <==> x in ks && x != k
  {
    if ks == [] then []
    else if ks[0] == k then WithoutKey(ks[1..], k)
    else [ks[0]] + WithoutKey(ks[1..], k)
  }

  /** The corrected redaction keeps every key, in order, with its value redacted by key. */
  lemma {:induction false} KeysKept(props: seq<Prop>)
    ensures |RedactProps(props, false)| == |props|
    ensures Keys(RedactProps(props, false)) == Keys(props)
    ensures forall i :: 0 <= i < |props| ==>
      RedactProps(props, false)[i] == Prop(props[i].key, RedactEntry(props[i].key, props[i].value, false))
  {
    if props != [] {
      KeysKept(props[1..]);
      var r := RedactProps(props, false);
      assert Keys(r) == [r[0].key] + Keys(r[1..]);
      assert Keys(props) == [props[0].key] + Keys(props[1..]);
    }
  }

  /** As written, exactly the `"__proto__"` keys are lost. */
  lemma {:induction false} KeysKeptAsWritten(props: seq<Prop>)
    ensures Keys(RedactProps(props, true)) == WithoutKey(Keys(props), ProtoKey)
  {
    if props != [] {
      KeysKeptAsWritten(props[1..]);
      var r := RedactProps(props, true);
      assert Keys(props) == [props[0].key] + Keys(props[1..]);
      if props[0].key != ProtoKey {
        assert Keys(r) == [r[0].key] + Keys(r[1..]);
      }
    }
  }

  // ---------------------------------------------------------------------
  // What redaction guarantees

  /** Every property in `v` under a sensitive or expiry key holds its replacement. */
  predicate Scrubbed(v: Json)
    decreases v
  {
    match v
    case Arr(items) => forall i :: 0 <= i < |items| ==> Scrubbed(items[i])
    case Obj(props) => forall i :: 0 <= i < |props| ==> ScrubbedProp(props[i])
    case _ => true
  }

  predicate ScrubbedProp(p: Prop)
    decreases p
  {
    if IsSensitiveKey(p.key) then p.value == Str(RedactedText)
    else if IsExpiryKey(p.key) then
      p.value == Str(RedactedText) || (p.value.Str? && 3 <= |p.value.s| <= 4 && p.value.s[..2] == "**")
    else Scrubbed(p.value)
  }

  /** Whatever the input, nothing sensitive survives redaction (in either version). */
  lemma {:induction false} RedactScrubbed(v: Json, asWritten: bool)
    ensures Scrubbed(Redact(v, asWritten))
    decreases v, 1
  {
    match v
    case Arr(items) => ItemsScrubbed(items, asWritten);
    case Obj(props) => PropsScrubbed(props, asWritten);
    case _ =>
  }

  lemma {:induction false} ItemsScrubbed(items: seq<Json>, asWritten: bool)
    ensures forall i :: 0 <= i < |items| ==> Scrubbed(Redact(items[i], asWritten))
    decreases items
  {
    forall i | 0 <= i < |items| ensures Scrubbed(Redact(items[i], asWritten)) {
      RedactScrubbed(items[i], asWritten);
    }
  }

  lemma {:induction false} PropsScrubbed(props: seq<Prop>, asWritten: bool)
    ensures forall i :: 0 <= i < |RedactProps(props, asWritten)| ==> ScrubbedProp(RedactProps(props, asWritten)[i])
    decreases props
  {
    if props != [] {
      PropsScrubbed(props[1..], asWritten);
      var p := props[0];
      var r := RedactProps(props, asWritten);
      if !(asWritten && p.key == ProtoKey) {
        if !IsSensitiveKey(p.key) && !IsExpiryKey(p.key) {
          RedactScrubbed(p.value, asWritten);
        }
        assert ScrubbedProp(r[0]);
        assert r[1..] == RedactProps(props[1..], asWritten);
      }
    }
  }

  // ---------------------------------------------------------------------
  // redactPayload

  /** No `undefined` anywhere: the values a JSON round trip produces. */
  predicate Clean(v: Json)
    decreases v
  {
    match v
    case Undefined => false
    case Arr(items) => forall i :: 0 <= i < |items| ==> Clean(items[i])
    case Obj(props) => forall i :: 0 <= i < |props| ==> CleanProp(props[i])
    case _ => true
  }

  predicate CleanProp(p: Prop)
    decreases p
  {
    Clean(p.value)
  }

  /**
   * `JSON.parse(JSON.stringify(v))` below the top level: `undefined` array
   * elements come back as `null` and properties holding `undefined` vanish.
   */
  function Copy(v: Json): Json
    decreases v, 1
  {
    match v
    case Arr(items) => Arr(CopyItems(items))
    case Obj(props) => Obj(CopyProps(props))
    case _ => v
  }

  function CopyItems(items: seq<Json>): (r: seq<Json>)
    ensures |r| == |items|
    ensures forall i :: 0 <= i < |items| ==> r[i] == if items[i].Undefined? then Null else Copy(items[i])
    decreases items
  {
    if items == [] then []
    else [if items[0].Undefined? then Null else Copy(items[0])] + CopyItems(items[1..])
  }

  function CopyProps(props: seq<Prop>): seq<Prop>
    decreases props
  {
    if props == [] then []
    else if props[0].value.Undefined? then CopyProps(props[1..])
    else [Prop(props[0].key, Copy(props[0].value))] + CopyProps(props[1..])
  }

  /**
   * The JSON round trip as a whole: `JSON.stringify(undefined)` is
   * `undefined`, which `JSON.parse` rejects, so that input has no copy.
   */
  function JsonCopy(v: Json): (r: Option<Json>)
    ensures r.None? <==> v.Undefined?
    ensures r.Some? ==> Clean(r.value)
    ensures Clean(v) ==> r == Some(v)
  {
    if v.Undefined? then None
    else
      CopyIsClean(v);
      CopyOfClean(v);
      Some(Copy(v))
  }

  lemma {:induction false} CopyIsClean(v: Json)
    requires !v.Undefined?
    ensures Clean(Copy(v))
    decreases v, 1
  {
    match v
    case Arr(items) =>
      forall i | 0 <= i < |items| && !items[i].Undefined? ensures Clean(Copy(items[i])) {
        CopyIsClean(items[i]);
      }
    case Obj(props) => CopyPropsClean(props);
    case _ =>
  }

  lemma {:induction false} CopyPropsClean(props: seq<Prop>)
    ensures forall i :: 0 <= i < |CopyProps(props)| ==> CleanProp(CopyProps(props)[i])
    decreases props
  {
    if props != [] {
      CopyPropsClean(props[1..]);
      if !props[0].value.Undefined? {
        CopyIsClean(props[0].value);
        assert CopyProps(props)[1..] == CopyProps(props[1..]);
      }
    }
  }

  /** A value that is already clean comes back from the round trip unchanged. */
  lemma {:induction false} CopyOfClean(v: Json)
    ensures Clean(v) ==> Copy(v) == v
    decreases v, 1
  {
    if Clean(v) {
      match v
      case Arr(items) =>
        forall i | 0 <= i < |items| ensures CopyItems(items)[i] == items[i] {
          assert Clean(items[i]);
          CopyOfClean(items[i]);
        }
      case Obj(props) =>
        CopyPropsOfClean(props);
      case _ =>
    }
  }

  lemma {:induction false} CopyPropsOfClean(props: seq<Prop>)
    requires forall i :: 0 <= i < |props| ==> CleanProp(props[i])
    ensures CopyProps(props) == props
    decreases props
  {
    if props != [] {
      assert CleanProp(props[0]);
      assert Clean(props[0].value);
      assert !props[0].value.Undefined?;
      CopyOfClean(props[0].value);
      CopyPropsOfClean(props[1..]);
      assert [props[0]] + props[1..] == props;
    }
  }

  /** Redaction never introduces `undefined`. */
  lemma {:induction false} RedactKeepsClean(v: Json, asWritten: bool)
    requires Clean(v)
    ensures Clean(Redact(v, asWritten))
    decreases v, 1
  {
    match v
    case Arr(items) =>
      forall i | 0 <= i < |items| ensures Clean(Redact(items[i], asWritten)) {
        RedactKeepsClean(items[i], asWritten);
      }
    case Obj(props) => RedactPropsKeepClean(props, asWritten);
    case _ =>
  }

  lemma {:induction false} RedactPropsKeepClean(props: seq<Prop>, asWritten: bool)
    requires forall i :: 0 <= i < |props| ==> CleanProp(props[i])
    ensures forall i :: 0 <= i < |RedactProps(props, asWritten)| ==> CleanProp(RedactProps(props, asWritten)[i])
    decreases props
  {
    if props != [] {
      assert CleanProp(props[0]);
      RedactPropsKeepClean(props[1..], asWritten);
      var p := props[0];
      if !(asWritten && p.key == ProtoKey) {
        if !IsSensitiveKey(p.key) && !IsExpiryKey(p.key) {
          RedactKeepsClean(p.value, asWritten);
        }
        assert RedactProps(props, asWritten)[1..] == RedactProps(props[1..], asWritten);
      }
    }
  }

  /**
   * `redactPayload`: redacts the JSON round-trip copy, and returns the
   * payload untouched when the round trip throws. `asWritten` picks the
   * object copy: `true` is the store's own, which loses `"__proto__"`
   * keys, `false` the corrected one.
   */
  function RedactPayload(payload: Json, asWritten: bool): (r: Json)
    ensures payload.Undefined? ==> r == payload
    ensures Clean(payload) && !asWritten ==> r == RedactValue(payload)
    ensures Clean(payload) && asWritten ==> r == RedactValueAsWritten(payload)
    ensures !payload.Undefined? ==> Clean(r)
    ensures Scrubbed(r)
  {
    match JsonCopy(payload)
    case None => payload
    case Some(c) =>
      RedactScrubbed(c, asWritten);
      RedactKeepsClean(c, asWritten);
      Redact(c, asWritten)
  }

  // ---------------------------------------------------------------------
  // The "__proto__" key

  /** No object anywhere in `v` has a `"__proto__"` key. */
  predicate NoProtoKey(v: Json)
    decreases v
  {
    match v
    case Arr(items) => forall i :: 0 <= i < |items| ==> NoProtoKey(items[i])
    case Obj(props) => forall i :: 0 <= i < |props| ==> NoProtoKeyProp(props[i])
    case _ => true
  }

  predicate NoProtoKeyProp(p: Prop)
    decreases p
  {
    p.key != ProtoKey && NoProtoKey(p.value)
  }

  /** Without a `"__proto__"` key the code as written and the corrected redaction agree. */
  lemma {:induction false} AsWrittenAgreesWithoutProto(v: Json)
    requires NoProtoKey(v)
    ensures RedactValueAsWritten(v) == RedactValue(v)
    decreases v, 1
  {
    match v
    case Arr(items) =>
      forall i | 0 <= i < |items| ensures Redact(items[i], true) == Redact(items[i], false) {
        AsWrittenAgreesWithoutProto(items[i]);
      }
      assert RedactItems(items, true) == RedactItems(items, false);
    case Obj(props) => PropsAgreeWithoutProto(props);
    case _ =>
  }

  lemma {:induction false} PropsAgreeWithoutProto(props: seq<Prop>)
    requires forall i :: 0 <= i < |props| ==> NoProtoKeyProp(props[i])
    ensures RedactProps(props, true) == RedactProps(props, false)
    decreases props
  {
    if props != [] {
      assert NoProtoKeyProp(props[0]);
      AsWrittenAgreesWithoutProto(props[0].value);
      PropsAgreeWithoutProto(props[1..]);
    }
  }

  /** `"__proto__"` is neither a sensitive nor an expiry key. */
  lemma ProtoKeyIsPlain()
    ensures !IsSensitiveKey(ProtoKey) && !IsExpiryKey(ProtoKey)
  {
    var l := Lower(ProtoKey);
    assert l[0] == '_' by { assert ProtoKey[0] == '_'; }
    ListedKeysStartWithLetter();
  }

  predicate StartsWithLetter(k: string) {
    |k| > 0 && 'a' <= k[0] <= 'z'
  }

  lemma ListedKeysStartWithLetter()
    ensures forall i :: 0 <= i < |SensitiveKeys| ==> StartsWithLetter(SensitiveKeys[i])
    ensures forall i :: 0 <= i < |ExpiryKeys| ==> StartsWithLetter(ExpiryKeys[i])
  {
  }

  /** The witness, as written: `{"__proto__": "x"}` loses its only key. */
  lemma ProtoKeyDropped()
    ensures RedactValueAsWritten(Obj([Prop(ProtoKey, Str("x"))])) == Obj([])
  {
    var props := [Prop(ProtoKey, Str("x"))];
    assert props[1..] == [];
    assert RedactProps(props, true) == RedactProps([], true);
  }

  /** The witness, corrected: `{"__proto__": "x"}` comes back unchanged. */
  lemma ProtoKeyKept()
    ensures RedactValue(Obj([Prop(ProtoKey, Str("x"))])) == Obj([Prop(ProtoKey, Str("x"))])
  {
    ProtoEntryKept();
    SingleProp(ProtoKey, Str("x"));
  }

  /** A one-entry object is redacted entry by entry. */
  lemma SingleProp(k: string, v: Json)
    ensures RedactValue(Obj([Prop(k, v)])) == Obj([Prop(k, RedactEntry(k, v, false))])
  {
    var props := [Prop(k, v)];
    assert props[1..] == [];
    assert RedactProps(props, false) == [Prop(k, RedactEntry(k, v, false))] + RedactProps([], false);
    assert RedactValue(Obj(props)) == Redact(Obj(props), false);
  }

  lemma ProtoEntryKept()
    ensures RedactEntry(ProtoKey, Str("x"), false) == Str("x")
  {
    ProtoKeyIsPlain();
    PlainLetterKept();
  }

  lemma PlainLetterKept()
    ensures MaskCardLike("x") == "x"
  {
    assert DigitPrefix("x") == 0;
    assert "x"[1..] == [];
  }

  /**
   * The witness at the store: a payload `{"__proto__": "x"}` is stored as
   * `{}` by the store's own redaction, and whole by the corrected one.
   */
  lemma ProtoPayload()
    ensures RedactPayload(Obj([Prop(ProtoKey, Str("x"))]), true) == Obj([])
    ensures RedactPayload(Obj([Prop(ProtoKey, Str("x"))]), false) == Obj([Prop(ProtoKey, Str("x"))])
  {
    var v := Obj([Prop(ProtoKey, Str("x"))]);
    assert CleanProp(v.props[0]);
    assert Clean(v);
    ProtoKeyDropped();
    ProtoKeyKept();
  }
}
