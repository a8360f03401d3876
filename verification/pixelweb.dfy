/**
 * The browser-side PixelPay bridge (`src/lib/pixelpay-web.ts`): the card,
 * billing and order models built from the checkout form before a 3-D Secure
 * sale or authorisation, and the normalisation of whatever the SDK answers
 * into one result shape.
 */
module PixelWeb {
  import opened Maybe
  import opened Text
  import opened Js
  import Amount

  // ---------------------------------------------------------------------
  // Building the SDK models

  datatype CardInput = CardInput(number: string, holder: string, exp: string, cvv: string)

  /** Optional fields are `None` when absent. */
  datatype BillingInput = BillingInput(
    address: Option<string>, country: Option<string>, state: Option<string>,
    city: Option<string>, phone: Option<string>)

  datatype OrderInput = OrderInput(
    id: string, description: Option<string>, customerName: Option<string>, customerEmail: Option<string>)

  /** `amount` is a number or a string, as the form hands it over. */
  datatype TransactionInput = TransactionInput(
    amount: Json, currency: string, order: OrderInput, card: CardInput, billing: BillingInput)

  /** The expiry parts are `None` where `parseInt` gives `NaN`. */
  datatype Card = Card(
    number: string, cvv2: string, expireMonth: Option<int>, expireYear: Option<int>, cardholder: string)

  datatype Billing = Billing(address: string, country: string, state: string, city: string, phone: string)

  /** `amount` is `None` where `Number(...)` gives `NaN`. */
  datatype Order = Order(
    id: string, amount: Option<Decimal>, currency: string, note: string,
    customerName: string, customerEmail: string)

  datatype Models = Models(card: Card, billing: Billing, order: Order)

  /** `v || fallback` for an optional string: empty counts as missing. */
  function OrElse(v: Option<string>, fallback: string): (r: string)
    ensures v.Some? && v.value != [] ==> r == v.value
    ensures v.None? || v.value == [] ==> r == fallback
  {
    if v.Some? && v.value != [] then v.value else fallback
  }

  /** A base-10 integer read from the front of `part`, an empty part counting as `0`. */
  function ParsePart(part: string): Option<int> {
    ParseInt(if part == [] then "0" else part)
  }

  /**
   * `exp.split("/")` read as month and year; a year below 100 is taken as
   * 20xx. A missing year reads as `"0"`, hence 2000; `NaN` stays `NaN`.
   */
  function Expiry(exp: string): (my: (Option<int>, Option<int>))
    ensures ParsePart(YearPart(exp)).Some? && ParsePart(YearPart(exp)).value >= 0 ==>
      my.1.Some? && my.1.value >= 100
    ensures my.1.None? <==> ParsePart(YearPart(exp)).None?
  {
    var month := ParsePart(Split(exp, '/')[0]);
    var year := match ParsePart(YearPart(exp))
      case None => None
      case Some(y) => Some(if y < 100 then 2000 + y else y);
    (month, year)
  }

  /** The second piece of `exp.split("/")`, or `""` where there is none. */
  function YearPart(exp: string): string {
    var parts := Split(exp, '/');
    if |parts| >= 2 then parts[1] else []
  }

  /**
   * `Number(s)` for a string: surrounding whitespace is ignored, a blank
   * text is 0, and otherwise the whole text must be one signed decimal.
   */
  function NumberOf(s: string): (r: Option<Decimal>)
    ensures AllSpace(s) ==> r == Some(Decimal(0, 0))
  {
    TrimIsSlice(s);
    var t := Trim(s);
    if t == [] then Some(Decimal(0, 0))
    else
      var u := SignStripped(t);
      if Consumed(u) == |u| then Amount.ParseDecimalPrefix(t) else None
  }

  /** How much of `u` the integer digits, a `.` and the fraction digits cover. */
  function Consumed(u: string): nat {
    var i := DigitPrefix(u);
    if i < |u| && u[i] == '.' then i + 1 + |Amount.FractionDigits(u)| else i
  }

  /**
   * The order amount handed to the SDK: a number as it is, a string read
   * whole as a decimal (blank is 0); the form supplies nothing else.
   */
  function AmountOf(v: Json): (r: Option<Decimal>)
    ensures v.Num? ==> r == Some(v.n)
    ensures v.Str? && AllSpace(v.s) ==> r == Some(Decimal(0, 0))
    ensures !v.Num? && !v.Str? ==> r.None?
  {
    match v
    case Num(d) => Some(d)
    case Str(s) => NumberOf(s)
    case _ => None
  }

  function CardOf(c: CardInput): (card: Card)
    ensures forall i :: 0 <= i < |card.number| ==> !IsSpace(card.number[i])
    ensures (card.expireMonth, card.expireYear) == Expiry(c.exp)
  {
    Card(RemoveSpaces(c.number), c.cvv, Expiry(c.exp).0, Expiry(c.exp).1, c.holder)
  }

  function BillingOf(b: BillingInput): (r: Billing)
    ensures Upper(r.country) == r.country && Upper(r.state) == r.state
    ensures b.country.None? ==> r.country == "HN"
  {
    UpperIdempotent(OrElse(b.country, "HN"));
    UpperIdempotent(OrElse(b.state, ""));
    assert Upper("HN") == "HN";
    Billing(
      OrElse(b.address, ""), Upper(OrElse(b.country, "HN")), Upper(OrElse(b.state, "")),
      OrElse(b.city, ""), OrElse(b.phone, ""))
  }

  function OrderOf(input: TransactionInput): (r: Order)
    ensures Upper(r.currency) == r.currency
    ensures r.note != []
  {
    var currency := if input.currency == [] then "HNL" else input.currency;
    UpperIdempotent(currency);
    Order(
      input.order.id, AmountOf(input.amount), Upper(currency),
      OrElse(input.order.description, "Recarga"),
      OrElse(input.order.customerName, ""), OrElse(input.order.customerEmail, ""))
  }

  /** `buildModels`: the card, billing and order handed to the SDK request. */
  function BuildModels(input: TransactionInput): (m: Models)
    ensures m.card.cardholder == input.card.holder && m.card.cvv2 == input.card.cvv
    ensures m.order.id == input.order.id
  {
    Models(CardOf(input.card), BillingOf(input.billing), OrderOf(input))
  }

  // ---------------------------------------------------------------------
  // Facts about the models

  /** `MM/YY` written as integers reads back as that month and 20YY. */
  lemma ExpiryRoundTrip(m: int, y: int)
    ensures Expiry(IntText(m) + "/" + IntText(y)) ==
      (Some(m), Some(if y < 100 then 2000 + y else y))
  {
    var exp := IntText(m) + "/" + IntText(y);
    ExpiryParts(m, y);
    assert YearPart(exp) == IntText(y);
    ParsePartText(m);
    ParsePartText(y);
  }

  lemma ParsePartText(n: int)
    ensures ParsePart(IntText(n)) == Some(n)
  {
    ParseIntText(n);
  }

  lemma ExpiryParts(m: int, y: int)
    ensures Split(IntText(m) + "/" + IntText(y), '/') == [IntText(m), IntText(y)]
  {
    SlashFree(m);
    SlashFree(y);
    SplitAtFirst(IntText(m), '/', IntText(y));
    assert Split(IntText(y), '/') == [IntText(y)];
  }

  lemma SlashFree(n: int)
    ensures '/' !in IntText(n)
  {
    var r := NatText(if n < 0 then -n else n);
    assert forall i :: 0 <= i < |r| ==> IsDigit(r[i]);
    assert forall i :: 0 <= i < |IntText(n)| ==> IntText(n)[i] != '/';
  }

  /** Without a `/` the whole text is the month and the year is 2000. */
  lemma ExpiryWithoutSlash(exp: string)
    requires '/' !in exp
    ensures Expiry(exp) == (ParsePart(exp), Some(2000))
  {
    assert Split(exp, '/') == [exp];
    assert ParseInt("0") == Some(0) by {
      assert TrimStart("0") == "0";
      assert SignStripped("0") == "0";
      assert DigitPrefix("0") == 1;
      assert "0"[..1] == "0";
    }
  }

  /** Whitespace between card-number groups is dropped, the digits kept in order. */
  lemma CardNumberGroups(a: string, c: char, b: string)
    requires AllDigits(a) && AllDigits(b) && IsSpace(c)
    ensures RemoveSpaces(a + [c] + b) == a + b
  {
    FilterAppend(a + [c], b, NotSpace);
    SpaceDropped(a, c);
    FilterAll(b, NotSpace);
  }

  lemma SpaceDropped(a: string, c: char)
    requires AllDigits(a) && IsSpace(c)
    ensures Filter(a + [c], NotSpace) == a
  {
    FilterAppend(a, [c], NotSpace);
    FilterAll(a, NotSpace);
    FilterNone([c], NotSpace);
    assert a + [] == a;
  }

  /** A number with no whitespace in it is sent as typed. */
  lemma CardNumberUnspaced(n: string)
    requires forall i :: 0 <= i < |n| ==> !IsSpace(n[i])
    ensures RemoveSpaces(n) == n
  {
    FilterAll(n, NotSpace);
  }

  /** A missing or empty country is Honduras; a given one is upper-cased. */
  lemma CountryDefault(b: BillingInput)
    ensures b.country.None? || b.country.value == [] ==> BillingOf(b).country == "HN"
    ensures b.country.Some? && b.country.value != [] ==> BillingOf(b).country == Upper(b.country.value)
  {
    assert Upper("HN") == "HN";
  }

  /** Missing description and currency fall back to `"Recarga"` and HNL. */
  lemma OrderDefaults(input: TransactionInput)
    requires input.currency == [] && (input.order.description.None? || input.order.description.value == [])
    ensures OrderOf(input).currency == "HNL"
    ensures OrderOf(input).note == "Recarga"
  {
    assert Upper("HNL") == "HNL";
  }

  /**
   * Billing fields: a given non-empty value is used, upper-cased for the
   * country and the state; a missing or empty one becomes `""`, except the
   * country, which becomes `"HN"`.
   */
  lemma BillingValues(b: BillingInput)
    ensures var r := BillingOf(b);
      && (b.address.Some? && b.address.value != [] ==> r.address == b.address.value)
      && (b.address.None? || b.address.value == [] ==> r.address == "")
      && (b.state.Some? && b.state.value != [] ==> r.state == Upper(b.state.value))
      && (b.state.None? || b.state.value == [] ==> r.state == "")
      && (b.city.Some? && b.city.value != [] ==> r.city == b.city.value)
      && (b.city.None? || b.city.value == [] ==> r.city == "")
      && (b.phone.Some? && b.phone.value != [] ==> r.phone == b.phone.value)
      && (b.phone.None? || b.phone.value == [] ==> r.phone == "")
  {
    assert Upper("") == "";
  }

  /**
   * Order fields: the id is kept, the amount is the form's amount read as a
   * number, a given currency is upper-cased, and a given description,
   * customer name or e-mail is used as it is (`""` when missing).
   */
  lemma OrderValues(input: TransactionInput)
    ensures var r := OrderOf(input);
      && r.id == input.order.id
      && r.amount == AmountOf(input.amount)
      && (input.currency != [] ==> r.currency == Upper(input.currency))
      && (input.order.description.Some? && input.order.description.value != [] ==>
            r.note == input.order.description.value)
      && (input.order.customerName.Some? ==> r.customerName == input.order.customerName.value)
      && (input.order.customerName.None? ==> r.customerName == "")
      && (input.order.customerEmail.Some? ==> r.customerEmail == input.order.customerEmail.value)
      && (input.order.customerEmail.None? ==> r.customerEmail == "")
  {
  }

  /** A plain decimal is read exactly. */
  lemma NumberOfDecimal(w: string, f: string)
    requires AllDigits(w) && AllDigits(f) && |w| > 0 && |f| > 0
    ensures NumberOf(w + "." + f) == Some(Decimal(DigitsValue(w + f), |f|))
  {
    var t := w + "." + f;
    DecimalUnpadded(w, f);
    DecimalConsumed(w, f);
    assert t == w + "." + f + [];
    Amount.ReadDecimal(w, f, []);
  }

  lemma DecimalUnpadded(w: string, f: string)
    requires AllDigits(w) && AllDigits(f) && |w| > 0 && |f| > 0
    ensures Trim(w + "." + f) == w + "." + f
    ensures SignStripped(w + "." + f) == w + "." + f
  {
    var t := w + "." + f;
    assert t[0] == w[0] && t[|t| - 1] == f[|f| - 1];
    TrimUnpadded(t);
  }

  lemma DecimalConsumed(w: string, f: string)
    requires AllDigits(w) && AllDigits(f)
    ensures Consumed(w + "." + f) == |w + "." + f|
  {
    var t := w + "." + f;
    assert t == w + "." + f + [];
    Amount.DecimalParts(w, f, []);
    assert t[|w|] == '.';
  }

  /** Unlike `parseFloat`, trailing text makes the whole amount `NaN`. */
  lemma NumberOfRejectsTail(w: string, tail: string)
    requires AllDigits(w) && |w| > 0
    requires tail != [] && !IsDigit(tail[0]) && tail[0] != '.' && !IsSpace(tail[|tail| - 1])
    ensures NumberOf(w + tail) == None
    ensures Amount.ParseDecimalPrefix(w + tail) == Some(Decimal(DigitsValue(w), 0))
  {
    var t := w + tail;
    assert t[0] == w[0] && t[|t| - 1] == tail[|tail| - 1];
    TrimUnpadded(t);
    assert SignStripped(t) == t;
    DigitPrefixOfDigits(w, tail);
    assert t[|w|] == tail[0];
    Amount.ReadInteger(w, tail);
  }

  // ---------------------------------------------------------------------
  // Normalising the SDK answer

  /** `PixelResult`; `data` is `None` where the literal has no `data`. */
  datatype PixelResult = PixelResult(success: Json, message: Json, data: Option<seq<Prop>>)

  const UnknownAnswer := "Respuesta desconocida del gateway"

  /** The own enumerable properties `{...v}` copies: an array gives its indices. */
  function SpreadProps(v: Json): seq<Prop> {
    match v
    case Obj(props) => props
    case Arr(items) => IndexProps(items, 0)
    case _ => []
  }

  function IndexProps(items: seq<Json>, from: nat): (r: seq<Prop>)
    ensures |r| == |items|
    ensures forall i :: 0 <= i < |r| ==> r[i] == Prop(NatText(from + i), items[i])
    decreases |items|
  {
    if items == [] then [] else [Prop(NatText(from), items[0])] + IndexProps(items[1..], from + 1)
  }

  /** The answer's `data` when it is an object or an array, and an empty object otherwise. */
  function DataOf(r: Json): (d: Json)
    ensures IsObjectLike(d)
    ensures IsObjectLike(Get(r, "data")) ==> d == Get(r, "data")
    ensures !IsObjectLike(Get(r, "data")) ==> d == Obj([])
  {
    var d := Get(r, "data");
    if Truthy(d) && IsObjectLike(d) then d else Obj([])
  }

  /**
   * The approval flag: the one inside `data` unless it is missing or `null`,
   * then the top-level one on the same terms, then `false`.
   */
  function Approved(r: Json): (a: Json)
    ensures !Nullish(a)
  {
    Coalesce(Coalesce(Get(DataOf(r), "response_approved"), Get(r, "response_approved")), Bool(false))
  }

  /**
   * `toPixelResult`: anything but an object or array is an unknown answer;
   * otherwise `success` falls back to the approval flag, the message is the
   * first non-empty of three fields, and `data` is copied with the approval
   * flag, payment uuid and payment hash written over it.
   */
  function ToPixelResult(resp: Json): (p: PixelResult)
    ensures !IsObjectLike(resp) ==> p == PixelResult(Bool(false), Str(UnknownAnswer), None)
    ensures IsObjectLike(resp) ==> p.data.Some? && !Nullish(p.success)
  {
    if !(Truthy(resp) && IsObjectLike(resp)) then PixelResult(Bool(false), Str(UnknownAnswer), None)
    else
      var data := DataOf(resp);
      var approved := Approved(resp);
      var success := Coalesce(Coalesce(Get(resp, "success"), approved), Bool(false));
      var message := Or(Or(Get(resp, "message"), Get(resp, "status_message")), Get(resp, "response_message"));
      var uuid := Coalesce(Coalesce(Get(data, "payment_uuid"), Get(resp, "payment_uuid")), Null);
      var hash := Coalesce(Coalesce(Get(data, "payment_hash"), Get(resp, "payment_hash")), Null);
      var out := Put(Put(Put(SpreadProps(data), "response_approved", approved), "payment_uuid", uuid), "payment_hash", hash);
      PixelResult(success, message, Some(out))
  }

  /** The three flags written over the copied `data`. */
  lemma ResultData(resp: Json)
    requires IsObjectLike(resp)
    ensures var out := ToPixelResult(resp).data.value;
      && Lookup(out, "response_approved") == Approved(resp)
      && Lookup(out, "payment_uuid") == Coalesce(Coalesce(Get(DataOf(resp), "payment_uuid"), Get(resp, "payment_uuid")), Null)
      && Lookup(out, "payment_hash") == Coalesce(Coalesce(Get(DataOf(resp), "payment_hash"), Get(resp, "payment_hash")), Null)
  {
    var data := DataOf(resp);
    var approved := Approved(resp);
    var uuid := Coalesce(Coalesce(Get(data, "payment_uuid"), Get(resp, "payment_uuid")), Null);
    var hash := Coalesce(Coalesce(Get(data, "payment_hash"), Get(resp, "payment_hash")), Null);
    var p1 := Put(SpreadProps(data), "response_approved", approved);
    var p2 := Put(p1, "payment_uuid", uuid);
    LookupPut(SpreadProps(data), "response_approved", approved, "payment_uuid");
    LookupPut(p1, "payment_uuid", uuid, "response_approved");
    LookupPut(p2, "payment_hash", hash, "response_approved");
    LookupPut(p2, "payment_hash", hash, "payment_uuid");
  }

  /** Every other field of the gateway's `data` object comes through unchanged. */
  lemma OtherDataKept(resp: Json, key: string)
    requires IsObjectLike(resp) && DataOf(resp).Obj?
    requires key != "response_approved" && key != "payment_uuid" && key != "payment_hash"
    ensures Lookup(ToPixelResult(resp).data.value, key) == Get(DataOf(resp), key)
  {
    var data := DataOf(resp);
    var approved := Approved(resp);
    var uuid := Coalesce(Coalesce(Get(data, "payment_uuid"), Get(resp, "payment_uuid")), Null);
    var hash := Coalesce(Coalesce(Get(data, "payment_hash"), Get(resp, "payment_hash")), Null);
    var p1 := Put(SpreadProps(data), "response_approved", approved);
    var p2 := Put(p1, "payment_uuid", uuid);
    LookupPut(SpreadProps(data), "response_approved", approved, key);
    LookupPut(p1, "payment_uuid", uuid, key);
    LookupPut(p2, "payment_hash", hash, key);
  }

  /** The copied fields keep their order and the three flags appear once each. */
  lemma ResultDataKeys(resp: Json)
    requires IsObjectLike(resp) && UniqueKeys(SpreadProps(DataOf(resp)))
    ensures var out := ToPixelResult(resp).data.value;
      && UniqueKeys(out)
      && Keys(SpreadProps(DataOf(resp))) <= Keys(out)
      && |out| <= |SpreadProps(DataOf(resp))| + 3
  {
    var data := DataOf(resp);
    var approved := Approved(resp);
    var uuid := Coalesce(Coalesce(Get(data, "payment_uuid"), Get(resp, "payment_uuid")), Null);
    var hash := Coalesce(Coalesce(Get(data, "payment_hash"), Get(resp, "payment_hash")), Null);
    var p0 := SpreadProps(data);
    var p1 := Put(p0, "response_approved", approved);
    var p2 := Put(p1, "payment_uuid", uuid);
    PutUnique(p0, "response_approved", approved);
    PutUnique(p1, "payment_uuid", uuid);
    PutUnique(p2, "payment_hash", hash);
  }

  /** A `false` inside `data` beats a `true` at the top level. */
  lemma DataFlagWins(resp: Json)
    requires IsObjectLike(resp)
    requires Get(DataOf(resp), "response_approved") == Bool(false)
    requires Get(resp, "response_approved") == Bool(true)
    ensures Approved(resp) == Bool(false)
    ensures Lookup(ToPixelResult(resp).data.value, "response_approved") == Bool(false)
  {
    ResultData(resp);
  }

  /** With no `success` of its own, the answer succeeds exactly when it is approved. */
  lemma SuccessFollowsApproval(resp: Json)
    requires IsObjectLike(resp) && Nullish(Get(resp, "success"))
    ensures ToPixelResult(resp).success == Approved(resp)
  {
  }

  /** An empty `message` falls through to `status_message`, then `response_message`. */
  lemma MessageFallsThrough(resp: Json)
    requires IsObjectLike(resp) && !Truthy(Get(resp, "message"))
    ensures !Truthy(Get(resp, "status_message")) ==> ToPixelResult(resp).message == Get(resp, "response_message")
    ensures Truthy(Get(resp, "status_message")) ==> ToPixelResult(resp).message == Get(resp, "status_message")
  {
  }

  /** An array in `data` is spread by index, so none of its items is read as a flag. */
  lemma ArrayDataSpreads(items: seq<Json>)
    ensures forall i :: 0 <= i < |items| ==> SpreadProps(Arr(items))[i] == Prop(NatText(i), items[i])
  {
  }
}
