/**
 * Creating an order (`src/app/api/v1/checkout/init/route.ts`): the shared
 * app-key guard, reading the body with its field precedence and defaults,
 * the amount and currency checks, the stored order document and the
 * checkout link handed back to the caller.
 */
module Init {
  import opened Maybe
  import opened Text
  import opened Js
  import opened OrderStore
  import Uri
  import Amount
  import Confirm
  import Gate

  // ---------------------------------------------------------------------
  // App key

  /** `INTERNAL_APP_KEY?.trim()`, with unset read as blank. */
  function ExpectedKey(env: Option<string>): string {
    if env.Some? then Trim(env.value) else []
  }

  /**
   * `allowFromAppKey`: with no key configured every caller passes; otherwise
   * the `X-App-Key` header, trimmed, must equal the trimmed key.
   */
  function AllowFromAppKey(env: Option<string>, header: Option<string>): (ok: bool)
    ensures ExpectedKey(env) == [] ==> ok
    ensures ExpectedKey(env) != [] && header.None? ==> !ok
    ensures ok && ExpectedKey(env) != [] ==> header.Some? && Trim(header.value) == ExpectedKey(env)
  {
    var expected := ExpectedKey(env);
    if expected == [] then true
    else header.Some? && Trim(header.value) == expected
  }

  /** The configured key itself, with or without its padding, is accepted. */
  lemma AppKeyAccepted(key: string)
    ensures AllowFromAppKey(Some(key), Some(key))
    ensures AllowFromAppKey(Some(key), Some(Trim(key)))
  {
    TrimTwice(key);
  }

  /** With a key configured, a header passes exactly when both sides agree once trimmed. */
  lemma AppKeyMatch(key: string, header: string)
    requires Trim(key) != []
    ensures AllowFromAppKey(Some(key), Some(header)) <==> Trim(header) == Trim(key)
  {
  }

  /** Once a key is configured, a blank header is refused like a missing one. */
  lemma BlankHeaderRefused(key: string, header: string)
    requires Trim(key) != []
    requires AllSpace(header)
    ensures !AllowFromAppKey(Some(key), Some(header))
    ensures !AllowFromAppKey(Some(key), None)
  {
    TrimIsSlice(header);
  }

  /** A blank `INTERNAL_APP_KEY` switches the guard off, as an unset one does. */
  lemma BlankKeyAllowsAll(key: string, header: Option<string>)
    requires AllSpace(key)
    ensures AllowFromAppKey(Some(key), header)
    ensures AllowFromAppKey(None, header)
  {
    TrimIsSlice(key);
  }

  // ---------------------------------------------------------------------
  // Currency

  datatype Currency = HNL | USD | NIO {
    function Code(): string {
      match this
      case HNL => "HNL"
      case USD => "USD"
      case NIO => "NIO"
    }
  }

  /** The currency whose code is exactly `s`, if any. */
  function CurrencyOf(s: string): (c: Option<Currency>)
    ensures c.Some? ==> c.value.Code() == s
    ensures c.None? ==> forall x: Currency :: x.Code() != s
  {
    if s == "HNL" then Some(HNL)
    else if s == "USD" then Some(USD)
    else if s == "NIO" then Some(NIO)
    else None
  }

  /** `toCurrency`: `String(v ?? "")` upper-cased, and HNL when that is no known code. */
  function ToCurrency(v: Json): (c: Currency)
    ensures var u := Upper(ToJsString(Coalesce(v, Str(""))));
      c.Code() == u || (c == HNL && forall x: Currency :: x.Code() != u)
  {
    var u := Upper(ToJsString(Coalesce(v, Str(""))));
    match CurrencyOf(u)
    case Some(c) => c
    case None => HNL
  }

  /** Every code reads back as its own currency. */
  lemma ToCurrencyCode(c: Currency)
    ensures ToCurrency(Str(c.Code())) == c
  {
    UpperFixed(c);
  }

  lemma UpperFixed(c: Currency)
    ensures Upper(c.Code()) == c.Code()
  {
    var s := c.Code();
    assert forall i :: 0 <= i < |s| ==> 'A' <= s[i] <= 'Z';
  }

  /** Codes are read without regard to case: `"usd"` is USD. */
  lemma ToCurrencyIgnoresCase(s: string)
    ensures ToCurrency(Str(Upper(s))) == ToCurrency(Str(s))
  {
    UpperIdempotent(s);
  }

  /** A code written in lower case reads as that currency too: `"usd"` is USD. */
  lemma ToCurrencyLowerCase(c: Currency)
    ensures ToCurrency(Str(Lower(c.Code()))) == c
  {
    var s := c.Code();
    assert forall i :: 0 <= i < |s| ==> 'A' <= s[i] <= 'Z';
    assert Upper(Lower(s)) == s;
  }

  /** Anything that is not a known code falls back to HNL, missing values included. */
  lemma UnknownCurrencyIsHnl(v: Json)
    requires forall x: Currency :: x.Code() != Upper(ToJsString(Coalesce(v, Str(""))))
    ensures ToCurrency(v) == HNL
  {
  }

  lemma MissingCurrencyIsHnl(v: Json)
    requires Nullish(v)
    ensures ToCurrency(v) == HNL
  {
    assert Upper(ToJsString(Coalesce(v, Str("")))) == [];
  }

  // ---------------------------------------------------------------------
  // Amount range

  const MinAmount := 100
  const MaxAmount := 1500

  /** `!(amount < MIN || amount > MAX)` on the exact decimal. */
  predicate InRange(d: Decimal) {
    MinAmount * Pow10(d.scale) <= d.unscaled <= MaxAmount * Pow10(d.scale)
  }

  /** `m * p <= u` on integers is `m <= u / p` on the reals, for positive `p`. */
  lemma ScaledLe(m: int, u: int, p: int)
    requires p > 0
    ensures m * p <= u <==> m as real <= u as real / p as real
  {
    var v := u as real / p as real;
    assert v * p as real == u as real;
    assert (m * p) as real == m as real * p as real;
  }

  lemma ScaledGe(m: int, u: int, p: int)
    requires p > 0
    ensures u <= m * p <==> u as real / p as real <= m as real
  {
    var v := u as real / p as real;
    assert v * p as real == u as real;
    assert (m * p) as real == m as real * p as real;
  }

  /** The integer test is the range test on the value: 100 <= amount <= 1500. */
  lemma InRangeValue(d: Decimal)
    ensures InRange(d) <==> MinAmount as real <= Value(d) <= MaxAmount as real
  {
    ScaledLe(MinAmount, d.unscaled, Pow10(d.scale));
    ScaledGe(MaxAmount, d.unscaled, Pow10(d.scale));
  }

  // ---------------------------------------------------------------------
  // Reading the body

  const DefaultDescription := "Recarga saldo Hondubet"

  /** The raw fields, a top-level field first and `order.<field>` second. */
  datatype Fields = Fields(order: Json, amount: Json, currency: Json, description: Json)

  function FieldsOf(body: Json): (f: Fields)
    ensures !Nullish(Get(body, "amount")) ==> f.amount == Get(body, "amount")
    ensures Nullish(Get(body, "amount")) ==> f.amount == Get(f.order, "amount")
    ensures !Nullish(f.currency) && !Nullish(f.description)
  {
    var order := Coalesce(Get(body, "order"), Obj([]));
    Fields(
      order,
      Coalesce(Get(body, "amount"), Get(order, "amount")),
      Coalesce(Coalesce(Get(body, "currency"), Get(order, "currency")), Str("HNL")),
      Coalesce(Coalesce(Get(body, "description"), Get(order, "description")), Str(DefaultDescription)))
  }

  /** A top-level field shadows the nested one whenever it is neither null nor missing. */
  lemma TopLevelWins(body: Json)
    ensures var f := FieldsOf(body);
      && (!Nullish(Get(body, "currency")) ==> f.currency == Get(body, "currency"))
      && (!Nullish(Get(body, "description")) ==> f.description == Get(body, "description"))
  {
  }

  /** With neither level giving one, the currency is HNL and the description the default. */
  lemma FieldDefaults(body: Json)
    requires Nullish(Get(body, "currency")) && Nullish(Get(body, "description"))
    requires Nullish(Get(FieldsOf(body).order, "currency"))
    requires Nullish(Get(FieldsOf(body).order, "description"))
    ensures FieldsOf(body).currency == Str("HNL")
    ensures FieldsOf(body).description == Str(DefaultDescription)
  {
  }

  /** A body that is not an object reads as `{}`: no order, no amount. */
  lemma NonObjectBody(raw: Option<Json>)
    requires raw.None? || !IsObjectLike(raw.value)
    ensures FieldsOf(Confirm.BodyOf(raw)).amount == Undefined
    ensures FieldsOf(Confirm.BodyOf(raw)).order == Obj([])
  {
  }

  /**
   * `(order.order_id ?? "").trim()`, or the generated id when that is empty;
   * `None` when the value is neither a string nor nullish, where `.trim()`
   * throws.
   */
  function OrderIdOf(order: Json, generated: string): (r: Option<string>)
    ensures r.None? <==> !Nullish(Get(order, "order_id")) && !Get(order, "order_id").Str?
  {
    match Coalesce(Get(order, "order_id"), Str(""))
    case Str(s) => Some(if Trim(s) == [] then generated else Trim(s))
    case _ => None
  }

  /** A supplied id is used trimmed; a missing or blank one is replaced. */
  lemma OrderIdChoice(order: Json, generated: string)
    ensures Get(order, "order_id").Str? && !AllSpace(Get(order, "order_id").s) ==>
      OrderIdOf(order, generated) == Some(Trim(Get(order, "order_id").s))
    ensures Nullish(Get(order, "order_id")) ==> OrderIdOf(order, generated) == Some(generated)
    ensures Get(order, "order_id").Str? && AllSpace(Get(order, "order_id").s) ==>
      OrderIdOf(order, generated) == Some(generated)
  {
    if Get(order, "order_id").Str? {
      TrimIsSlice(Get(order, "order_id").s);
    }
  }

  // ---------------------------------------------------------------------
  // The stored order

  /** The payment mode: authorisation only for exactly `"auth"`, a sale otherwise. */
  function ModeOf(body: Json): (m: string)
    ensures m == "auth" || m == "sale"
    ensures m == "auth" <==> Get(body, "mode") == Str("auth")
  {
    if Get(body, "mode") == Str("auth") then "auth" else "sale"
  }

  function OrderDoc(id: string, amount: Decimal, currency: Currency, f: Fields, body: Json): Doc {
    map[
      OrderId := Val(Str(id)),
      Amount := Val(Num(amount)),
      Currency := Val(Str(currency.Code())),
      Description := Val(f.description),
      Customer := Val(Coalesce(Get(body, "customer"), Null)),
      Billing := Val(Coalesce(Get(body, "billing"), Null)),
      Partner := Val(Coalesce(Get(body, "partner"), Str("HONDUBET"))),
      Mode := Val(Str(ModeOf(body))),
      Status := Val(Str("CREATED")),
      CreatedAt := ServerTimestamp]
  }

  // ---------------------------------------------------------------------
  // Checkout link

  const DefaultBase := "http://127.0.0.1:3000"

  /**
   * The public base of checkout links: the base-URL variable when it is set
   * and non-empty, otherwise the checkout-origin variable on the same terms,
   * otherwise the local development address.
   */
  function BaseUrl(baseEnv: Option<string>, originEnv: Option<string>): (b: string)
    ensures b != []
    ensures baseEnv.Some? && baseEnv.value != [] ==> b == baseEnv.value
    ensures (baseEnv.None? || baseEnv.value == []) && originEnv.Some? && originEnv.value != [] ==>
      b == originEnv.value
    ensures (baseEnv.None? || baseEnv.value == []) && (originEnv.None? || originEnv.value == []) ==>
      b == DefaultBase
  {
    var first := Gate.OrEmpty(baseEnv);
    var second := Gate.OrEmpty(originEnv);
    if first != [] then first else if second != [] then second else DefaultBase
  }

  /** `s.replace(/\/$/, "")`: one trailing slash goes, nothing else changes. */
  function StripTrailingSlash(s: string): (r: string)
    ensures s == r + "/" || (r == s && (s == [] || s[|s| - 1] != '/'))
  {
    if s != [] && s[|s| - 1] == '/' then
      assert s == s[..|s| - 1] + "/";
      s[..|s| - 1]
    else s
  }

  /** Only the last slash is removed: `"b//"` keeps one. */
  lemma StripOneSlash(b: string)
    ensures StripTrailingSlash(b + "/") == b
  {
    assert (b + "/")[..|b|] == b;
  }

  const CheckoutPath := "/checkout/"
  const ModeQuery := "?mode="

  /**
   * The checkout link: the base without its trailing slash, the checkout
   * path, the order id as one encoded path segment that decodes back to the
   * id, and the mode as the query.
   */
  function CheckoutUrl(base: string, id: string, mode: string): (u: string)
    ensures var p := StripTrailingSlash(base) + CheckoutPath;
      var q := ModeQuery + mode;
      && |p| + |q| <= |u|
      && u[..|p|] == p
      && u[|u| - |q|..] == q
      && Uri.DecodeComponent(u[|p|..|u| - |q|]) == Some(id)
  {
    var p := StripTrailingSlash(base) + CheckoutPath;
    var e := Uri.EncodeComponent(id);
    var q := ModeQuery + mode;
    ThreeParts(p, e, q);
    Uri.DecodeEncode(id);
    p + e + q
  }

  lemma ThreeParts(p: string, e: string, q: string)
    ensures var u := p + e + q;
      && |p| + |q| <= |u|
      && u[..|p|] == p
      && u[|u| - |q|..] == q
      && u[|p|..|u| - |q|] == e
  {
  }

  /** The id sits in the link as one path segment that decodes back to it. */
  lemma CheckoutUrlCarriesId(base: string, id: string, mode: string)
    ensures var e := Uri.EncodeComponent(id);
      && '/' !in e && '?' !in e
      && Uri.DecodeComponent(e) == Some(id)
  {
    Uri.DecodeEncode(id);
  }

  /** Different orders never share a checkout link. */
  lemma CheckoutUrlInjective(base: string, id1: string, id2: string, mode: string)
    requires CheckoutUrl(base, id1, mode) == CheckoutUrl(base, id2, mode)
    ensures id1 == id2
  {
    var p := StripTrailingSlash(base) + CheckoutPath;
    var q := ModeQuery + mode;
    var e1, e2 := Uri.EncodeComponent(id1), Uri.EncodeComponent(id2);
    Regroup(StripTrailingSlash(base), CheckoutPath, e1, ModeQuery, mode);
    Regroup(StripTrailingSlash(base), CheckoutPath, e2, ModeQuery, mode);
    MiddleCancel(p, e1, e2, q);
    Uri.EncodeInjective(id1, id2);
  }

  lemma Regroup(a: string, b: string, e: string, c: string, d: string)
    ensures a + b + e + c + d == (a + b) + e + (c + d)
  {
  }

  /** Equal texts with the same ends have the same middle. */
  lemma MiddleCancel(p: string, e1: string, e2: string, q: string)
    requires p + e1 + q == p + e2 + q
    ensures e1 == e2
  {
    var u := p + e1 + q;
    assert |e1| == |e2|;
    assert e1 == u[|p|..|p| + |e1|];
    assert e2 == (p + e2 + q)[|p|..|p| + |e2|];
  }

  // ---------------------------------------------------------------------
  // The handler

  datatype Env = Env(internalAppKey: Option<string>, baseUrl: Option<string>, checkoutOrigin: Option<string>)

  datatype Outcome = Outcome(http: int, response: Json, db: Db)

  const AmountInvalidMessage := "amount inv\U{00E1}lido o ausente"
  const RangePrefix := "Monto fuera de rango (100\U{2013}1500 "

  function Failure(error: string, message: string): Json {
    Obj([Prop("success", Bool(false)), Prop("error", Str(error)), Prop("message", Str(message))])
  }

  /** A 400 answer also echoes `http: 400` in its body. */
  function BadRequest(error: string, message: string): Json {
    Obj(Failure(error, message).props + [Prop("http", Num(Decimal(400, 0)))])
  }

  function Created(id: string, url: string): Json {
    Obj([Prop("success", Bool(true)), Prop("order_id", Str(id)), Prop("checkout_url", Str(url))])
  }

  /**
   * `POST /api/v1/checkout/init`. `raw` is the parsed body (`None` when it
   * does not parse), `generated` stands for `newOrderId()` and `thrown` for
   * the message of the `TypeError` a non-string `order_id` raises.
   * `asWritten` picks the amount reading: `true` is the route's own,
   * `false` the one corrected for thousands separators.
   */
  function InitPost(env: Env, appKey: Option<string>, raw: Option<Json>, db: Db, generated: string, thrown: string, asWritten: bool): (o: Outcome)
    ensures o.http in {200, 400, 401, 500}
    ensures o.http == 401 <==> !AllowFromAppKey(env.internalAppKey, appKey)
    ensures o.http != 200 ==> o.db == db
    ensures o.http == 200 ==> |o.db.Keys - db.Keys| <= 1
  {
    if !AllowFromAppKey(env.internalAppKey, appKey) then Outcome(401, Gate.UnauthorizedBody, db)
    else CreateOrder(env, Confirm.BodyOf(raw), db, generated, thrown, asWritten)
  }

  /** Everything after the key check, on the body as read. */
  function CreateOrder(env: Env, body: Json, db: Db, generated: string, thrown: string, asWritten: bool): (o: Outcome)
    ensures o.http in {200, 400, 500}
    ensures o.http != 200 ==> o.db == db
    ensures o.http == 200 ==> |o.db.Keys - db.Keys| <= 1
  {
    var f := FieldsOf(body);
    match OrderIdOf(f.order, generated)
    case None => Outcome(500, Failure("INIT_FAILED", thrown), db)
    case Some(id) =>
      var amount := Amount.ToNumberFlex(f.amount, asWritten);
      var currency := ToCurrency(f.currency);
      if amount.None? then Outcome(400, BadRequest("AMOUNT_INVALID", AmountInvalidMessage), db)
      else if !InRange(amount.value) then
        Outcome(400, BadRequest("AMOUNT_OUT_OF_RANGE", RangePrefix + currency.Code() + ")"), db)
      else
        var mode := ModeOf(body);
        var url := CheckoutUrl(BaseUrl(env.baseUrl, env.checkoutOrigin), id, mode);
        var after := Replace(db, id, OrderDoc(id, amount.value, currency, f, body));
        assert after.Keys - db.Keys <= {id};
        Outcome(200, Created(id, url), after)
  }

  /** The key check comes before anything is read. */
  lemma UnauthorizedFirst(env: Env, appKey: Option<string>, raw: Option<Json>, db: Db, generated: string, thrown: string, asWritten: bool)
    requires !AllowFromAppKey(env.internalAppKey, appKey)
    ensures InitPost(env, appKey, raw, db, generated, thrown, asWritten) == Outcome(401, Gate.UnauthorizedBody, db)
  {
  }

  /** An order is stored only when the id and the amount are both acceptable. */
  lemma StoredOnlyWhenValid(env: Env, body: Json, db: Db, generated: string, thrown: string, asWritten: bool)
    requires CreateOrder(env, body, db, generated, thrown, asWritten).http == 200
    ensures var f := FieldsOf(body);
      && OrderIdOf(f.order, generated).Some?
      && Amount.ToNumberFlex(f.amount, asWritten).Some?
      && MinAmount as real <= Value(Amount.ToNumberFlex(f.amount, asWritten).value) <= MaxAmount as real
  {
    InRangeValue(Amount.ToNumberFlex(FieldsOf(body).amount, asWritten).value);
  }

  /**
   * With an acceptable id and amount the order is written whole under its id,
   * `CREATED`, with `mode` `auth` only for exactly `"auth"`, and the answer
   * carries the id and its checkout link; no other order changes.
   */
  lemma OrderCreated(env: Env, body: Json, db: Db, generated: string, thrown: string, asWritten: bool, id: string, d: Decimal)
    requires OrderIdOf(FieldsOf(body).order, generated) == Some(id)
    requires Amount.ToNumberFlex(FieldsOf(body).amount, asWritten) == Some(d)
    requires MinAmount as real <= Value(d) <= MaxAmount as real
    ensures var o := CreateOrder(env, body, db, generated, thrown, asWritten);
      && o.http == 200
      && o.db.Keys == db.Keys + {id}
      && o.db[id][OrderId] == Val(Str(id))
      && o.db[id][Amount] == Val(Num(d))
      && o.db[id][Status] == Val(Str("CREATED"))
      && o.db[id][CreatedAt] == ServerTimestamp
      && (o.db[id][Mode] == Val(Str("auth")) <==> Get(body, "mode") == Str("auth"))
      && o.db[id][Partner] == Val(Coalesce(Get(body, "partner"), Str("HONDUBET")))
      && o.response == Created(id, CheckoutUrl(BaseUrl(env.baseUrl, env.checkoutOrigin), id, ModeOf(body)))
      && (forall other :: other in db && other != id ==> o.db[other] == db[other])
  {
    InRangeValue(d);
    var f := FieldsOf(body);
    OrderDocFields(id, d, ToCurrency(f.currency), f, body);
  }

  lemma OrderDocFields(id: string, amount: Decimal, currency: Currency, f: Fields, body: Json)
    ensures var doc := OrderDoc(id, amount, currency, f, body);
      && doc[OrderId] == Val(Str(id))
      && doc[Amount] == Val(Num(amount))
      && doc[Status] == Val(Str("CREATED"))
      && doc[CreatedAt] == ServerTimestamp
      && doc[Mode] == Val(Str(ModeOf(body)))
      && doc[Partner] == Val(Coalesce(Get(body, "partner"), Str("HONDUBET")))
  {
  }

  /** A non-string `order_id` fails the request with 500 even when the amount is bad too. */
  lemma NonStringIdFails(env: Env, body: Json, db: Db, generated: string, thrown: string, asWritten: bool)
    requires var id := Get(FieldsOf(body).order, "order_id"); !Nullish(id) && !id.Str?
    ensures CreateOrder(env, body, db, generated, thrown, asWritten) == Outcome(500, Failure("INIT_FAILED", thrown), db)
  {
  }

  /** A missing or unreadable amount is refused and nothing is written. */
  lemma AmountInvalidRefused(env: Env, body: Json, db: Db, generated: string, thrown: string, asWritten: bool)
    requires OrderIdOf(FieldsOf(body).order, generated).Some?
    requires Amount.ToNumberFlex(FieldsOf(body).amount, asWritten).None?
    ensures CreateOrder(env, body, db, generated, thrown, asWritten) ==
      Outcome(400, BadRequest("AMOUNT_INVALID", AmountInvalidMessage), db)
  {
  }

  /** An amount below 100 or above 1500 is refused, naming the currency, and nothing is written. */
  lemma OutOfRangeRefused(env: Env, body: Json, db: Db, generated: string, thrown: string, asWritten: bool, d: Decimal)
    requires OrderIdOf(FieldsOf(body).order, generated).Some?
    requires Amount.ToNumberFlex(FieldsOf(body).amount, asWritten) == Some(d)
    requires Value(d) < MinAmount as real || Value(d) > MaxAmount as real
    ensures CreateOrder(env, body, db, generated, thrown, asWritten) ==
      Outcome(400, BadRequest("AMOUNT_OUT_OF_RANGE", RangePrefix + ToCurrency(FieldsOf(body).currency).Code() + ")"), db)
  {
    InRangeValue(d);
  }

  /** A body whose amount is written with a `.` thousands separator and a `,` decimal mark. */
  const DottedBody := Obj([Prop("amount", Str("1.234,56")), Prop("order", Obj([Prop("order_id", Str("A1"))]))])

  /**
   * The thousands-separator finding at the route: `"1.234,56"` is refused
   * as out of range by the route's own reading (1.234), and stored as
   * 1234.56 by the corrected one.
   */
  lemma DottedRefused(env: Env, body: Json, db: Db, generated: string, thrown: string)
    requires FieldsOf(body).amount == Str("1.234,56")
    requires OrderIdOf(FieldsOf(body).order, generated).Some?
    ensures CreateOrder(env, body, db, generated, thrown, true) ==
      Outcome(400, BadRequest("AMOUNT_OUT_OF_RANGE", RangePrefix + ToCurrency(FieldsOf(body).currency).Code() + ")"), db)
  {
    Amount.DottedThousandsWitness();
    BelowRange();
    OutOfRangeRefused(env, body, db, generated, thrown, true, Decimal(1234, 3));
  }

  lemma DottedStored(env: Env, body: Json, db: Db, generated: string, thrown: string, id: string)
    requires FieldsOf(body).amount == Str("1.234,56")
    requires OrderIdOf(FieldsOf(body).order, generated) == Some(id)
    ensures var o := CreateOrder(env, body, db, generated, thrown, false);
      o.http == 200 && o.db[id][Amount] == Val(Num(Decimal(123456, 2)))
  {
    Amount.DottedThousandsWitness();
    WithinRange();
    OrderCreated(env, body, db, generated, thrown, false, id, Decimal(123456, 2));
  }

  lemma BelowRange()
    ensures Value(Decimal(1234, 3)) < MinAmount as real
  {
    assert Pow10(3) == 1000;
  }

  lemma WithinRange()
    ensures MinAmount as real <= Value(Decimal(123456, 2)) <= MaxAmount as real
  {
    assert Pow10(2) == 100;
  }

  lemma DottedBodyFields(generated: string)
    ensures FieldsOf(DottedBody).amount == Str("1.234,56")
    ensures OrderIdOf(FieldsOf(DottedBody).order, generated) == Some("A1")
    ensures ToCurrency(FieldsOf(DottedBody).currency) == HNL
  {
    TrimUnpadded("A1");
    MissingCurrencyIsHnl(Get(FieldsOf(DottedBody).order, "currency"));
    ToCurrencyCode(HNL);
  }
}
