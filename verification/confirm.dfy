/**
 * The confirm endpoint (`POST /api/v1/checkout/confirm`): classifies what
 * the widget and the gateway status proxy report about a payment and writes
 * the outcome onto the order.
 */
module Confirm {
  import opened Maybe
  import opened Text
  import opened Js
  import opened OrderStore

  /** The two flags read off a gateway or proxy body. */
  datatype Decision = Decision(approved: bool, pending: bool)

  datatype FinalStatus = PAID | DECLINED | PENDING | ERROR

  function StatusName(st: FinalStatus): string {
    match st
    case PAID => "PAID"
    case DECLINED => "DECLINED"
    case PENDING => "PENDING"
    case ERROR => "ERROR"
  }

  /** `s(v)`: a string reads as itself, anything else as empty. */
  function StrOf(v: Json): string {
    if v.Str? then v.s else ""
  }

  /** `b(v)`: only the boolean `true` counts. */
  predicate IsTrue(v: Json) {
    v == Bool(true)
  }

  /** A value read as a string (see `StrOf`), in lower case. */
  function LowerStrOf(v: Json): string {
    Lower(StrOf(v))
  }

  const ApprovedStates: seq<string> := ["approved", "paid", "success", "completed"]
  const PendingStates: seq<string> := ["pending", "processing", "incomplete"]

  /**
   * The object the flags are read from: `body.data` when that is an object,
   * the body otherwise; a body that is not an object reads as `{}`.
   */
  function Record(obj: Json): Json {
    var src := if IsObjectLike(obj) then obj else Obj([]);
    var data := Get(src, "data");
    if IsObjectLike(data) then data else src
  }

  /** The raw state value: `transaction_state ?? transaction_status ?? state ?? status`. */
  function StateValue(rec: Json): Json {
    Coalesce(Coalesce(Coalesce(Get(rec, "transaction_state"), Get(rec, "transaction_status")),
                      Get(rec, "state")), Get(rec, "status"))
  }

  function DecideRecord(d: Json): Decision {
    var code := Trim(StrOf(Get(d, "response_code")));
    var state := LowerStrOf(StateValue(d));
    var hasId := Truthy(Coalesce(Get(d, "payment_uuid"), Get(d, "transaction_id")));
    var approved := IsTrue(Get(d, "response_approved")) || code == "00" || (state in ApprovedStates && hasId);
    var pending := IsTrue(Get(d, "response_incomplete")) || state in PendingStates;
    Decision(approved, pending)
  }

  /** The approval and pending flags of a gateway or client body, read from its record. */
  function DecideFromBody(obj: Json): Decision {
    DecideRecord(Record(obj))
  }

  /**
   * `statusFrom(http, decided)`: a 200 reply is classified by its flags with
   * approval first; 402 declines, 408 is pending, every other code is an
   * error.
   */
  function StatusFrom(http: int, decided: Decision): (st: FinalStatus)
    ensures st == PAID <==> http == 200 && decided.approved
    ensures st == PENDING <==> (http == 200 && !decided.approved && decided.pending) || http == 408
    ensures st == DECLINED <==> (http == 200 && !decided.approved && !decided.pending) || http == 402
    ensures st == ERROR <==> http != 200 && http != 402 && http != 408
  {
    if http == 200 then (if decided.approved then PAID else if decided.pending then PENDING else DECLINED)
    else if http == 402 then DECLINED
    else if http == 408 then PENDING
    else if http == 401 || http == 403 then ERROR
    else if http >= 400 then ERROR
    else ERROR
  }

  /** The gateway-side label written as `pixel_status` in the identifier branch. */
  function PixelLabel(decided: Decision): string {
    if decided.approved then "APPROVED" else if decided.pending then "PENDING" else "DECLINED"
  }

  // ---------------------------------------------------------------------
  // The request handler

  /** What the status proxy call produced: a network failure, or a reply whose body may not parse. */
  datatype Upstream = NetworkFailure(message: string) | Reply(http: int, body: Option<Json>)

  /**
   * The handler's observable effect: the HTTP code and JSON body it answers
   * with, the store after the request, and the query it sent to the status
   * proxy (`None` when it sent none).
   */
  datatype Outcome = Outcome(http: int, response: Json, db: Db, query: Option<seq<(string, string)>>)

  /** `await req.json().catch(() => ({}))`, then anything but an object becomes `{}`. */
  function BodyOf(raw: Option<Json>): Json {
    match raw
    case None => Obj([])
    case Some(v) => if IsObjectLike(v) then v else Obj([])
  }

  function OrderIdOf(body: Json): string {
    Trim(StrOf(Get(body, "order_id")))
  }

  function UuidOf(body: Json): Json {
    Coalesce(Get(body, "payment_uuid"), Null)
  }

  function HashOf(body: Json): Json {
    Coalesce(Get(body, "payment_hash"), Null)
  }

  function ClientStatusOf(body: Json): string {
    Upper(StrOf(Get(body, "status")))
  }

  /** The client's message when it is a non-empty string, `null` otherwise. */
  function ClientMessageOf(body: Json): Json {
    var m := StrOf(Get(body, "message"));
    if m == [] then Null else Str(m)
  }

  /** `pixel_codes` when it is an object (arrays included), else `null`. */
  function PixelCodesOf(body: Json): Json {
    var pc := Get(body, "pixel_codes");
    if IsObjectLike(pc) then pc else Null
  }

  /** Neither identifier is truthy: the branch that trusts the widget. */
  predicate NoIdentifiers(body: Json) {
    !Truthy(UuidOf(body)) && !Truthy(HashOf(body))
  }

  /** The query parameters of the status proxy call, in the order they are set. */
  function StatusQuery(body: Json): seq<(string, string)> {
    (if Truthy(UuidOf(body)) then [("uuid", ToJsString(UuidOf(body)))] else [])
    + (if Truthy(HashOf(body)) then [("hash", ToJsString(HashOf(body)))] else [])
  }

  function Respond(success: bool, rest: seq<Prop>): Json {
    Obj([Prop("success", Bool(success))] + rest)
  }

  function IntJson(n: int): Json {
    Num(Decimal(n, 0))
  }

  /** The final status in the branch without identifiers. */
  function ClientFinal(body: Json): (st: FinalStatus)
    ensures st == PAID || st == DECLINED
    ensures st == PAID <==> ClientStatusOf(body) == "APPROVED"
  {
    if ClientStatusOf(body) == "APPROVED" then PAID else DECLINED
  }

  /** The fields written in the branch without identifiers. */
  function ClientPatch(body: Json): Doc {
    var final := ClientFinal(body);
    var pixelCodes := PixelCodesOf(body);
    map[
      Status := Val(Str(StatusName(final))),
      FieldName.PixelStatus := Val(Str(if final == PAID then "APPROVED" else "DECLINED")),
      PixelMessage := Val(ClientMessageOf(body)),
      PixelCode := Val(Coalesce(Get(pixelCodes, "code"), Null)),
      PaymentUuid := Val(Null),
      PaymentHash := Val(Null),
      PixelRaw := Val(Obj([Prop("source", Str("client")), Prop("status", Str(ClientStatusOf(body))),
                              Prop("message", ClientMessageOf(body)), Prop("codes", Coalesce(pixelCodes, Null))])),
      StatusCheckedAt := ServerTimestamp
    ]
  }

  /** The fields written in the branch with identifiers, from the proxy's reply. */
  function GatewayPatch(body: Json, http: int, json: Json, decided: Decision): Doc {
    map[
      Status := Val(Str(StatusName(StatusFrom(http, decided)))),
      PaymentUuid := Val(UuidOf(body)),
      PaymentHash := Val(HashOf(body)),
      FieldName.PixelStatus := Val(Str(PixelLabel(decided))),
      PixelMessage := Val(Coalesce(Coalesce(ClientMessageOf(body), Get(json, "message")), Null)),
      PixelCode := Val(Coalesce(Coalesce(Get(Get(json, "data"), "response_code"), Get(PixelCodesOf(body), "code")), Null)),
      PixelRaw := Val(json),
      StatusCheckedAt := ServerTimestamp
    ]
  }

  /** The answer and write of the branch without identifiers. */
  function ClientOutcome(body: Json, orderId: string, db: Db): Outcome
    requires orderId in db
  {
    var final := ClientFinal(body);
    Outcome(200,
            Respond(true, [Prop("status", Str(StatusName(final))),
                           Prop("message", Coalesce(ClientMessageOf(body), Str("OK")))]),
            Update(db, orderId, ClientPatch(body)), None)
  }

  /** The answer and write of the branch that asks the status proxy. */
  function GatewayOutcome(body: Json, orderId: string, db: Db, upstream: Upstream): Outcome
    requires orderId in db
  {
    var query := StatusQuery(body);
    match upstream
    case NetworkFailure(msg) =>
      Outcome(500, Respond(false, [Prop("message", Str(msg))]), db, Some(query))
    case Reply(http, parsed) =>
      var json := parsed.GetOr(Obj([]));
      var final := StatusFrom(http, DecideFromBody(json));
      Outcome(200,
              Respond(true, [Prop("message", Coalesce(Get(json, "message"), Str("OK"))),
                             Prop("status", Str(StatusName(final))),
                             Prop("data", Obj([Prop("http", IntJson(http)), Prop("order_id", Str(orderId))]))]),
              Update(db, orderId, GatewayPatch(body, http, json, DecideFromBody(json))), Some(query))
  }

  /**
   * `POST`: validation, the existence check, then either the branch that
   * trusts the widget (no identifiers) or the branch that asks the status
   * proxy and classifies its reply. The proxy's reply is an input; it is
   * only consulted in the second branch.
   */
  function ConfirmPost(raw: Option<Json>, db: Db, upstream: Upstream): (o: Outcome)
    ensures o.db.Keys == db.Keys
    ensures o.http in {200, 400, 404, 500}
    ensures o.http != 200 ==> o.db == db
  {
    var body := BodyOf(raw);
    var orderId := OrderIdOf(body);
    if orderId == [] then
      Outcome(400, Respond(false, [Prop("message", Str("order_id requerido"))]), db, None)
    else if orderId !in db then
      Outcome(404, Respond(false, [Prop("message", Str("Orden no existe"))]), db, None)
    else if NoIdentifiers(body) then ClientOutcome(body, orderId, db)
    else GatewayOutcome(body, orderId, db, upstream)
  }
}

/** Properties of the confirm endpoint's classification and writes. */
module ConfirmFacts {
  import opened Maybe
  import opened Text
  import opened Js
  import opened OrderStore
  import opened Confirm

  /** The first value that is neither `null` nor `undefined`; the last one when all are. */
  function FirstPresent(vs: seq<Json>): Json
    requires |vs| >= 1
  {
    if |vs| == 1 || !Nullish(vs[0]) then vs[0] else FirstPresent(vs[1..])
  }

  function StateFields(rec: Json): seq<Json> {
    [Get(rec, "transaction_state"), Get(rec, "transaction_status"), Get(rec, "state"), Get(rec, "status")]
  }

  /** The lower-cased state text the classification looks at. */
  function StateText(rec: Json): string {
    var v := FirstPresent(StateFields(rec));
    if v.Str? then Lower(v.s) else ""
  }

  /** The chained `??` picks the first present state field. */
  lemma StateIsFirstPresent(rec: Json)
    ensures StateValue(rec) == FirstPresent(StateFields(rec))
  {
    var fs := StateFields(rec);
    assert fs[1..] == [fs[1], fs[2], fs[3]];
    assert fs[1..][1..] == [fs[2], fs[3]];
    assert fs[1..][1..][1..] == [fs[3]];
    assert FirstPresent(fs[1..][1..]) == Coalesce(fs[2], fs[3]);
    assert FirstPresent(fs[1..]) == Coalesce(fs[1], Coalesce(fs[2], fs[3]));
  }

  /**
   * `approved` holds iff the record says `response_approved: true`, or its
   * trimmed string `response_code` is "00", or its state is one of the four
   * success words and `payment_uuid ?? transaction_id` is truthy.
   */
  lemma ApprovedIff(obj: Json)
    ensures var rec := Record(obj);
      DecideFromBody(obj).approved <==>
        || Get(rec, "response_approved") == Bool(true)
        || (Get(rec, "response_code").Str? && Trim(Get(rec, "response_code").s) == "00")
        || (StateText(rec) in ["approved", "paid", "success", "completed"]
            && Truthy(FirstPresent([Get(rec, "payment_uuid"), Get(rec, "transaction_id")])))
  {
    var rec := Record(obj);
    StateIsFirstPresent(rec);
    assert Trim("") == "";
  }

  /** `pending` holds iff `response_incomplete: true` or the state is one of the three waiting words. */
  lemma PendingIff(obj: Json)
    ensures var rec := Record(obj);
      DecideFromBody(obj).pending <==>
        Get(rec, "response_incomplete") == Bool(true) || StateText(rec) in ["pending", "processing", "incomplete"]
  {
    StateIsFirstPresent(Record(obj));
  }

  /** A body that is not an object (a string, a number, `null`, ...) reads as `{}`: neither flag. */
  lemma NonObjectBody(obj: Json)
    requires !IsObjectLike(obj)
    ensures DecideFromBody(obj) == Decision(false, false)
  {
    assert Record(obj) == Obj([]);
    assert Trim("") == "";
    assert Lower("") == "";
  }

  /** When `data` is an object, nothing at the top level of the body matters. */
  lemma DataShieldsTopLevel(b1: Json, b2: Json)
    requires IsObjectLike(b1) && IsObjectLike(b2)
    requires Get(b1, "data") == Get(b2, "data") && IsObjectLike(Get(b1, "data"))
    ensures DecideFromBody(b1) == DecideFromBody(b2)
  {
  }

  /**
   * Without an object `data`, the body's own fields are read: wrapping such a
   * body as the `data` of an envelope classifies the same.
   */
  lemma FlatBodyRead(b: Json)
    requires IsObjectLike(b) && !IsObjectLike(Get(b, "data"))
    ensures DecideFromBody(Obj([Prop("data", b)])) == DecideFromBody(b)
  {
  }

  /** Both flags can hold at once; the status then depends on approval only. */
  lemma BothFlags()
    ensures var body := Obj([Prop("response_approved", Bool(true)), Prop("response_incomplete", Bool(true))]);
      DecideFromBody(body) == Decision(true, true) && StatusFrom(200, DecideFromBody(body)) == PAID
  {
    var body := Obj([Prop("response_approved", Bool(true)), Prop("response_incomplete", Bool(true))]);
    assert Record(body) == body;
  }

  /**
   * A present but non-string `transaction_state` hides every later state
   * field: the state reads as "", so only `response_approved`,
   * `response_code` and `response_incomplete` can raise a flag, whatever
   * `status` says.
   */
  lemma NonStringStateHidesStatus(obj: Json)
    requires var ts := Get(Record(obj), "transaction_state"); !Nullish(ts) && !ts.Str?
    ensures var rec := Record(obj);
      && (DecideFromBody(obj).approved <==>
            Get(rec, "response_approved") == Bool(true) || Trim(StrOf(Get(rec, "response_code"))) == "00")
      && (DecideFromBody(obj).pending <==> Get(rec, "response_incomplete") == Bool(true))
  {
    var rec := Record(obj);
    var st := StateText(rec);
    assert st == "";
    assert st !in ["approved", "paid", "success", "completed"];
    assert st !in ["pending", "processing", "incomplete"];
    var code := Get(rec, "response_code");
    assert (code.Str? && Trim(code.s) == "00") <==> Trim(StrOf(code)) == "00" by {
      if !code.Str? {
        assert Trim(StrOf(code)) == "";
      }
    }
    ApprovedIff(obj);
    PendingIff(obj);
  }

  // ---------------------------------------------------------------------
  // The handler

  /** A blank `order_id` is answered 400 before anything is read, fetched or written. */
  lemma BlankOrderIdRejected(raw: Option<Json>, db: Db, upstream: Upstream)
    requires OrderIdOf(BodyOf(raw)) == []
    ensures var o := ConfirmPost(raw, db, upstream);
      o.http == 400 && o.db == db && o.query == None
      && o.response == Respond(false, [Prop("message", Str("order_id requerido"))])
  {
  }

  /** An unknown order is answered 404 with nothing fetched or written. */
  lemma UnknownOrderRejected(raw: Option<Json>, db: Db, upstream: Upstream)
    requires OrderIdOf(BodyOf(raw)) != [] && OrderIdOf(BodyOf(raw)) !in db
    ensures var o := ConfirmPost(raw, db, upstream);
      o.http == 404 && o.db == db && o.query == None
  {
  }

  /**
   * Without identifiers the widget's claim decides: the stored status is PAID
   * iff the upper-cased claim is "APPROVED", DECLINED otherwise; both
   * identifiers are cleared, `pixel_status` matches, no proxy call is made,
   * and only that order changes.
   */
  lemma ClientBranch(raw: Option<Json>, db: Db, upstream: Upstream)
    requires var body := BodyOf(raw);
      OrderIdOf(body) != [] && OrderIdOf(body) in db && NoIdentifiers(body)
    ensures var body := BodyOf(raw);
      var id := OrderIdOf(body);
      var o := ConfirmPost(raw, db, upstream);
      && o.http == 200 && o.query == None
      && id in o.db
      && (ClientStatusOf(body) == "APPROVED" ==>
            o.db[id][Status] == Val(Str("PAID")) && o.db[id][FieldName.PixelStatus] == Val(Str("APPROVED")))
      && (ClientStatusOf(body) != "APPROVED" ==>
            o.db[id][Status] == Val(Str("DECLINED")) && o.db[id][FieldName.PixelStatus] == Val(Str("DECLINED")))
      && o.db[id][PaymentUuid] == Val(Null) && o.db[id][PaymentHash] == Val(Null)
      && (forall other :: other in db && other != id ==> o.db[other] == db[other])
  {
    var body := BodyOf(raw);
    var id := OrderIdOf(body);
    var patch := ClientPatch(body);
    assert ConfirmPost(raw, db, upstream) == ClientOutcome(body, id, db);
    ClientPatchFields(body);
    assert Status in patch && FieldName.PixelStatus in patch && PaymentUuid in patch && PaymentHash in patch;
  }

  lemma ClientPatchFields(body: Json)
    ensures var p := ClientPatch(body);
      && Status in p && FieldName.PixelStatus in p && PaymentUuid in p && PaymentHash in p
      && p[Status] == Val(Str(StatusName(ClientFinal(body))))
      && p[FieldName.PixelStatus] == Val(Str(if ClientFinal(body) == PAID then "APPROVED" else "DECLINED"))
      && p[PaymentUuid] == Val(Null) && p[PaymentHash] == Val(Null)
  {
  }

  /** In the branch without identifiers, whatever the proxy would have said is irrelevant. */
  lemma ClientBranchIgnoresUpstream(raw: Option<Json>, db: Db, u1: Upstream, u2: Upstream)
    requires NoIdentifiers(BodyOf(raw))
    ensures ConfirmPost(raw, db, u1) == ConfirmPost(raw, db, u2)
  {
  }

  /** An empty-string identifier counts as missing: the widget's claim is trusted. */
  lemma EmptyIdentifiersAreMissing(raw: Option<Json>)
    requires var body := BodyOf(raw);
      Get(body, "payment_uuid") in {Undefined, Null, Str("")} && Get(body, "payment_hash") in {Undefined, Null, Str("")}
    ensures NoIdentifiers(BodyOf(raw))
  {
  }

  /**
   * With an identifier and a proxy reply, the stored status is
   * `statusFrom(http, decideFromBody(reply))`, the identifiers are stored as
   * sent, the query carries each truthy identifier, and the answer is HTTP
   * 200 whatever the status.
   */
  lemma GatewayBranch(raw: Option<Json>, db: Db, http: int, parsed: Option<Json>)
    requires var body := BodyOf(raw);
      OrderIdOf(body) != [] && OrderIdOf(body) in db && !NoIdentifiers(body)
    ensures var body := BodyOf(raw);
      var id := OrderIdOf(body);
      var json := parsed.GetOr(Obj([]));
      var st := StatusFrom(http, DecideFromBody(json));
      var o := ConfirmPost(raw, db, Reply(http, parsed));
      && o.http == 200
      && o.query == Some(StatusQuery(body)) && |StatusQuery(body)| >= 1
      && id in o.db
      && o.db[id][Status] == Val(Str(StatusName(st)))
      && o.db[id][PaymentUuid] == Val(UuidOf(body)) && o.db[id][PaymentHash] == Val(HashOf(body))
      && o.db[id][PixelRaw] == Val(json)
      && (forall other :: other in db && other != id ==> o.db[other] == db[other])
  {
    var body := BodyOf(raw);
    var id := OrderIdOf(body);
    var json := parsed.GetOr(Obj([]));
    assert ConfirmPost(raw, db, Reply(http, parsed)) == GatewayOutcome(body, id, db, Reply(http, parsed));
    GatewayPatchFields(body, http, json, DecideFromBody(json));
  }

  lemma GatewayPatchFields(body: Json, http: int, json: Json, decided: Decision)
    ensures var p := GatewayPatch(body, http, json, decided);
      && Status in p && FieldName.PixelStatus in p && PaymentUuid in p && PaymentHash in p && PixelRaw in p
      && p[Status] == Val(Str(StatusName(StatusFrom(http, decided))))
      && p[FieldName.PixelStatus] == Val(Str(PixelLabel(decided)))
      && p[PaymentUuid] == Val(UuidOf(body)) && p[PaymentHash] == Val(HashOf(body))
      && p[PixelRaw] == Val(json)
  {
  }

  /**
   * On a 200 reply `pixel_status` follows the same precedence as the stored
   * status: APPROVED with PAID, PENDING with PENDING, DECLINED with DECLINED.
   */
  lemma PixelStatusMatchesOn200(raw: Option<Json>, db: Db, parsed: Option<Json>)
    requires var body := BodyOf(raw);
      OrderIdOf(body) != [] && OrderIdOf(body) in db && !NoIdentifiers(body)
    ensures var id := OrderIdOf(BodyOf(raw));
      var o := ConfirmPost(raw, db, Reply(200, parsed));
      id in o.db &&
      (o.db[id][Status] == Val(Str("PAID")) <==> o.db[id][FieldName.PixelStatus] == Val(Str("APPROVED"))) &&
      (o.db[id][Status] == Val(Str("PENDING")) <==> o.db[id][FieldName.PixelStatus] == Val(Str("PENDING"))) &&
      (o.db[id][Status] == Val(Str("DECLINED")) <==> o.db[id][FieldName.PixelStatus] == Val(Str("DECLINED")))
  {
    var body := BodyOf(raw);
    var id := OrderIdOf(body);
    var json := parsed.GetOr(Obj([]));
    assert ConfirmPost(raw, db, Reply(200, parsed)) == GatewayOutcome(body, id, db, Reply(200, parsed));
    GatewayPatchFields(body, 200, json, DecideFromBody(json));
  }

  /** A network failure of the proxy call is answered 500 and nothing is written. */
  lemma NetworkFailureWritesNothing(raw: Option<Json>, db: Db, msg: string)
    requires var body := BodyOf(raw);
      OrderIdOf(body) != [] && OrderIdOf(body) in db && !NoIdentifiers(body)
    ensures var o := ConfirmPost(raw, db, NetworkFailure(msg));
      o.http == 500 && o.db == db && o.query.Some?
  {
  }

  /**
   * There is no terminal-state guard: an order already stored as PAID is
   * overwritten with DECLINED by a widget report of DECLINED without
   * identifiers.
   */
  lemma PaidOrderCanBeDeclined(raw: Option<Json>, db: Db, upstream: Upstream)
    requires var body := BodyOf(raw);
      && OrderIdOf(body) != [] && OrderIdOf(body) in db && NoIdentifiers(body)
      && Status in db[OrderIdOf(body)] && db[OrderIdOf(body)][Status] == Val(Str("PAID"))
      && Get(body, "status") == Str("DECLINED")
    ensures var id := OrderIdOf(BodyOf(raw));
      var o := ConfirmPost(raw, db, upstream);
      id in o.db && o.db[id][Status] == Val(Str("DECLINED"))
  {
    var body := BodyOf(raw);
    assert ClientStatusOf(body)[0] == 'D';
    ClientBranch(raw, db, upstream);
  }
}
