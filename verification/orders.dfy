/**
 * The order collection as the request handlers use it: a map from order id
 * to a document, a document being a map from field name to stored value.
 */
module OrderStore {
  import opened Js

  /** A stored field: a JSON value, or the server-side timestamp sentinel. */
  datatype Field = Val(v: Json) | ServerTimestamp

  /** The document fields the handlers write. */
  datatype FieldName =
    | OrderId | Amount | Currency | Description | Customer | Billing | Partner | Mode
    | Status | CreatedAt
    | PaymentUuid | PaymentHash | PixelStatus | PixelMessage | PixelCode | PixelRaw | StatusCheckedAt
  {
    /** The field's name in the stored document. */
    function Name(): string {
      match this
      case OrderId => "order_id"
      case Amount => "amount"
      case Currency => "currency"
      case Description => "description"
      case Customer => "customer"
      case Billing => "billing"
      case Partner => "partner"
      case Mode => "mode"
      case Status => "status"
      case CreatedAt => "created_at"
      case PaymentUuid => "payment_uuid"
      case PaymentHash => "payment_hash"
      case PixelStatus => "pixel_status"
      case PixelMessage => "pixel_message"
      case PixelCode => "pixel_code"
      case PixelRaw => "pixel_raw"
      case StatusCheckedAt => "status_checked_at"
    }
  }

  type Doc = map<FieldName, Field>
  type Db = map<string, Doc>

  /**
   * `updateDoc(ref, patch)`: the named fields are overwritten, the other
   * fields of the document and every other document are kept. The document
   * must exist (the store refuses to update a missing one).
   */
  function Update(db: Db, id: string, patch: Doc): (r: Db)
    requires id in db
    ensures r.Keys == db.Keys
    ensures forall f :: f in patch ==> f in r[id] && r[id][f] == patch[f]
    ensures forall f :: f in db[id] && f !in patch ==> f in r[id] && r[id][f] == db[id][f]
    ensures forall f :: f in r[id] ==> f in db[id] || f in patch
    ensures forall o :: o in db && o != id ==> r[o] == db[o]
  {
    db[id := db[id] + patch]
  }

  /** `setDoc(ref, doc)` without merge: the document is replaced whole. */
  function Replace(db: Db, id: string, doc: Doc): (r: Db)
    ensures r.Keys == db.Keys + {id}
    ensures r[id] == doc
    ensures forall o :: o in db && o != id ==> r[o] == db[o]
  {
    db[id := doc]
  }
}
