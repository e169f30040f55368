/** The short-link record of models/url.model.js: its fields, the `trim`
    setters and defaults the schema applies when a document is built, the
    `required` validators, and the unique index on `shortId`. */
module UrlModel {
  import opened Optional
  import opened Text

  /** The owner reference (`createdBy`), an ObjectId held as its text. */
  type UserId = string

  /** One entry of `visitHistory`; the schema makes every field optional. */
  datatype VisitEvent = VisitEvent(
    timestamp: Option<int>,
    ip: Option<string>,
    deviceType: Option<string>,
    source: Option<string>)

  /** A stored short link. `createdAt` and `updatedAt` are the fields the
      `timestamps` option adds. */
  datatype ShortUrl = ShortUrl(
    shortId: string,
    redirectUrl: string,
    visitHistory: seq<VisitEvent>,
    isActive: bool,
    createdBy: Option<UserId>,
    createdAt: int,
    updatedAt: int)

  /** The fields handed to `URL.create`; an absent field is `None`. */
  datatype NewShortUrl = NewShortUrl(
    shortId: string,
    redirectUrl: string,
    visitHistory: seq<VisitEvent>,
    isActive: Option<bool>,
    createdBy: Option<UserId>)

  /** What every stored record satisfies: both required strings are present
      (non-empty) and trimmed. */
  predicate ValidRecord(r: ShortUrl)
  {
    r.shortId != "" && IsTrimmed(r.shortId) && r.redirectUrl != "" && IsTrimmed(r.redirectUrl)
  }

  /** Building a document at instant `now`: the `trim` setters, the
      defaults (`isActive` true, `createdBy` null) and the timestamps, then
      the `required` validators, which reject an empty string. `None` is
      the ValidationError Mongoose throws. */
  function BuildDocument(d: NewShortUrl, now: int): (r: Option<ShortUrl>)
    ensures r.Some? <==> Trim(d.shortId) != "" && Trim(d.redirectUrl) != ""
    ensures r.Some? ==> ValidRecord(r.value)
    ensures r.Some? ==> r.value.shortId == Trim(d.shortId) && r.value.redirectUrl == Trim(d.redirectUrl)
    ensures r.Some? ==> r.value.visitHistory == d.visitHistory && r.value.createdBy == d.createdBy
    ensures r.Some? ==> r.value.isActive == (d.isActive.None? || d.isActive.value)
    ensures r.Some? ==> r.value.createdAt == now && r.value.updatedAt == now
  {
    var shortId := Trim(d.shortId);
    var redirectUrl := Trim(d.redirectUrl);
    var isActive := if d.isActive.Some? then d.isActive.value else true;
    if shortId == "" || redirectUrl == "" then None
    else Some(ShortUrl(shortId, redirectUrl, d.visitHistory, isActive, d.createdBy, now, now))
  }

  /** The collection is keyed by `shortId`; each record sits under its own
      id, so the unique index can never hold two records with one id. */
  predicate ValidCollection(docs: map<string, ShortUrl>)
  {
    forall k :: k in docs ==> docs[k].shortId == k && ValidRecord(docs[k])
  }

  /** Inserting into the collection: the unique index rejects a record
      whose id is already stored (`None`, the duplicate-key error), and
      otherwise exactly one record is added. */
  function Insert(docs: map<string, ShortUrl>, r: ShortUrl): (out: Option<map<string, ShortUrl>>)
    ensures out.None? <==> r.shortId in docs
    ensures out.Some? ==> out.value.Keys == docs.Keys + {r.shortId} && |out.value| == |docs| + 1
    ensures out.Some? ==> out.value[r.shortId] == r
    ensures out.Some? ==> forall k :: k in docs ==> out.value[k] == docs[k]
    ensures out.Some? && ValidCollection(docs) && ValidRecord(r) ==> ValidCollection(out.value)
  {
    if r.shortId in docs then None else Some(docs[r.shortId := r])
  }
}
