/** The three handlers of controllers/url.controler.js over the collection
    of short links: create a link, redirect through it (recording a
    visit), and report its click count. The store is a class holding the
    collection as a map from `shortId` to record; each handler is one
    atomic transition. The random id (`nanoid(8)`), the clock
    (`Date.now()`) and the caller's user id are parameters. */
module UrlController {
  import opened Optional
  import opened Text
  import opened UrlModel

  /** The outcomes of a handler: a success carrying its payload, or the
      error the handler answers with (400 for ValidationError and NotFound,
      500 for InternalError). */
  datatype Response<T> = Ok(value: T) | ValidationError | NotFound | InternalError

  /** The 64 characters `nanoid` draws ids from. */
  predicate IsNanoIdChar(c: char)
  {
    ('A' <= c <= 'Z') || ('a' <= c <= 'z') || ('0' <= c <= '9') || c == '_' || c == '-'
  }

  /** What `nanoid(8)` returns: eight characters of its alphabet. */
  predicate IsNanoId(s: string)
  {
    |s| == 8 && forall i :: 0 <= i < |s| ==> IsNanoIdChar(s[i])
  }

  /** No `nanoid` character is whitespace, so the `trim` setter keeps an id
      as it is. */
  lemma NanoIdTrimmed(s: string)
    requires IsNanoId(s)
    ensures Trim(s) == s
  {
    forall i | 0 <= i < |s|
      ensures !IsWhitespace(s[i])
    {
      assert IsNanoIdChar(s[i]);
    }
    TrimNoWhitespace(s);
  }

  /** The document the create handler builds from a fresh id: it is
      rejected exactly when the trimmed url is empty, and otherwise keeps the
      id as it is, the trimmed url, an empty history, `isActive` true, the
      caller as owner and `now` as both timestamps. */
  lemma NewLinkDocument(url: string, nanoId: string, user: Option<UserId>, now: int)
    requires IsNanoId(nanoId)
    ensures BuildDocument(NewShortUrl(nanoId, url, [], None, user), now) ==
      if Trim(url) == "" then None
      else Some(ShortUrl(nanoId, Trim(url), [], true, user, now, now))
  {
    var d := NewShortUrl(nanoId, url, [], None, user);
    NanoIdTrimmed(nanoId);
    assert Trim(d.shortId) == nanoId;
    var t := Trim(url);
    if t == "" {
      assert BuildDocument(d, now) == None;
    } else {
      assert BuildDocument(d, now) == Some(ShortUrl(nanoId, t, [], true, user, now, now));
    }
  }

  /** The event a redirect pushes: only the timestamp is set. */
  function VisitAt(now: int): (e: VisitEvent)
    ensures e.timestamp == Some(now)
    ensures e.ip.None? && e.deviceType.None? && e.source.None?
  {
    VisitEvent(Some(now), None, None, None)
  }

  /** The effect of `findOneAndUpdate({shortId}, {$push: ...})` at instant
      `now`: the record with that id, whatever its `isActive`, gets one event
      appended to its history and its `updatedAt` bumped; nothing else
      changes, and an unknown id changes nothing. */
  function Recorded(docs: map<string, ShortUrl>, shortId: string, now: int): (r: map<string, ShortUrl>)
    ensures r.Keys == docs.Keys
    ensures forall k :: k in docs && k != shortId ==> r[k] == docs[k]
    ensures shortId in docs ==>
      r[shortId].visitHistory == docs[shortId].visitHistory + [VisitAt(now)]
      && r[shortId].updatedAt == now
      && r[shortId].(visitHistory := docs[shortId].visitHistory, updatedAt := docs[shortId].updatedAt) == docs[shortId]
    ensures ValidCollection(docs) ==> ValidCollection(r)
  {
    if shortId in docs then
      var rec := docs[shortId];
      docs[shortId := rec.(visitHistory := rec.visitHistory + [VisitAt(now)], updatedAt := now)]
    else docs
  }

  /** Redirects through `shortId` at the instants `times`, in order. */
  function Replay(docs: map<string, ShortUrl>, shortId: string, times: seq<int>): map<string, ShortUrl>
    decreases |times|
  {
    if times == [] then docs else Replay(Recorded(docs, shortId, times[0]), shortId, times[1..])
  }

  /** The events recorded for the instants `times`. */
  function Visits(times: seq<int>): (r: seq<VisitEvent>)
    ensures |r| == |times|
    ensures forall i :: 0 <= i < |times| ==> r[i] == VisitAt(times[i])
  {
    seq(|times|, i requires 0 <= i < |times| => VisitAt(times[i]))
  }

  /** A run of redirects appends one event per redirect, in order, to the
      target record and leaves every other record alone; on an unknown id
      it changes nothing. */
  lemma {:induction false} ReplayAppends(docs: map<string, ShortUrl>, shortId: string, times: seq<int>)
    ensures Replay(docs, shortId, times).Keys == docs.Keys
    ensures forall k :: k in docs && k != shortId ==> Replay(docs, shortId, times)[k] == docs[k]
    ensures shortId in docs ==>
      Replay(docs, shortId, times)[shortId].visitHistory == docs[shortId].visitHistory + Visits(times)
    ensures shortId in docs ==>
      Replay(docs, shortId, times)[shortId].(visitHistory := docs[shortId].visitHistory,
                                            updatedAt := docs[shortId].updatedAt) == docs[shortId]
    ensures shortId !in docs ==> Replay(docs, shortId, times) == docs
    decreases |times|
  {
    if times != [] {
      var next := Recorded(docs, shortId, times[0]);
      ReplayAppends(next, shortId, times[1..]);
      if shortId in docs {
        assert Visits(times) == [VisitAt(times[0])] + Visits(times[1..]);
      }
    }
  }

  /** A newly created link that is redirected through n times reports
      `totalClicks` n, and its history holds exactly those n visits. */
  lemma CreatedThenRedirected(
    docs: map<string, ShortUrl>, doc: NewShortUrl, now: int, times: seq<int>)
    requires doc.visitHistory == []
    requires BuildDocument(doc, now).Some?
    requires Insert(docs, BuildDocument(doc, now).value).Some?
    ensures var r := BuildDocument(doc, now).value;
      var after := Replay(Insert(docs, r).value, r.shortId, times);
      r.shortId in after && after[r.shortId].visitHistory == Visits(times)
      && |after[r.shortId].visitHistory| == |times|
  {
    InsertedThenRedirected(docs, BuildDocument(doc, now).value, times);
  }

  /** A record inserted with an empty history and then redirected through
      n times holds exactly those n visits. */
  lemma InsertedThenRedirected(docs: map<string, ShortUrl>, r: ShortUrl, times: seq<int>)
    requires r.visitHistory == [] && Insert(docs, r).Some?
    ensures var after := Replay(Insert(docs, r).value, r.shortId, times);
      r.shortId in after && after[r.shortId].visitHistory == Visits(times)
  {
    var stored := Insert(docs, r).value;
    assert r.shortId in stored && stored[r.shortId].visitHistory == [];
    ReplayAppends(stored, r.shortId, times);
  }

  /** The store of short links. */
  class UrlCollection {
    var docs: map<string, ShortUrl>

    ghost predicate Valid()
      reads this
    {
      ValidCollection(docs)
    }

    constructor ()
      ensures Valid() && docs == map[]
    {
      docs := map[];
    }

    /** handleGenerateNewShortURL: reject a falsy `url`; otherwise build the
        record with the fresh id and insert it. A `url` of only whitespace
        fails the schema's `required` check after trimming, and an id that is
        already stored fails the unique index; both end in the handler's
        catch block, that is, InternalError. */
    method HandleGenerateNewShortUrl(url: Option<string>, nanoId: string, user: Option<UserId>, now: int)
      returns (res: Response<string>)
      requires Valid()
      requires IsNanoId(nanoId)
      modifies this
      ensures Valid()
      ensures !IsTruthy(url) ==> res == ValidationError && docs == old(docs)
      ensures IsTruthy(url) && Trim(url.value) == "" ==> res == InternalError && docs == old(docs)
      ensures IsTruthy(url) && Trim(url.value) != "" && nanoId in old(docs) ==>
        res == InternalError && docs == old(docs)
      ensures IsTruthy(url) && Trim(url.value) != "" && nanoId !in old(docs) ==>
        res == Ok(nanoId)
        && docs == old(docs)[nanoId := ShortUrl(nanoId, Trim(url.value), [], true, user, now, now)]
      ensures res.Ok? ==> |res.value| == 8 && res.value in docs && docs[res.value].shortId == res.value
    {
      if !IsTruthy(url) {
        return ValidationError;
      }
      NewLinkDocument(url.value, nanoId, user, now);
      var doc := BuildDocument(NewShortUrl(nanoId, url.value, [], None, user), now);
      if doc.None? {
        return InternalError;
      }
      var record := doc.value;
      var inserted := Insert(docs, record);
      if inserted.None? {
        assert nanoId in docs;
        return InternalError;
      }
      assert inserted.value == docs[nanoId := record];
      docs := inserted.value;
      res := Ok(nanoId);
    }

    /** handleRedirect: record one visit on the link with that id and
        redirect to its target; an unknown id records nothing and is
        NotFound. */
    method HandleRedirect(shortId: string, now: int) returns (res: Response<string>)
      requires Valid()
      modifies this
      ensures Valid()
      ensures docs == Recorded(old(docs), shortId, now)
      ensures shortId in old(docs) ==> res == Ok(old(docs)[shortId].redirectUrl)
      ensures shortId !in old(docs) ==> res == NotFound
    {
      if shortId in docs {
        var rec := docs[shortId];
        var updated := rec.(visitHistory := rec.visitHistory + [VisitAt(now)], updatedAt := now);
        docs := docs[shortId := updated];
        res := Ok(updated.redirectUrl);
      } else {
        res := NotFound;
      }
    }

    /** handleGetAnalytics: the number of recorded visits of the link with
        that id, or NotFound. Reads only. */
    method HandleGetAnalytics(shortId: string) returns (res: Response<nat>)
      requires Valid()
      ensures res.Ok? <==> shortId in docs
      ensures res.Ok? ==> res.value == |docs[shortId].visitHistory|
      ensures !res.Ok? ==> res == NotFound
    {
      if shortId in docs {
        res := Ok(|docs[shortId].visitHistory|);
      } else {
        res := NotFound;
      }
    }
  }
}
