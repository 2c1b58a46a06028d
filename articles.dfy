/**
 * The data both ingestion runs share: the candidate article as the news feed delivers it,
 * the record written to the article collection, the collection itself (append-only,
 * queried by equality on `url`), and the per-item outcome log of a run.
 */
module Articles {
  import opened Optional
  import opened JsValues

  /** One entry of the feed body's `articles` list, every field as decoded from JSON. */
  datatype RawArticle = RawArticle(
    title: JsValue,
    description: JsValue,
    url: JsValue,
    urlToImage: JsValue,
    publishedAt: JsValue,
    source: JsValue,
    author: JsValue,
    content: JsValue)

  /**
   * What the single feed request of a run yields: the request failed, or a body whose
   * `articles` field is a list (Some) or missing/null (None).
   */
  datatype FeedResponse = Unreachable | Body(articles: Option<seq<RawArticle>>)

  /**
   * A stored article. `Placed` is what the heuristic run writes to `articles`,
   * `Analysed` what the AI-assisted run writes to `news_articles`. The generated
   * document id, the GeoPoint location and the server timestamp are not modelled;
   * `publishedAt` keeps the raw value the date conversion starts from.
   */
  datatype Record =
    | Placed(
        title: JsValue,
        description: JsValue,
        url: JsValue,
        imageUrl: JsValue,
        importance: JsValue,
        minZoom: int,
        maxZoom: int,
        publishedAt: JsValue,
        source: JsValue)
    | Analysed(
        title: JsValue,
        author: JsValue,
        source: JsValue,
        url: JsValue,
        imageUrl: JsValue,
        publishedAt: JsValue,
        content: JsValue,
        locationText: JsValue,
        importance: JsValue)

  /** Some stored record has exactly this url (the same JSON value, null included). */
  predicate Stored(docs: seq<Record>, url: JsValue) {
    exists k | 0 <= k < |docs| :: docs[k].url == url
  }

  /**
   * The documents the query `where("url", "==", url).limit(1).get()` returns: at most
   * one, each a stored record whose url equals the queried value, and none (`.empty`)
   * exactly when no stored record has that url.
   */
  function Query(docs: seq<Record>, url: JsValue): (hits: seq<Record>)
    ensures |hits| <= 1
    ensures forall r | r in hits :: r in docs && r.url == url
    ensures hits == [] <==> !Stored(docs, url)
  {
    if docs == [] then []
    else if docs[0].url == url then [docs[0]]
    else
      var rest := Query(docs[1..], url);
      assert Stored(docs, url) ==> Stored(docs[1..], url) by {
        if Stored(docs, url) {
          var k :| 0 <= k < |docs| && docs[k].url == url;
          assert docs[1..][k - 1] == docs[k];
        }
      }
      assert Stored(docs[1..], url) ==> Stored(docs, url) by {
        if Stored(docs[1..], url) {
          var k :| 0 <= k < |docs[1..]| && docs[1..][k].url == url;
          assert docs[k + 1] == docs[1..][k];
        }
      }
      rest
  }

  /** The dedup key is unique: no two stored records share a url. */
  predicate UrlsUnique(docs: seq<Record>) {
    forall j, k | 0 <= j < k < |docs| :: docs[j].url != docs[k].url
  }

  /** What a run did with one candidate. */
  datatype ItemOutcome = Inserted | Skipped | Dropped

  datatype Tally = Tally(inserted: nat, skipped: nat, dropped: nat)

  /** How many candidates of a log were inserted, skipped and dropped. */
  function Count(log: seq<ItemOutcome>): (t: Tally)
    ensures t.inserted + t.skipped + t.dropped == |log|
    ensures t.inserted == |log| ==> forall k | 0 <= k < |log| :: log[k] == Inserted
    ensures t.skipped == |log| ==> forall k | 0 <= k < |log| :: log[k] == Skipped
  {
    if log == [] then Tally(0, 0, 0)
    else
      var t := Count(log[..|log| - 1]);
      match log[|log| - 1]
      case Inserted => t.(inserted := t.inserted + 1)
      case Skipped => t.(skipped := t.skipped + 1)
      case Dropped => t.(dropped := t.dropped + 1)
  }

  /** Counting one more outcome. */
  lemma CountSnoc(log: seq<ItemOutcome>, o: ItemOutcome)
    ensures Count(log + [o]).inserted == Count(log).inserted + (if o == Inserted then 1 else 0)
    ensures Count(log + [o]).skipped == Count(log).skipped + (if o == Skipped then 1 else 0)
    ensures Count(log + [o]).dropped == Count(log).dropped + (if o == Dropped then 1 else 0)
  {
    assert (log + [o])[..|log|] == log;
  }

  /** A log with a Dropped entry counts at least one drop. */
  lemma {:induction false} DroppedCounted(log: seq<ItemOutcome>, k: nat)
    requires k < |log| && log[k] == Dropped
    ensures Count(log).dropped > 0
  {
    var last := |log| - 1;
    if k < last {
      assert log[..last][k] == Dropped;
      DroppedCounted(log[..last], k);
    }
  }

  /** A url that is stored stays stored when records are appended. */
  lemma StoredGrows(docs: seq<Record>, more: seq<Record>, url: JsValue)
    requires Stored(docs, url)
    ensures Stored(docs + more, url)
  {
    var k :| 0 <= k < |docs| && docs[k].url == url;
    assert (docs + more)[k] == docs[k];
  }

  /** Appending a record whose url is not yet stored keeps the dedup key unique. */
  lemma AppendFreshKeepsUnique(docs: seq<Record>, r: Record)
    requires UrlsUnique(docs)
    requires !Stored(docs, r.url)
    ensures UrlsUnique(docs + [r])
  {
    forall j, k | 0 <= j < k < |docs + [r]|
      ensures (docs + [r])[j].url != (docs + [r])[k].url
    {
      if k == |docs| {
        assert (docs + [r])[j] == docs[j];
      }
    }
  }

  /**
   * The article collection. Records are only ever appended (`add` / `doc().set`);
   * nothing in either run updates or deletes a stored record.
   */
  class Collection {
    var docs: seq<Record>

    constructor (initial: seq<Record>)
      ensures docs == initial
    {
      docs := initial;
    }

    /** Writes one new document. */
    method Add(r: Record)
      modifies this
      ensures docs == old(docs) + [r]
    {
      docs := docs + [r];
    }
  }
}
