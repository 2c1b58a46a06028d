/**
 * The hourly run of `functions/index.js` (`scheduledNewsFetcher`): check the news key,
 * fetch one page of headlines, then walk the candidates in order; a candidate whose url
 * is already stored is skipped, any other gets a placeholder importance and zoom pair and
 * is written as one new record. There is no per-item error handling: the first failing
 * lookup, property read or write ends the whole run with an "internal" error, and the
 * records written before it stay.
 */
module ScheduledFetcher {
  import opened Optional
  import opened JsValues
  import opened Articles
  import opened HeuristicEnrichment

  /**
   * What the outside world does for the candidate at one position of the batch: whether
   * the duplicate query succeeds, the three `Math.random()` values, and whether the write
   * succeeds (a failure also covers a `publishedAt` the store rejects).
   */
  datatype Effects = Effects(
    lookupOk: bool,
    importanceDraw: Unit,
    minZoomDraw: Unit,
    maxZoomDraw: Unit,
    writeOk: bool)

  /** How the run ends: without a news key (returns null), normally (returns null), or by throwing "internal". */
  datatype Status = NotConfigured | Done | Internal

  /** What one candidate does to the run. */
  datatype Step = Abort | Skip | Insert(record: Record)

  /** The shape every record of this run has: scores and zoom hints in range, a non-empty source. */
  predicate Enriched(r: Record) {
    r.Placed? && r.importance.Num? && 1 <= r.importance.n <= 100
    && 1 <= r.minZoom <= 5 && r.minZoom <= r.maxZoom <= 19
    && Truthy(r.source)
  }

  /** The document written for a new candidate, with `source` already defaulted. */
  function PlacedRecord(a: RawArticle, source: JsValue, e: Effects): (r: Record)
    requires Truthy(source)
    ensures Enriched(r)
    ensures r.url == a.url && r.title == a.title && r.description == a.description
    ensures r.imageUrl == a.urlToImage && r.publishedAt == a.publishedAt && r.source == source
  {
    var minZoom := MinZoom(e.minZoomDraw);
    Placed(a.title, a.description, a.url, a.urlToImage, Num(Importance(e.importanceDraw)),
           minZoom, MaxZoom(e.maxZoomDraw, minZoom), a.publishedAt, source)
  }

  /**
   * One iteration of the loop. The query throws when it fails or when the url is
   * undefined (the store refuses undefined as a query value); reading `source.name`
   * throws when `source` is null or undefined; the write may fail.
   */
  function StepOf(docs: seq<Record>, a: RawArticle, e: Effects): (s: Step)
    ensures s == Skip <==> e.lookupOk && a.url != Undefined && Stored(docs, a.url)
    ensures s.Insert? ==> !Stored(docs, a.url) && s.record.url == a.url && Enriched(s.record)
    ensures s.Insert? <==> e.lookupOk && a.url != Undefined && !Stored(docs, a.url)
                           && Member(a.source, "name").Some? && e.writeOk
    ensures s.Insert? ==> s.record == PlacedRecord(a, Or(Member(a.source, "name").value, Str("NewsAPI")), e)
  {
    if !e.lookupOk || a.url == Undefined then Abort
    else if Stored(docs, a.url) then Skip
    else
      match Member(a.source, "name")
      case None => Abort
      case Some(name) =>
        if e.writeOk then Insert(PlacedRecord(a, Or(name, Str("NewsAPI")), e)) else Abort
  }

  /** The store and the log after the loop, and whether it was cut short by an error. */
  datatype Progress = Progress(docs: seq<Record>, log: seq<ItemOutcome>, aborted: bool)

  /** The loop from position i on, with the store and log as left by positions before i. */
  function Walk(docs: seq<Record>, batch: seq<RawArticle>, fx: nat -> Effects, i: nat, log: seq<ItemOutcome>): Progress
    requires i <= |batch|
    decreases |batch| - i
  {
    if i == |batch| then Progress(docs, log, false)
    else
      match StepOf(docs, batch[i], fx(i))
      case Abort => Progress(docs, log, true)
      case Skip => Walk(docs, batch, fx, i + 1, log + [Skipped])
      case Insert(r) => Walk(docs + [r], batch, fx, i + 1, log + [Inserted])
  }

  /** Everything a run produces: whether the feed was requested, how it ended, the store, the log. */
  datatype Run = Run(fetched: bool, status: Status, docs: seq<Record>, log: seq<ItemOutcome>)

  /**
   * A whole run over the store `docs`. A missing `articles` list makes `for ... of`
   * throw, which ends the run as "internal" like a failed fetch.
   */
  function ScheduledRun(docs: seq<Record>, newsKey: JsValue, feed: FeedResponse, fx: nat -> Effects): (r: Run)
    ensures !Truthy(newsKey) <==> !r.fetched
    ensures !r.fetched ==> r.status == NotConfigured && r.docs == docs && r.log == []
    ensures r.fetched && (feed.Unreachable? || feed.articles.None?) ==> r.status == Internal && r.docs == docs && r.log == []
    ensures r.status == Done ==> r.fetched && feed.Body? && feed.articles.Some?
  {
    if !Truthy(newsKey) then Run(false, NotConfigured, docs, [])
    else
      match feed
      case Unreachable => Run(true, Internal, docs, [])
      case Body(None) => Run(true, Internal, docs, [])
      case Body(Some(batch)) =>
        var p := Walk(docs, batch, fx, 0, []);
        Run(true, if p.aborted then Internal else Done, p.docs, p.log)
  }

  /** `scheduledNewsFetcher`, run against the collection `store`. */
  method ScheduledNewsFetcher(store: Collection, newsKey: JsValue, feed: FeedResponse, fx: nat -> Effects)
    returns (fetched: bool, status: Status, log: seq<ItemOutcome>)
    modifies store
    ensures Run(fetched, status, store.docs, log) == ScheduledRun(old(store.docs), newsKey, feed, fx)
  {
    fetched, status, log := false, NotConfigured, [];
    if !Truthy(newsKey) {
      return;
    }
    fetched := true;
    if feed.Unreachable? || feed.articles.None? {
      status := Internal;
      return;
    }
    var articles := feed.articles.value;
    for i := 0 to |articles|
      invariant Walk(old(store.docs), articles, fx, 0, []) == Walk(store.docs, articles, fx, i, log)
    {
      var article, e := articles[i], fx(i);
      if !e.lookupOk || article.url == Undefined {
        status := Internal;
        return;
      }
      if Query(store.docs, article.url) != [] {
        log := log + [Skipped];
      } else {
        var name := Member(article.source, "name");
        if name.None? {
          status := Internal;
          return;
        }
        var record := PlacedRecord(article, Or(name.value, Str("NewsAPI")), e);
        if !e.writeOk {
          status := Internal;
          return;
        }
        store.Add(record);
        log := log + [Inserted];
      }
    }
    status := Done;
  }

  /** The loop only appends to the store and to the log. */
  lemma {:induction false} WalkAppends(docs: seq<Record>, batch: seq<RawArticle>, fx: nat -> Effects, i: nat, log: seq<ItemOutcome>)
    requires i <= |batch|
    ensures var p := Walk(docs, batch, fx, i, log); docs <= p.docs && log <= p.log
    decreases |batch| - i
  {
    if i < |batch| {
      match StepOf(docs, batch[i], fx(i))
      case Abort =>
      case Skip => WalkAppends(docs, batch, fx, i + 1, log + [Skipped]);
      case Insert(r) => WalkAppends(docs + [r], batch, fx, i + 1, log + [Inserted]);
    }
  }

  /** The loop logs one outcome per candidate it gets through: all of them unless it was cut short. */
  lemma {:induction false} WalkLogLength(docs: seq<Record>, batch: seq<RawArticle>, fx: nat -> Effects, i: nat, log: seq<ItemOutcome>)
    requires i <= |batch|
    ensures var p := Walk(docs, batch, fx, i, log);
      |p.log| <= |log| + (|batch| - i) && (p.aborted <==> |p.log| < |log| + (|batch| - i))
    decreases |batch| - i
  {
    if i < |batch| {
      match StepOf(docs, batch[i], fx(i))
      case Abort =>
      case Skip => WalkLogLength(docs, batch, fx, i + 1, log + [Skipped]);
      case Insert(r) => WalkLogLength(docs + [r], batch, fx, i + 1, log + [Inserted]);
    }
  }

  /** The store grows by exactly the number of Inserted entries, and nothing is logged as dropped. */
  lemma {:induction false} WalkCounts(docs: seq<Record>, batch: seq<RawArticle>, fx: nat -> Effects, i: nat, log: seq<ItemOutcome>)
    requires i <= |batch|
    ensures var p := Walk(docs, batch, fx, i, log);
      |p.docs| - |docs| == Count(p.log).inserted - Count(log).inserted
      && Count(p.log).dropped == Count(log).dropped
    decreases |batch| - i
  {
    if i < |batch| {
      match StepOf(docs, batch[i], fx(i))
      case Abort =>
      case Skip =>
        WalkCounts(docs, batch, fx, i + 1, log + [Skipped]);
        CountSnoc(log, Skipped);
      case Insert(r) =>
        WalkCounts(docs + [r], batch, fx, i + 1, log + [Inserted]);
        CountSnoc(log, Inserted);
    }
  }

  /**
   * The loop only appends, and logs one outcome per candidate it gets through: all
   * of them unless it was cut short. Every appended record has an Inserted entry in
   * the log, and nothing is ever dropped.
   */
  lemma WalkShape(docs: seq<Record>, batch: seq<RawArticle>, fx: nat -> Effects, i: nat, log: seq<ItemOutcome>)
    requires i <= |batch|
    ensures var p := Walk(docs, batch, fx, i, log);
      docs <= p.docs && log <= p.log && |p.log| <= |log| + (|batch| - i)
      && (p.aborted <==> |p.log| < |log| + (|batch| - i))
      && |p.docs| - |docs| == Count(p.log).inserted - Count(log).inserted
      && Count(p.log).dropped == Count(log).dropped
  {
    WalkAppends(docs, batch, fx, i, log);
    WalkLogLength(docs, batch, fx, i, log);
    WalkCounts(docs, batch, fx, i, log);
  }

  /**
   * What a logged entry says about its candidate: the duplicate query ran on a defined
   * url and succeeded, and an inserted one also had a readable `source` and a write that
   * went through.
   */
  predicate GotThrough(o: ItemOutcome, a: RawArticle, e: Effects) {
    e.lookupOk && a.url != Undefined && (o == Inserted ==> Member(a.source, "name").Some? && e.writeOk)
  }

  /** Entries from..|log| of a log aligned with the batch (entry k is about candidate k) got through. */
  predicate LogExplained(log: seq<ItemOutcome>, from: nat, batch: seq<RawArticle>, fx: nat -> Effects) {
    |log| <= |batch| && forall k | from <= k < |log| :: GotThrough(log[k], batch[k], fx(k))
  }

  /**
   * Every candidate the loop logs got through, and a loop cut short stopped at the first
   * candidate whose step throws, against the store as it was then: no later candidate is
   * logged or looked up.
   */
  lemma {:induction false} WalkStopsAtFailure(docs: seq<Record>, batch: seq<RawArticle>, fx: nat -> Effects, i: nat, log: seq<ItemOutcome>)
    requires i <= |batch| && |log| == i
    ensures var p := Walk(docs, batch, fx, i, log);
      LogExplained(p.log, i, batch, fx)
      && (p.aborted ==> |p.log| < |batch| && StepOf(p.docs, batch[|p.log|], fx(|p.log|)) == Abort)
      && (!p.aborted ==> |p.log| == |batch|)
    decreases |batch| - i
  {
    if i < |batch| {
      match StepOf(docs, batch[i], fx(i))
      case Abort =>
      case Skip =>
        WalkStopsAtFailure(docs, batch, fx, i + 1, log + [Skipped]);
        WalkAppends(docs, batch, fx, i + 1, log + [Skipped]);
        assert Walk(docs, batch, fx, i + 1, log + [Skipped]).log[i] == Skipped;
      case Insert(r) =>
        WalkStopsAtFailure(docs + [r], batch, fx, i + 1, log + [Inserted]);
        WalkAppends(docs + [r], batch, fx, i + 1, log + [Inserted]);
        assert Walk(docs + [r], batch, fx, i + 1, log + [Inserted]).log[i] == Inserted;
    }
  }

  /** Each insert is awaited before the next lookup, so unique urls stay unique, repeats included. */
  lemma {:induction false} WalkKeepsUnique(docs: seq<Record>, batch: seq<RawArticle>, fx: nat -> Effects, i: nat, log: seq<ItemOutcome>)
    requires i <= |batch|
    requires UrlsUnique(docs)
    ensures UrlsUnique(Walk(docs, batch, fx, i, log).docs)
    decreases |batch| - i
  {
    if i < |batch| {
      match StepOf(docs, batch[i], fx(i))
      case Abort =>
      case Skip =>
        WalkKeepsUnique(docs, batch, fx, i + 1, log + [Skipped]);
      case Insert(r) =>
        AppendFreshKeepsUnique(docs, r);
        WalkKeepsUnique(docs + [r], batch, fx, i + 1, log + [Inserted]);
    }
  }

  /**
   * The record is the one written for a candidate the log marks Inserted: its fields as
   * `PlacedRecord` takes them from that candidate, with the defaulted source and the
   * candidate's own draws.
   */
  predicate Produced(r: Record, batch: seq<RawArticle>, fx: nat -> Effects, outcomes: seq<ItemOutcome>) {
    exists j | 0 <= j < |outcomes| && j < |batch| ::
      outcomes[j] == Inserted && Member(batch[j].source, "name").Some?
      && r == PlacedRecord(batch[j], Or(Member(batch[j].source, "name").value, Str("NewsAPI")), fx(j))
  }

  /** Every record after the first n is enriched within bounds and was produced for a candidate logged Inserted. */
  predicate AppendedFrom(after: seq<Record>, n: nat, batch: seq<RawArticle>, fx: nat -> Effects, outcomes: seq<ItemOutcome>) {
    forall k | n <= k < |after| :: Enriched(after[k]) && Produced(after[k], batch, fx, outcomes)
  }

  /**
   * Every appended record is enriched within bounds and is the record `PlacedRecord`
   * builds for a candidate the loop logged as Inserted: none comes from a skipped
   * candidate or one after the stop.
   */
  lemma {:induction false} WalkRecords(docs: seq<Record>, batch: seq<RawArticle>, fx: nat -> Effects, i: nat, log: seq<ItemOutcome>)
    requires i <= |batch| && |log| == i
    ensures var p := Walk(docs, batch, fx, i, log); AppendedFrom(p.docs, |docs|, batch, fx, p.log)
    decreases |batch| - i
  {
    if i < |batch| {
      match StepOf(docs, batch[i], fx(i))
      case Abort =>
      case Skip =>
        assert Walk(docs, batch, fx, i, log) == Walk(docs, batch, fx, i + 1, log + [Skipped]);
        WalkRecords(docs, batch, fx, i + 1, log + [Skipped]);
      case Insert(r) =>
        var p := Walk(docs + [r], batch, fx, i + 1, log + [Inserted]);
        WalkRecords(docs + [r], batch, fx, i + 1, log + [Inserted]);
        WalkAppends(docs + [r], batch, fx, i + 1, log + [Inserted]);
        assert p.docs[|docs|] == r;
        assert Produced(r, batch, fx, p.log) by {
          assert p.log[i] == (log + [Inserted])[i] == Inserted;
        }
        assert AppendedFrom(p.docs, |docs| + 1, batch, fx, p.log);
    }
  }

  /**
   * A loop that runs to the end leaves every candidate's url stored, and every candidate
   * it got through had a successful lookup on a defined url.
   */
  lemma {:induction false} WalkStoresAll(docs: seq<Record>, batch: seq<RawArticle>, fx: nat -> Effects, i: nat, log: seq<ItemOutcome>)
    requires i <= |batch|
    ensures var p := Walk(docs, batch, fx, i, log);
      !p.aborted ==> forall j | i <= j < |batch| ::
        fx(j).lookupOk && batch[j].url != Undefined && Stored(p.docs, batch[j].url)
    decreases |batch| - i
  {
    if i < |batch| {
      var p := Walk(docs, batch, fx, i, log);
      match StepOf(docs, batch[i], fx(i))
      case Abort =>
      case Skip =>
        WalkStoresAll(docs, batch, fx, i + 1, log + [Skipped]);
        WalkAppends(docs, batch, fx, i + 1, log + [Skipped]);
        if !p.aborted {
          StoredGrows(docs, p.docs[|docs|..], batch[i].url);
          assert docs + p.docs[|docs|..] == p.docs;
        }
      case Insert(r) =>
        WalkStoresAll(docs + [r], batch, fx, i + 1, log + [Inserted]);
        WalkAppends(docs + [r], batch, fx, i + 1, log + [Inserted]);
        if !p.aborted {
          assert p.docs[|docs|] == r;
        }
    }
  }

  /** Over a batch whose urls are all stored already, the loop skips everything and writes nothing. */
  lemma {:induction false} WalkOverStoredBatch(docs: seq<Record>, batch: seq<RawArticle>, fx: nat -> Effects, i: nat, log: seq<ItemOutcome>)
    requires i <= |batch|
    requires forall j | i <= j < |batch| :: fx(j).lookupOk && batch[j].url != Undefined && Stored(docs, batch[j].url)
    ensures var p := Walk(docs, batch, fx, i, log);
      !p.aborted && p.docs == docs && Count(p.log).skipped == Count(log).skipped + (|batch| - i)
      && |p.log| == |log| + (|batch| - i)
    decreases |batch| - i
  {
    if i < |batch| {
      assert StepOf(docs, batch[i], fx(i)) == Skip;
      WalkOverStoredBatch(docs, batch, fx, i + 1, log + [Skipped]);
      CountSnoc(log, Skipped);
    }
  }

  /**
   * A run only appends. The store grows by exactly the number of Inserted entries; a run
   * that ends normally has one entry per candidate; nothing is logged as dropped.
   */
  lemma RunAppendsOnly(docs: seq<Record>, newsKey: JsValue, feed: FeedResponse, fx: nat -> Effects)
    ensures var r := ScheduledRun(docs, newsKey, feed, fx);
      docs <= r.docs && |r.docs| == |docs| + Count(r.log).inserted && Count(r.log).dropped == 0
      && (r.status == Done ==> feed.Body? && feed.articles.Some? && |r.log| == |feed.articles.value|)
      && (r.status == Internal ==> r.fetched)
  {
    if Truthy(newsKey) && feed.Body? && feed.articles.Some? {
      WalkShape(docs, feed.articles.value, fx, 0, []);
    }
  }

  /** If the store's urls are unique before a run, they are unique after it. */
  lemma RunKeepsUnique(docs: seq<Record>, newsKey: JsValue, feed: FeedResponse, fx: nat -> Effects)
    requires UrlsUnique(docs)
    ensures UrlsUnique(ScheduledRun(docs, newsKey, feed, fx).docs)
  {
    if Truthy(newsKey) && feed.Body? && feed.articles.Some? {
      WalkKeepsUnique(docs, feed.articles.value, fx, 0, []);
    }
  }

  /**
   * Every record a run writes has importance in [1, 100], 1 <= minZoom <= 5 and
   * minZoom <= maxZoom <= 19, and is the record built for one of the candidates it logged.
   */
  lemma RunRecordsEnriched(docs: seq<Record>, newsKey: JsValue, feed: FeedResponse, fx: nat -> Effects)
    ensures var r := ScheduledRun(docs, newsKey, feed, fx);
      forall k | |docs| <= k < |r.docs| :: Enriched(r.docs[k])
    ensures var r := ScheduledRun(docs, newsKey, feed, fx);
      feed.Body? && feed.articles.Some? ==> AppendedFrom(r.docs, |docs|, feed.articles.value, fx, r.log)
  {
    if Truthy(newsKey) && feed.Body? && feed.articles.Some? {
      WalkRecords(docs, feed.articles.value, fx, 0, []);
    }
  }

  /**
   * Running again over the same batch after a run that ended normally writes nothing
   * and skips every candidate, whatever the new random draws, as long as the lookups succeed.
   */
  lemma RerunChangesNothing(docs: seq<Record>, newsKey: JsValue, batch: seq<RawArticle>, fx: nat -> Effects, fx2: nat -> Effects)
    requires ScheduledRun(docs, newsKey, Body(Some(batch)), fx).status == Done
    requires forall j | 0 <= j < |batch| :: fx2(j).lookupOk
    ensures var first := ScheduledRun(docs, newsKey, Body(Some(batch)), fx);
      var second := ScheduledRun(first.docs, newsKey, Body(Some(batch)), fx2);
      second.status == Done && second.docs == first.docs && Count(second.log).skipped == |batch|
  {
    var first := ScheduledRun(docs, newsKey, Body(Some(batch)), fx);
    WalkStoresAll(docs, batch, fx, 0, []);
    WalkOverStoredBatch(first.docs, batch, fx2, 0, []);
  }

  /** Three candidates, one of them already stored, every call succeeding: two records are written. */
  lemma ThreeCandidatesOneKnown(docs: seq<Record>, a: RawArticle, b: RawArticle, c: RawArticle, newsKey: JsValue, fx: nat -> Effects)
    requires Truthy(newsKey)
    requires forall k :: fx(k).lookupOk && fx(k).writeOk
    requires a.url == Str("a") && b.url == Str("b") && c.url == Str("c")
    requires Stored(docs, b.url) && !Stored(docs, a.url) && !Stored(docs, c.url)
    requires Member(a.source, "name").Some? && Member(c.source, "name").Some?
    ensures var r := ScheduledRun(docs, newsKey, Body(Some([a, b, c])), fx);
      r.status == Done && r.log == [Inserted, Skipped, Inserted] && |r.docs| == |docs| + 2
  {
    var batch := [a, b, c];
    assert batch[0] == a && batch[1] == b && batch[2] == c;
    var ra := StepOf(docs, a, fx(0)).record;
    assert StepOf(docs, a, fx(0)) == Insert(ra);
    StoredGrows(docs, [ra], b.url);
    assert StepOf(docs + [ra], b, fx(1)) == Skip;
    var rc := StepOf(docs + [ra], c, fx(2)).record;
    assert StepOf(docs + [ra], c, fx(2)) == Insert(rc);
    assert [] + [Inserted] == [Inserted] && [Inserted] + [Skipped] == [Inserted, Skipped];
    assert [Inserted, Skipped] + [Inserted] == [Inserted, Skipped, Inserted];
    assert Walk(docs, batch, fx, 0, []) == Walk(docs + [ra], batch, fx, 1, [Inserted]);
    assert Walk(docs + [ra], batch, fx, 1, [Inserted]) == Walk(docs + [ra], batch, fx, 2, [Inserted, Skipped]);
    assert Walk(docs + [ra], batch, fx, 2, [Inserted, Skipped]) == Walk(docs + [ra] + [rc], batch, fx, 3, [Inserted, Skipped, Inserted]);
  }
}
