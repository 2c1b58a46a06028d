/**
 * The hourly run of `functions_firebase/index.js` (`fetchNewsAndAnalyze`): check both
 * keys, fetch one page of headlines, stop when it holds no articles, then walk the
 * candidates in order. A candidate whose url is stored is skipped; any other is sent to
 * the generative model, the JSON object is scraped out of its reply, parsed, and one
 * normalised record is appended. A failure in the model call, the extraction, the parse,
 * the record construction or the write drops only that candidate. The duplicate lookup
 * sits outside the per-item handler: its failure abandons the rest of the run, which
 * still returns null, and the records written before it stay.
 */
module AnalyzingFetcher {
  import opened Optional
  import opened JsValues
  import opened Articles
  import opened BraceRegion

  /**
   * What the outside world does for the candidate at one position of the batch: whether
   * the duplicate query succeeds, the text of the model's reply (None when the model
   * call throws), and whether the write succeeds (a failure also covers a `publishedAt`
   * the timestamp conversion rejects).
   */
  datatype Effects = Effects(lookupOk: bool, reply: Option<string>, writeOk: bool)

  /** `JSON.parse` on the scraped region: the members of the object, or None when it throws. */
  type Parser = string -> Option<map<string, JsValue>>

  /** The destructured `{ location, importance }` of the parsed reply, unchecked. */
  datatype Analysis = Analysis(location: JsValue, importance: JsValue)

  /** How the run ends; every ending returns null. */
  datatype Status = MissingNewsKey | MissingGeminiKey | NoArticles | Completed | Abandoned

  /** What one candidate does to the run. */
  datatype Step = Abandon | Skip | Drop | Insert(record: Record)

  /**
   * The model's reply to analysis: the region from the first `{` to the last `}` is
   * parsed and its two members are taken as they are, with no type or range check.
   */
  function Analyse(reply: Option<string>, parse: Parser): (r: Option<Analysis>)
    ensures r.Some? <==> reply.Some? && HasBracePair(reply.value) && parse(Match(reply.value).value).Some?
    ensures r.Some? ==>
      var members := parse(Match(reply.value).value).value;
      r.value.location == Field(members, "location") && r.value.importance == Field(members, "importance")
  {
    if reply.None? then None
    else
      match Match(reply.value)
      case None => None
      case Some(region) =>
        match parse(region)
        case None => None
        case Some(members) => Some(Analysis(Field(members, "location"), Field(members, "importance")))
  }

  /** A stored field defaulted with `|| ""`: the raw value when truthy, the empty string otherwise. */
  predicate Defaulted(raw: JsValue, stored: JsValue) {
    if Truthy(raw) then stored == raw else stored == Str("")
  }

  /**
   * `newsArticleData`: string fields default to "", `content` falls back to the
   * description and then to "", the analysis is stored exactly as parsed. Reading
   * `source.name` throws (None) when `source` is null or undefined.
   */
  function NewsArticleData(a: RawArticle, analysis: Analysis): (r: Option<Record>)
    ensures r.Some? <==> a.source != Undefined && a.source != Null
    ensures r.Some? ==> r.value.Analysed?
    ensures r.Some? ==>
      Defaulted(a.title, r.value.title) && Defaulted(a.author, r.value.author)
      && Defaulted(Member(a.source, "name").value, r.value.source)
      && Defaulted(a.url, r.value.url) && Defaulted(a.urlToImage, r.value.imageUrl)
    ensures r.Some? ==>
      (Truthy(a.content) ==> r.value.content == a.content)
      && (!Truthy(a.content) && Truthy(a.description) ==> r.value.content == a.description)
      && (!Truthy(a.content) && !Truthy(a.description) ==> r.value.content == Str(""))
    ensures r.Some? ==>
      r.value.locationText == analysis.location && r.value.importance == analysis.importance
      && r.value.publishedAt == a.publishedAt
  {
    match Member(a.source, "name")
    case None => None
    case Some(name) =>
      Some(Analysed(
        Or(a.title, Str("")),
        Or(a.author, Str("")),
        Or(name, Str("")),
        Or(a.url, Str("")),
        Or(a.urlToImage, Str("")),
        a.publishedAt,
        Or(Or(a.content, a.description), Str("")),
        analysis.location,
        analysis.importance))
  }

  /** The duplicate query runs without throwing: it succeeds and the url is not undefined. */
  predicate LookupOk(a: RawArticle, e: Effects) {
    e.lookupOk && a.url != Undefined
  }

  /**
   * The per-item handler: the model call, the extraction, the parse, the record
   * construction and the write. The record written, or None when any of them throws.
   */
  function Handled(a: RawArticle, e: Effects, parse: Parser): (r: Option<Record>)
    ensures r.Some? <==>
      Analyse(e.reply, parse).Some? && NewsArticleData(a, Analyse(e.reply, parse).value).Some? && e.writeOk
    ensures r.Some? ==> r.value == NewsArticleData(a, Analyse(e.reply, parse).value).value
    ensures r.Some? ==> r.value.url == Or(a.url, Str(""))
    ensures e.reply.None? || !HasBracePair(e.reply.value) ==> r.None?
  {
    match Analyse(e.reply, parse)
    case None => None
    case Some(analysis) =>
      match NewsArticleData(a, analysis)
      case None => None
      case Some(record) => if e.writeOk then Some(record) else None
  }

  /** One iteration of the loop. */
  function StepOf(docs: seq<Record>, a: RawArticle, e: Effects, parse: Parser): (s: Step)
    ensures s == Abandon <==> !LookupOk(a, e)
    ensures s == Skip <==> LookupOk(a, e) && Stored(docs, a.url)
    ensures s == Drop <==> LookupOk(a, e) && !Stored(docs, a.url) && Handled(a, e, parse).None?
    ensures s.Insert? ==> !Stored(docs, a.url) && Handled(a, e, parse) == Some(s.record)
  {
    if !LookupOk(a, e) then Abandon
    else if Stored(docs, a.url) then Skip
    else
      match Handled(a, e, parse)
      case None => Drop
      case Some(record) => Insert(record)
  }

  /** The store and the log after the loop, and whether it was abandoned. */
  datatype Progress = Progress(docs: seq<Record>, log: seq<ItemOutcome>, abandoned: bool)

  /** The loop from position i on, with the store and log as left by positions before i. */
  function Walk(docs: seq<Record>, batch: seq<RawArticle>, fx: nat -> Effects, parse: Parser, i: nat, log: seq<ItemOutcome>): Progress
    requires i <= |batch|
    decreases |batch| - i
  {
    if i == |batch| then Progress(docs, log, false)
    else
      match StepOf(docs, batch[i], fx(i), parse)
      case Abandon => Progress(docs, log, true)
      case Skip => Walk(docs, batch, fx, parse, i + 1, log + [Skipped])
      case Drop => Walk(docs, batch, fx, parse, i + 1, log + [Dropped])
      case Insert(r) => Walk(docs + [r], batch, fx, parse, i + 1, log + [Inserted])
  }

  /** Everything a run produces: whether the feed was requested, how it ended, the store, the log. */
  datatype Run = Run(fetched: bool, status: Status, docs: seq<Record>, log: seq<ItemOutcome>)

  /** A whole run over the store `docs`, with the two configured keys. */
  function AnalyzingRun(docs: seq<Record>, newsKey: JsValue, geminiKey: JsValue, feed: FeedResponse,
                        fx: nat -> Effects, parse: Parser): (r: Run)
    ensures !r.fetched <==> !Truthy(newsKey) || !Truthy(geminiKey)
    ensures !r.fetched ==> r.docs == docs && r.log == []
    ensures r.status == NoArticles <==>
      r.fetched && feed.Body? && (feed.articles.None? || feed.articles.value == [])
    ensures r.status == NoArticles ==> r.docs == docs && r.log == []
    ensures r.fetched && feed.Unreachable? ==> r.status == Abandoned && r.docs == docs && r.log == []
  {
    if !Truthy(newsKey) then Run(false, MissingNewsKey, docs, [])
    else if !Truthy(geminiKey) then Run(false, MissingGeminiKey, docs, [])
    else
      match feed
      case Unreachable => Run(true, Abandoned, docs, [])
      case Body(None) => Run(true, NoArticles, docs, [])
      case Body(Some(batch)) =>
        if batch == [] then Run(true, NoArticles, docs, [])
        else
          var p := Walk(docs, batch, fx, parse, 0, []);
          Run(true, if p.abandoned then Abandoned else Completed, p.docs, p.log)
  }

  /** `fetchNewsAndAnalyze`, run against the collection `store`. */
  method FetchNewsAndAnalyze(store: Collection, newsKey: JsValue, geminiKey: JsValue, feed: FeedResponse,
                             fx: nat -> Effects, parse: Parser)
    returns (fetched: bool, status: Status, log: seq<ItemOutcome>)
    modifies store
    ensures Run(fetched, status, store.docs, log) == AnalyzingRun(old(store.docs), newsKey, geminiKey, feed, fx, parse)
  {
    fetched, status, log := false, MissingNewsKey, [];
    if !Truthy(newsKey) {
      return;
    }
    if !Truthy(geminiKey) {
      status := MissingGeminiKey;
      return;
    }
    fetched := true;
    if feed.Unreachable? {
      status := Abandoned;
      return;
    }
    if feed.articles.None? || |feed.articles.value| == 0 {
      status := NoArticles;
      return;
    }
    var articles := feed.articles.value;
    for i := 0 to |articles|
      invariant Walk(old(store.docs), articles, fx, parse, 0, []) == Walk(store.docs, articles, fx, parse, i, log)
    {
      var article, e := articles[i], fx(i);
      if !e.lookupOk || article.url == Undefined {
        status := Abandoned;
        return;
      }
      if Query(store.docs, article.url) != [] {
        log := log + [Skipped];
        continue;
      }
      var analysis := Analyse(e.reply, parse);
      if analysis.None? {
        log := log + [Dropped];
        continue;
      }
      var data := NewsArticleData(article, analysis.value);
      if data.None? || !e.writeOk {
        log := log + [Dropped];
        continue;
      }
      store.Add(data.value);
      log := log + [Inserted];
    }
    status := Completed;
  }

  /** The loop only appends to the store and to the log. */
  lemma {:induction false} WalkAppends(docs: seq<Record>, batch: seq<RawArticle>, fx: nat -> Effects, parse: Parser, i: nat, log: seq<ItemOutcome>)
    requires i <= |batch|
    ensures var p := Walk(docs, batch, fx, parse, i, log); docs <= p.docs && log <= p.log
    decreases |batch| - i
  {
    if i < |batch| {
      match StepOf(docs, batch[i], fx(i), parse)
      case Abandon =>
      case Skip => WalkAppends(docs, batch, fx, parse, i + 1, log + [Skipped]);
      case Drop => WalkAppends(docs, batch, fx, parse, i + 1, log + [Dropped]);
      case Insert(r) => WalkAppends(docs + [r], batch, fx, parse, i + 1, log + [Inserted]);
    }
  }

  /** The loop logs one outcome per candidate it gets through: all of them unless it was abandoned. */
  lemma {:induction false} WalkLogLength(docs: seq<Record>, batch: seq<RawArticle>, fx: nat -> Effects, parse: Parser, i: nat, log: seq<ItemOutcome>)
    requires i <= |batch|
    ensures var p := Walk(docs, batch, fx, parse, i, log);
      |p.log| <= |log| + (|batch| - i) && (p.abandoned <==> |p.log| < |log| + (|batch| - i))
    decreases |batch| - i
  {
    if i < |batch| {
      match StepOf(docs, batch[i], fx(i), parse)
      case Abandon =>
      case Skip => WalkLogLength(docs, batch, fx, parse, i + 1, log + [Skipped]);
      case Drop => WalkLogLength(docs, batch, fx, parse, i + 1, log + [Dropped]);
      case Insert(r) => WalkLogLength(docs + [r], batch, fx, parse, i + 1, log + [Inserted]);
    }
  }

  /** The store grows by exactly the number of Inserted entries the loop logs. */
  lemma {:induction false} WalkCounts(docs: seq<Record>, batch: seq<RawArticle>, fx: nat -> Effects, parse: Parser, i: nat, log: seq<ItemOutcome>)
    requires i <= |batch|
    ensures var p := Walk(docs, batch, fx, parse, i, log);
      |p.docs| - |docs| == Count(p.log).inserted - Count(log).inserted
    decreases |batch| - i
  {
    if i < |batch| {
      match StepOf(docs, batch[i], fx(i), parse)
      case Abandon =>
      case Skip =>
        WalkCounts(docs, batch, fx, parse, i + 1, log + [Skipped]);
        CountSnoc(log, Skipped);
      case Drop =>
        WalkCounts(docs, batch, fx, parse, i + 1, log + [Dropped]);
        CountSnoc(log, Dropped);
      case Insert(r) =>
        WalkCounts(docs + [r], batch, fx, parse, i + 1, log + [Inserted]);
        CountSnoc(log, Inserted);
    }
  }

  /**
   * The loop only appends and logs one outcome per candidate it gets through: all of
   * them unless it was abandoned. The store grows by the number of Inserted entries.
   */
  lemma WalkShape(docs: seq<Record>, batch: seq<RawArticle>, fx: nat -> Effects, parse: Parser, i: nat, log: seq<ItemOutcome>)
    requires i <= |batch|
    ensures var p := Walk(docs, batch, fx, parse, i, log);
      docs <= p.docs && log <= p.log && |p.log| <= |log| + (|batch| - i)
      && (p.abandoned <==> |p.log| < |log| + (|batch| - i))
      && |p.docs| - |docs| == Count(p.log).inserted - Count(log).inserted
  {
    WalkAppends(docs, batch, fx, parse, i, log);
    WalkLogLength(docs, batch, fx, parse, i, log);
    WalkCounts(docs, batch, fx, parse, i, log);
  }

  /** The per-item handler catches everything from the model call to the write. */
  predicate ItemFails(a: RawArticle, e: Effects, parse: Parser) {
    Handled(a, e, parse).None?
  }

  /** An outcome agrees with the candidate's effects: inserted ones went through, dropped ones failed. */
  predicate Explains(o: ItemOutcome, a: RawArticle, e: Effects, parse: Parser) {
    match o
    case Inserted => LookupOk(a, e) && !ItemFails(a, e, parse)
    case Dropped => LookupOk(a, e) && ItemFails(a, e, parse)
    case Skipped => LookupOk(a, e)
  }

  /** Entries from..|log| of a log aligned with the batch (entry k is about candidate k) agree with the effects. */
  predicate LogExplained(log: seq<ItemOutcome>, from: nat, batch: seq<RawArticle>, fx: nat -> Effects, parse: Parser) {
    |log| <= |batch| && forall k | from <= k < |log| :: Explains(log[k], batch[k], fx(k), parse)
  }

  /** Every candidate the loop logs had a working lookup and an outcome its own effects explain. */
  lemma {:induction false} WalkExplained(docs: seq<Record>, batch: seq<RawArticle>, fx: nat -> Effects, parse: Parser, i: nat, log: seq<ItemOutcome>)
    requires i <= |batch| && |log| == i
    ensures LogExplained(Walk(docs, batch, fx, parse, i, log).log, i, batch, fx, parse)
    decreases |batch| - i
  {
    if i < |batch| {
      match StepOf(docs, batch[i], fx(i), parse)
      case Abandon =>
      case Skip =>
        var p := Walk(docs, batch, fx, parse, i + 1, log + [Skipped]);
        WalkExplained(docs, batch, fx, parse, i + 1, log + [Skipped]);
        WalkAppends(docs, batch, fx, parse, i + 1, log + [Skipped]);
        WalkLogLength(docs, batch, fx, parse, i + 1, log + [Skipped]);
        assert p.log[i] == Skipped;
        ExplainedOneMore(p.log, i, batch, fx, parse);
      case Drop =>
        var p := Walk(docs, batch, fx, parse, i + 1, log + [Dropped]);
        WalkExplained(docs, batch, fx, parse, i + 1, log + [Dropped]);
        WalkAppends(docs, batch, fx, parse, i + 1, log + [Dropped]);
        WalkLogLength(docs, batch, fx, parse, i + 1, log + [Dropped]);
        assert p.log[i] == Dropped;
        ExplainedOneMore(p.log, i, batch, fx, parse);
      case Insert(r) =>
        var p := Walk(docs + [r], batch, fx, parse, i + 1, log + [Inserted]);
        WalkExplained(docs + [r], batch, fx, parse, i + 1, log + [Inserted]);
        WalkAppends(docs + [r], batch, fx, parse, i + 1, log + [Inserted]);
        WalkLogLength(docs + [r], batch, fx, parse, i + 1, log + [Inserted]);
        assert p.log[i] == Inserted;
        ExplainedOneMore(p.log, i, batch, fx, parse);
    }
  }

  /** An abandoned loop stopped at the first candidate whose lookup threw; any other loop logs every candidate. */
  lemma {:induction false} WalkStopsAtLookup(docs: seq<Record>, batch: seq<RawArticle>, fx: nat -> Effects, parse: Parser, i: nat, log: seq<ItemOutcome>)
    requires i <= |batch| && |log| == i
    ensures var p := Walk(docs, batch, fx, parse, i, log);
      (p.abandoned ==> |p.log| < |batch| && !LookupOk(batch[|p.log|], fx(|p.log|)))
      && (!p.abandoned ==> |p.log| == |batch|)
    decreases |batch| - i
  {
    if i < |batch| {
      match StepOf(docs, batch[i], fx(i), parse)
      case Abandon =>
      case Skip => WalkStopsAtLookup(docs, batch, fx, parse, i + 1, log + [Skipped]);
      case Drop => WalkStopsAtLookup(docs, batch, fx, parse, i + 1, log + [Dropped]);
      case Insert(r) => WalkStopsAtLookup(docs + [r], batch, fx, parse, i + 1, log + [Inserted]);
    }
  }

  /**
   * Only a failed duplicate lookup abandons a run: every candidate the loop gets through
   * had a working lookup and an outcome that its own effects explain, and an abandoned
   * loop stopped at the first candidate whose lookup threw.
   */
  lemma WalkAbandonsOnlyAtLookup(docs: seq<Record>, batch: seq<RawArticle>, fx: nat -> Effects, parse: Parser, i: nat, log: seq<ItemOutcome>)
    requires i <= |batch| && |log| == i
    ensures var p := Walk(docs, batch, fx, parse, i, log);
      LogExplained(p.log, i, batch, fx, parse)
      && (p.abandoned ==> |p.log| < |batch| && !LookupOk(batch[|p.log|], fx(|p.log|)))
      && (!p.abandoned ==> |p.log| == |batch|)
  {
    WalkExplained(docs, batch, fx, parse, i, log);
    WalkStopsAtLookup(docs, batch, fx, parse, i, log);
  }

  /** An explained suffix of the log grows by one entry when that entry is explained too. */
  lemma ExplainedOneMore(log: seq<ItemOutcome>, i: nat, batch: seq<RawArticle>, fx: nat -> Effects, parse: Parser)
    requires LogExplained(log, i + 1, batch, fx, parse) && i < |log|
    requires Explains(log[i], batch[i], fx(i), parse)
    ensures LogExplained(log, i, batch, fx, parse)
  {
  }

  /** The url a candidate is looked up by is also the url it is stored under, `|| ""` changing nothing. */
  predicate KeysPreserved(batch: seq<RawArticle>) {
    forall k | 0 <= k < |batch| :: Or(batch[k].url, Str("")) == batch[k].url
  }

  /** When every candidate is stored under its lookup url, unique urls stay unique. */
  lemma {:induction false} WalkKeepsUnique(docs: seq<Record>, batch: seq<RawArticle>, fx: nat -> Effects, parse: Parser, i: nat, log: seq<ItemOutcome>)
    requires i <= |batch|
    requires UrlsUnique(docs) && KeysPreserved(batch)
    ensures UrlsUnique(Walk(docs, batch, fx, parse, i, log).docs)
    decreases |batch| - i
  {
    if i < |batch| {
      match StepOf(docs, batch[i], fx(i), parse)
      case Abandon =>
      case Skip =>
        WalkKeepsUnique(docs, batch, fx, parse, i + 1, log + [Skipped]);
      case Drop =>
        WalkKeepsUnique(docs, batch, fx, parse, i + 1, log + [Dropped]);
      case Insert(r) =>
        assert r.url == batch[i].url;
        AppendFreshKeepsUnique(docs, r);
        WalkKeepsUnique(docs + [r], batch, fx, parse, i + 1, log + [Inserted]);
    }
  }

  /**
   * The record is the one the handler wrote for a candidate the log marks Inserted:
   * `newsArticleData` of that candidate and its parsed reply, with the write succeeding.
   */
  predicate Produced(r: Record, batch: seq<RawArticle>, fx: nat -> Effects, parse: Parser, outcomes: seq<ItemOutcome>) {
    exists j | 0 <= j < |outcomes| && j < |batch| ::
      outcomes[j] == Inserted && Handled(batch[j], fx(j), parse) == Some(r)
  }

  /** Every record after the first n was produced for a candidate logged Inserted. */
  predicate AppendedFrom(after: seq<Record>, n: nat, batch: seq<RawArticle>, fx: nat -> Effects, parse: Parser,
                         outcomes: seq<ItemOutcome>) {
    forall k | n <= k < |after| :: Produced(after[k], batch, fx, parse, outcomes)
  }

  /**
   * Each appended record is the one the handler wrote for a candidate the loop logged as
   * Inserted: none comes from a skipped or dropped candidate or one after the abandonment.
   */
  lemma {:induction false} WalkRecords(docs: seq<Record>, batch: seq<RawArticle>, fx: nat -> Effects, parse: Parser, i: nat, log: seq<ItemOutcome>)
    requires i <= |batch| && |log| == i
    ensures var p := Walk(docs, batch, fx, parse, i, log); AppendedFrom(p.docs, |docs|, batch, fx, parse, p.log)
    decreases |batch| - i
  {
    if i < |batch| {
      match StepOf(docs, batch[i], fx(i), parse)
      case Abandon =>
      case Skip =>
        assert Walk(docs, batch, fx, parse, i, log) == Walk(docs, batch, fx, parse, i + 1, log + [Skipped]);
        WalkRecords(docs, batch, fx, parse, i + 1, log + [Skipped]);
      case Drop =>
        assert Walk(docs, batch, fx, parse, i, log) == Walk(docs, batch, fx, parse, i + 1, log + [Dropped]);
        WalkRecords(docs, batch, fx, parse, i + 1, log + [Dropped]);
      case Insert(r) =>
        var p := Walk(docs + [r], batch, fx, parse, i + 1, log + [Inserted]);
        WalkRecords(docs + [r], batch, fx, parse, i + 1, log + [Inserted]);
        WalkAppends(docs + [r], batch, fx, parse, i + 1, log + [Inserted]);
        assert p.docs[|docs|] == r;
        assert Produced(r, batch, fx, parse, p.log) by {
          assert p.log[i] == (log + [Inserted])[i] == Inserted;
        }
        assert AppendedFrom(p.docs, |docs| + 1, batch, fx, parse, p.log);
    }
  }

  /** Every candidate from position i on that the log does not mark dropped has its url stored. */
  predicate StoredUnlessDropped(docs: seq<Record>, log: seq<ItemOutcome>, batch: seq<RawArticle>, i: nat) {
    forall j | i <= j < |batch| && j < |log| :: log[j] != Dropped ==> Stored(docs, batch[j].url)
  }

  /** A loop that is not abandoned leaves the url of every candidate it did not drop stored. */
  lemma {:induction false} WalkStoresAll(docs: seq<Record>, batch: seq<RawArticle>, fx: nat -> Effects, parse: Parser, i: nat, log: seq<ItemOutcome>)
    requires i <= |batch| && |log| == i && KeysPreserved(batch)
    ensures var p := Walk(docs, batch, fx, parse, i, log);
      !p.abandoned ==> StoredUnlessDropped(p.docs, p.log, batch, i)
    decreases |batch| - i
  {
    if i < |batch| {
      var p := Walk(docs, batch, fx, parse, i, log);
      match StepOf(docs, batch[i], fx(i), parse)
      case Abandon =>
      case Skip =>
        WalkStoresAll(docs, batch, fx, parse, i + 1, log + [Skipped]);
        WalkAppends(docs, batch, fx, parse, i + 1, log + [Skipped]);
        if !p.abandoned {
          StoredGrows(docs, p.docs[|docs|..], batch[i].url);
          assert docs + p.docs[|docs|..] == p.docs;
          assert StoredUnlessDropped(p.docs, p.log, batch, i + 1);
        }
      case Drop =>
        WalkStoresAll(docs, batch, fx, parse, i + 1, log + [Dropped]);
        WalkAppends(docs, batch, fx, parse, i + 1, log + [Dropped]);
      case Insert(r) =>
        WalkStoresAll(docs + [r], batch, fx, parse, i + 1, log + [Inserted]);
        WalkAppends(docs + [r], batch, fx, parse, i + 1, log + [Inserted]);
        if !p.abandoned {
          assert p.docs[|docs|] == r && r.url == batch[i].url;
          assert StoredUnlessDropped(p.docs, p.log, batch, i + 1);
        }
    }
  }

  /** Over a batch whose urls are all stored already, the loop skips everything and writes nothing. */
  lemma {:induction false} WalkOverStoredBatch(docs: seq<Record>, batch: seq<RawArticle>, fx: nat -> Effects, parse: Parser, i: nat, log: seq<ItemOutcome>)
    requires i <= |batch|
    requires forall j | i <= j < |batch| :: LookupOk(batch[j], fx(j)) && Stored(docs, batch[j].url)
    ensures var p := Walk(docs, batch, fx, parse, i, log);
      !p.abandoned && p.docs == docs && Count(p.log).skipped == Count(log).skipped + (|batch| - i)
      && |p.log| == |log| + (|batch| - i)
    decreases |batch| - i
  {
    if i < |batch| {
      assert StepOf(docs, batch[i], fx(i), parse) == Skip;
      WalkOverStoredBatch(docs, batch, fx, parse, i + 1, log + [Skipped]);
      CountSnoc(log, Skipped);
    }
  }

  /** Every duplicate lookup of the batch succeeds. */
  predicate LookupsOk(batch: seq<RawArticle>, fx: nat -> Effects) {
    forall k | 0 <= k < |batch| :: LookupOk(batch[k], fx(k))
  }

  /**
   * One bad candidate never costs the others: a run with keys and articles is abandoned
   * exactly when some duplicate lookup throws, and otherwise it completes with one
   * outcome per candidate, each explained by that candidate's own effects.
   */
  lemma RunIsolatesItems(docs: seq<Record>, newsKey: JsValue, geminiKey: JsValue, batch: seq<RawArticle>,
                         fx: nat -> Effects, parse: Parser)
    requires Truthy(newsKey) && Truthy(geminiKey) && batch != []
    ensures var r := AnalyzingRun(docs, newsKey, geminiKey, Body(Some(batch)), fx, parse);
      (r.status == Abandoned <==> !LookupsOk(batch, fx))
      && (r.status == Completed <==> LookupsOk(batch, fx))
      && (r.status == Completed ==> |r.log| == |batch|)
      && LogExplained(r.log, 0, batch, fx, parse)
      && |r.docs| == |docs| + Count(r.log).inserted
      && Count(r.log).inserted + Count(r.log).skipped + Count(r.log).dropped == |r.log|
  {
    var p := Walk(docs, batch, fx, parse, 0, []);
    WalkAbandonsOnlyAtLookup(docs, batch, fx, parse, 0, []);
    WalkShape(docs, batch, fx, parse, 0, []);
    if !p.abandoned {
      assert LookupsOk(batch, fx) by {
        forall k | 0 <= k < |batch| ensures LookupOk(batch[k], fx(k)) {
          assert Explains(p.log[k], batch[k], fx(k), parse);
        }
      }
    }
  }

  /** A reply without a `{ ... }` region never produces a record: that candidate alone is lost. */
  lemma ReplyWithoutObject(docs: seq<Record>, newsKey: JsValue, geminiKey: JsValue, batch: seq<RawArticle>,
                           fx: nat -> Effects, parse: Parser, k: nat)
    requires Truthy(newsKey) && Truthy(geminiKey) && LookupsOk(batch, fx)
    requires k < |batch| && fx(k).reply.Some? && !HasBracePair(fx(k).reply.value)
    ensures var r := AnalyzingRun(docs, newsKey, geminiKey, Body(Some(batch)), fx, parse);
      r.status == Completed && |r.log| == |batch| && r.log[k] != Inserted
  {
    RunIsolatesItems(docs, newsKey, geminiKey, batch, fx, parse);
    var r := AnalyzingRun(docs, newsKey, geminiKey, Body(Some(batch)), fx, parse);
    assert Explains(r.log[k], batch[k], fx(k), parse);
  }

  /** A run only appends, and if the store's urls are unique and no candidate's url is defaulted, they stay unique. */
  lemma RunAppendsAndKeepsUnique(docs: seq<Record>, newsKey: JsValue, geminiKey: JsValue, feed: FeedResponse,
                                 fx: nat -> Effects, parse: Parser)
    ensures var r := AnalyzingRun(docs, newsKey, geminiKey, feed, fx, parse);
      docs <= r.docs && |r.docs| == |docs| + Count(r.log).inserted
    ensures var r := AnalyzingRun(docs, newsKey, geminiKey, feed, fx, parse);
      UrlsUnique(docs) && feed.Body? && feed.articles.Some? && KeysPreserved(feed.articles.value)
      ==> UrlsUnique(r.docs)
    ensures var r := AnalyzingRun(docs, newsKey, geminiKey, feed, fx, parse);
      feed.Body? && feed.articles.Some? ==> AppendedFrom(r.docs, |docs|, feed.articles.value, fx, parse, r.log)
  {
    if Truthy(newsKey) && Truthy(geminiKey) && feed.Body? && feed.articles.Some? && feed.articles.value != [] {
      var batch := feed.articles.value;
      WalkShape(docs, batch, fx, parse, 0, []);
      WalkRecords(docs, batch, fx, parse, 0, []);
      if UrlsUnique(docs) && KeysPreserved(batch) {
        WalkKeepsUnique(docs, batch, fx, parse, 0, []);
      }
    }
  }

  /** A reply holding exactly the requested JSON object. */
  const SeoulReply: string := "{\"location\":\"Seoul\",\"importance\":8}"

  /** The reply above is extracted whole and yields location "Seoul" and importance 8. */
  lemma SeoulAnalysed(parse: Parser)
    requires parse(SeoulReply) == Some(map["location" := Str("Seoul"), "importance" := Num(8)])
    ensures Analyse(Some(SeoulReply), parse) == Some(Analysis(Str("Seoul"), Num(8)))
  {
    assert Match(SeoulReply) == Some(SeoulReply) by {
      WrappedObject("", SeoulReply, "");
      assert "" + SeoulReply + "" == SeoulReply;
    }
  }

  /** A null-url candidate that is not stored is inserted under "", and null is still not stored afterwards. */
  lemma NullCandidateInserted(docs: seq<Record>, a: RawArticle, e: Effects, parse: Parser, analysis: Analysis)
    requires a.url == Null && a.source.Obj? && !Stored(docs, Null)
    requires e.lookupOk && e.writeOk && Analyse(e.reply, parse) == Some(analysis)
    ensures var rec := NewsArticleData(a, analysis).value;
      StepOf(docs, a, e, parse) == Insert(rec) && !Stored(docs + [rec], Null)
  {
    var rec := NewsArticleData(a, analysis).value;
    assert !Stored(docs + [rec], Null) by {
      assert (docs + [rec])[|docs|].url == Str("");
      assert forall k | 0 <= k < |docs| :: (docs + [rec])[k] == docs[k];
    }
  }

  /**
   * Whatever the analysis, a batch holding the same null-url candidate twice, with every
   * call succeeding, stores it twice under "".
   */
  lemma NullUrlInsertedTwice(docs: seq<Record>, newsKey: JsValue, geminiKey: JsValue, a: RawArticle,
                             fx: nat -> Effects, parse: Parser, analysis: Analysis)
    requires Truthy(newsKey) && Truthy(geminiKey)
    requires a.url == Null && a.source.Obj? && !Stored(docs, Null)
    requires fx(0).lookupOk && fx(0).writeOk && Analyse(fx(0).reply, parse) == Some(analysis)
    requires fx(1).lookupOk && fx(1).writeOk && Analyse(fx(1).reply, parse) == Some(analysis)
    ensures var r := AnalyzingRun(docs, newsKey, geminiKey, Body(Some([a, a])), fx, parse);
      var rec := NewsArticleData(a, analysis).value;
      r.status == Completed && r.log == [Inserted, Inserted] && r.docs == docs + [rec, rec]
  {
    var rec := NewsArticleData(a, analysis).value;
    NullCandidateInserted(docs, a, fx(0), parse, analysis);
    NullCandidateInserted(docs + [rec], a, fx(1), parse, analysis);
    TwoInserts(docs, [a, a], fx, parse, rec);
    assert docs + [rec] + [rec] == docs + [rec, rec];
  }

  /**
   * A candidate with a null url is looked up with `== null` but stored under "", so a
   * batch holding it twice stores it twice: the dedup key is not unique afterwards. The
   * model replies with a complete analysis, so no field of the record is undefined.
   */
  lemma NullUrlStoredTwice(docs: seq<Record>, newsKey: JsValue, geminiKey: JsValue, a: RawArticle,
                           fx: nat -> Effects, parse: Parser)
    requires Truthy(newsKey) && Truthy(geminiKey)
    requires a.url == Null && a.source.Obj? && !Stored(docs, Null)
    requires forall k :: fx(k) == Effects(true, Some(SeoulReply), true)
    requires parse(SeoulReply) == Some(map["location" := Str("Seoul"), "importance" := Num(8)])
    ensures var r := AnalyzingRun(docs, newsKey, geminiKey, Body(Some([a, a])), fx, parse);
      r.status == Completed && r.log == [Inserted, Inserted] && |r.docs| == |docs| + 2
      && r.docs[|docs|].url == r.docs[|docs| + 1].url == Str("")
      && r.docs[|docs|].Analysed? && r.docs[|docs|].locationText == Str("Seoul") && r.docs[|docs|].importance == Num(8)
  {
    SeoulAnalysed(parse);
    NullUrlInsertedTwice(docs, newsKey, geminiKey, a, fx, parse, Analysis(Str("Seoul"), Num(8)));
  }

  /** Two candidates that are both inserted, the second against the store the first left. */
  lemma TwoInserts(docs: seq<Record>, batch: seq<RawArticle>, fx: nat -> Effects, parse: Parser, rec: Record)
    requires |batch| == 2
    requires StepOf(docs, batch[0], fx(0), parse) == Insert(rec)
    requires StepOf(docs + [rec], batch[1], fx(1), parse) == Insert(rec)
    ensures Walk(docs, batch, fx, parse, 0, []) == Progress(docs + [rec] + [rec], [Inserted, Inserted], false)
  {
    assert [] + [Inserted] == [Inserted] && [Inserted] + [Inserted] == [Inserted, Inserted];
    assert Walk(docs, batch, fx, parse, 0, []) == Walk(docs + [rec], batch, fx, parse, 1, [Inserted]);
    assert Walk(docs + [rec], batch, fx, parse, 1, [Inserted]) == Walk(docs + [rec] + [rec], batch, fx, parse, 2, [Inserted, Inserted]);
  }

  /**
   * Running again over the same batch after a run that completed without dropping
   * anything writes nothing and skips every candidate, whatever the model replies.
   */
  lemma RerunChangesNothing(docs: seq<Record>, newsKey: JsValue, geminiKey: JsValue, batch: seq<RawArticle>,
                            fx: nat -> Effects, fx2: nat -> Effects, parse: Parser)
    requires KeysPreserved(batch)
    requires AnalyzingRun(docs, newsKey, geminiKey, Body(Some(batch)), fx, parse).status == Completed
    requires Count(AnalyzingRun(docs, newsKey, geminiKey, Body(Some(batch)), fx, parse).log).dropped == 0
    requires LookupsOk(batch, fx2)
    ensures var first := AnalyzingRun(docs, newsKey, geminiKey, Body(Some(batch)), fx, parse);
      var second := AnalyzingRun(first.docs, newsKey, geminiKey, Body(Some(batch)), fx2, parse);
      second.status == Completed && second.docs == first.docs && Count(second.log).skipped == |batch|
  {
    var first := AnalyzingRun(docs, newsKey, geminiKey, Body(Some(batch)), fx, parse);
    WalkStoresAll(docs, batch, fx, parse, 0, []);
    WalkShape(docs, batch, fx, parse, 0, []);
    WalkAbandonsOnlyAtLookup(docs, batch, fx, parse, 0, []);
    forall j | 0 <= j < |batch| ensures Stored(first.docs, batch[j].url) {
      if first.log[j] == Dropped {
        DroppedCounted(first.log, j);
      }
    }
    WalkOverStoredBatch(first.docs, batch, fx2, parse, 0, []);
  }
}
