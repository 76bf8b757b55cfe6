/** The crawl state machine of `AvitoParser` (main.py:14-254): the page
    producer `_fetch_page` / `run_parsing`, the consumer `_consume`, the URL
    cache `_db` and the run-wide counters. HTTP responses, the HTML parser and
    the date extractor are inputs. */
module Crawler {

  import opened Wrappers
  import opened Text
  import opened Classifier
  import opened YearExtraction

  /** Prefix of every ad URL put on the queue (main.py:218). */
  const AdUrlPrefix: string := "https://avito.ru/"

  const SiteRoot: string := "https://www.avito.ru"

  /** `_base_url` up to its `{}` placeholder (main.py:27). */
  const PageUrlPrefix: string := SiteRoot + "/moskva/kollektsionirovanie/monety?view=list&p="

  predicate IsAdUrl(url: string)
  {
    AdUrlPrefix <= url
  }

  /** The ad URL of a parsed link id: the site root followed by the id. */
  function AdUrl(id: string): (url: string)
    ensures IsAdUrl(url) && url[|AdUrlPrefix|..] == id
  {
    AdUrlPrefix + id
  }

  /** The listing URL of a page: the base URL with the page number in its
      placeholder. A page URL is never an ad URL. */
  function PageUrl(page: int): (url: string)
    ensures !IsAdUrl(url)
    ensures PageUrlPrefix <= url && url[|PageUrlPrefix|..] == IntToString(page)
  {
    var url := PageUrlPrefix + IntToString(page);
    assert SiteRoot[8] == 'w';
    assert url[8] == SiteRoot[8];
    assert AdUrlPrefix[8] == 'a';
    url
  }

  /** Distinct page numbers give distinct listing URLs. */
  lemma PageUrlInjective(a: int, b: int)
    requires PageUrl(a) == PageUrl(b)
    ensures a == b
  {
    IntToStringInjective(a, b);
  }

  /** The ad URLs enqueued for the link ids of one listing page, in order. */
  function AdUrls(ids: seq<string>): (urls: seq<string>)
    ensures |urls| == |ids|
    ensures forall i :: 0 <= i < |ids| ==> urls[i] == AdUrl(ids[i])
  {
    seq(|ids|, i requires 0 <= i < |ids| => AdUrl(ids[i]))
  }

  /** A value of the shelve store: a listing page's markup, or an ad's
      (title, text) pair, each part possibly `None`. */
  datatype Entry = Page(html: string) | Ad(title: Option<string>, text: Option<string>)

  /** Ad URLs hold ad entries and every other key holds page markup: the store
      written by this program. */
  ghost predicate WellFormedStore(db: map<string, Entry>)
  {
    forall url :: url in db ==> (IsAdUrl(url) <==> db[url].Ad?)
  }

  /** Cached entries are never changed or dropped. */
  ghost predicate KeepsEntries(before: map<string, Entry>, after: map<string, Entry>)
  {
    forall url :: url in before ==> url in after && after[url] == before[url]
  }

  /** Keeping entries is transitive. */
  lemma KeepsEntriesTrans(a: map<string, Entry>, b: map<string, Entry>, c: map<string, Entry>)
    requires KeepsEntries(a, b) && KeepsEntries(b, c)
    ensures KeepsEntries(a, c)
  {
  }

  /** `processed` are the facts of the first URLs of `urls`, in order: each
      of those URLs holds an ad entry in `db`, and its facts are the
      assessment of that entry. */
  ghost predicate ConsumedPrefix(processed: seq<AdFacts>, urls: seq<string>, db: map<string, Entry>,
                                 currentYear: int, dates: string -> seq<Option<int>>)
  {
    |processed| <= |urls|
    && forall k :: 0 <= k < |processed| ==>
         processed[k].url == urls[k] && urls[k] in db && db[urls[k]].Ad?
         && processed[k] == Assess(urls[k], db[urls[k]], currentYear, dates)
  }

  /** Consuming the next URL, while keeping every stored entry, extends the prefix. */
  lemma ConsumedPrefixSnoc(processed: seq<AdFacts>, urls: seq<string>, db: map<string, Entry>,
                           db': map<string, Entry>, facts: AdFacts,
                           currentYear: int, dates: string -> seq<Option<int>>)
    requires ConsumedPrefix(processed, urls, db, currentYear, dates) && KeepsEntries(db, db')
    requires |processed| < |urls| && facts.url == urls[|processed|] && facts.url in db'
    requires db'[facts.url].Ad? && facts == Assess(facts.url, db'[facts.url], currentYear, dates)
    ensures ConsumedPrefix(processed + [facts], urls, db', currentYear, dates)
  {
  }

  /** The consumer's record after it has processed `processed`, having started
      from queue `queue0` and cache `db0` and met `responses` in turn: the
      processed URLs are gone from the front of the queue, the cache is the
      store after them, and each ad's facts are those of its stored entry. */
  ghost predicate ConsumerRecord(processed: seq<AdFacts>, queue0: seq<string>, responses: seq<DetailResponse>,
                                 db0: map<string, Entry>, currentYear: int, dates: string -> seq<Option<int>>,
                                 db: map<string, Entry>, queue: seq<string>)
  {
    |processed| <= |responses| && |processed| <= |queue0|
    && queue == queue0[|processed|..]
    && db == StoreAfter(db0, queue0[..|processed|], responses)
    && ConsumedPrefix(processed, queue0, db, currentYear, dates)
    && KeepsEntries(db0, db)
  }

  /** One more consumer pass, on the URL at the front of the queue with the
      next response, extends the record. */
  lemma ConsumerRecordSnoc(processed: seq<AdFacts>, queue0: seq<string>, responses: seq<DetailResponse>,
                           db0: map<string, Entry>, currentYear: int, dates: string -> seq<Option<int>>,
                           db: map<string, Entry>, queue: seq<string>, facts: AdFacts,
                           db': map<string, Entry>, queue': seq<string>)
    requires ConsumerRecord(processed, queue0, responses, db0, currentYear, dates, db, queue)
    requires |processed| < |responses| && queue != []
    requires facts.url == queue[0] && queue' == queue[1..]
    requires facts.url in db ==> db' == db
    requires facts.url !in db ==> db' == db[facts.url := FetchedEntry(responses[|processed|])]
    requires facts.url in db' && db'[facts.url].Ad? && KeepsEntries(db, db')
    requires facts == Assess(facts.url, db'[facts.url], currentYear, dates)
    ensures ConsumerRecord(processed + [facts], queue0, responses, db0, currentYear, dates, db', queue')
    ensures facts.url == queue0[|processed|]
    ensures facts.url in db <==> facts.url in db0 || facts.url in queue0[..|processed|]
  {
    var n := |processed|;
    assert queue0[n] == queue[0] && queue0[n + 1..] == queue[1..];
    StoreAfterStep(db0, queue0, responses, n);
    KeepsEntriesTrans(db0, db, db');
    ConsumedPrefixSnoc(processed, queue0, db, db', facts, currentYear, dates);
    StoreAfterKeys(db0, queue0[..n], responses, facts.url);
  }

  /** The consumer's counters: ads processed, those with a year, those tagged
      RSFSR, those tagged Russian Empire; requests issued; sleeps taken. */
  datatype ConsumerCounters = ConsumerCounters(ads: nat, withYear: nat, rsfsr: nat, empire: nat,
                                               requests: nat, sleeps: nat)

  /** The counters after the consumer has processed `processed`, the ads at the
      front of `queue0`, starting from `c0`: one ad each, a tag per tagged ad,
      and a request and a sleep per URL it had to fetch. */
  ghost predicate ConsumerCounted(db0: map<string, Entry>, queue0: seq<string>, processed: seq<AdFacts>,
                                  offSleeps: bool, c0: ConsumerCounters, c: ConsumerCounters)
  {
    |processed| <= |queue0|
    && c.ads == c0.ads + |processed|
    && c.withYear == c0.withYear + CountIf(processed, AdFacts.HasYear)
    && c.rsfsr == c0.rsfsr + CountIf(processed, AdFacts.IsRsfsr)
    && c.empire == c0.empire + CountIf(processed, AdFacts.IsEmpire)
    && c.requests == c0.requests + Misses(db0, queue0[..|processed|])
    && c.sleeps == c0.sleeps + (if offSleeps then 0 else Misses(db0, queue0[..|processed|]))
  }

  /** Processing the next URL adds one ad, its tags, and one request and one
      sleep exactly when the URL was neither cached beforehand nor taken
      earlier. */
  lemma ConsumerCountedSnoc(db0: map<string, Entry>, queue0: seq<string>, processed: seq<AdFacts>,
                            facts: AdFacts, cached: bool, offSleeps: bool,
                            c0: ConsumerCounters, c: ConsumerCounters, c': ConsumerCounters)
    requires ConsumerCounted(db0, queue0, processed, offSleeps, c0, c)
    requires |processed| < |queue0| && facts.url == queue0[|processed|]
    requires cached <==> facts.url in db0 || facts.url in queue0[..|processed|]
    requires c'.ads == c.ads + 1
    requires c'.withYear == c.withYear + (if facts.year.Some? then 1 else 0)
    requires c'.rsfsr == c.rsfsr + (if facts.rsfsr then 1 else 0)
    requires c'.empire == c.empire + (if facts.empire then 1 else 0)
    requires c'.requests == c.requests + (if cached then 0 else 1)
    requires c'.sleeps == c.sleeps + (if !offSleeps && !cached then 1 else 0)
    ensures ConsumerCounted(db0, queue0, processed + [facts], offSleeps, c0, c')
  {
    var n := |processed|;
    assert queue0[..n + 1][..n] == queue0[..n];
    CountIfSnoc(processed, facts, AdFacts.HasYear);
    CountIfSnoc(processed, facts, AdFacts.IsRsfsr);
    CountIfSnoc(processed, facts, AdFacts.IsEmpire);
  }

  /** One consumer pass extends both its record and its counters. */
  lemma ConsumerStep(processed: seq<AdFacts>, queue0: seq<string>, responses: seq<DetailResponse>,
                     db0: map<string, Entry>, currentYear: int, dates: string -> seq<Option<int>>,
                     db: map<string, Entry>, queue: seq<string>, facts: AdFacts,
                     db': map<string, Entry>, queue': seq<string>, cached: bool, offSleeps: bool,
                     c0: ConsumerCounters, c: ConsumerCounters, c': ConsumerCounters)
    requires ConsumerRecord(processed, queue0, responses, db0, currentYear, dates, db, queue)
    requires ConsumerCounted(db0, queue0, processed, offSleeps, c0, c)
    requires |processed| < |responses| && queue != []
    requires facts.url == queue[0] && queue' == queue[1..]
    requires facts.url in db ==> db' == db
    requires facts.url !in db ==> db' == db[facts.url := FetchedEntry(responses[|processed|])]
    requires facts.url in db' && db'[facts.url].Ad? && KeepsEntries(db, db')
    requires facts == Assess(facts.url, db'[facts.url], currentYear, dates)
    requires cached == (facts.url in db)
    requires c'.ads == c.ads + 1
    requires c'.withYear == c.withYear + (if facts.year.Some? then 1 else 0)
    requires c'.rsfsr == c.rsfsr + (if facts.rsfsr then 1 else 0)
    requires c'.empire == c.empire + (if facts.empire then 1 else 0)
    requires c'.requests == c.requests + (if cached then 0 else 1)
    requires c'.sleeps == c.sleeps + (if !offSleeps && !cached then 1 else 0)
    ensures ConsumerRecord(processed + [facts], queue0, responses, db0, currentYear, dates, db', queue')
    ensures ConsumerCounted(db0, queue0, processed + [facts], offSleeps, c0, c')
  {
    ConsumerRecordSnoc(processed, queue0, responses, db0, currentYear, dates, db, queue, facts, db', queue');
    ConsumerCountedSnoc(db0, queue0, processed, facts, cached, offSleeps, c0, c, c');
  }


  /** The cache after the consumer has taken `urls` in order, the `k`-th with
      `responses[k]` as the answer to its request: a URL already present is
      read, an absent one is fetched and stored. */
  function StoreAfter(db: map<string, Entry>, urls: seq<string>, responses: seq<DetailResponse>)
    : map<string, Entry>
    requires |urls| <= |responses|
    decreases |urls|
  {
    if urls == [] then db
    else
      var before := StoreAfter(db, urls[..|urls| - 1], responses);
      var url := urls[|urls| - 1];
      if url in before then before else before[url := FetchedEntry(responses[|urls| - 1])]
  }

  /** One more URL taken by the consumer: the last step of `StoreAfter`. */
  lemma StoreAfterStep(db: map<string, Entry>, urls: seq<string>, responses: seq<DetailResponse>, n: nat)
    requires n < |urls| && n < |responses|
    ensures StoreAfter(db, urls[..n + 1], responses)
         == (var before := StoreAfter(db, urls[..n], responses);
             if urls[n] in before then before else before[urls[n] := FetchedEntry(responses[n])])
  {
    assert urls[..n + 1][..n] == urls[..n];
  }

  /** How many of `urls` the consumer had to fetch: those neither in the cache
      beforehand nor taken earlier in the same run. Each costs one request
      and, unless sleeps are off, one sleep. */
  function Misses(db: map<string, Entry>, urls: seq<string>): (n: nat)
    ensures n <= |urls|
    decreases |urls|
  {
    if urls == [] then 0
    else
      var k := |urls| - 1;
      Misses(db, urls[..k]) + (if urls[k] in db || urls[k] in urls[..k] then 0 else 1)
  }

  /** A run over URLs that were all cached makes no request. */
  lemma {:induction false} CachedUrlsNotFetched(db: map<string, Entry>, urls: seq<string>)
    requires forall i :: 0 <= i < |urls| ==> urls[i] in db
    ensures Misses(db, urls) == 0
    decreases |urls|
  {
    if urls != [] {
      CachedUrlsNotFetched(db, urls[..|urls| - 1]);
    }
  }

  /** The consumer's cache keeps every earlier entry and gains exactly the
      URLs it took. */
  lemma {:induction false} StoreAfterKeys(db: map<string, Entry>, urls: seq<string>,
                                          responses: seq<DetailResponse>, url: string)
    requires |urls| <= |responses|
    ensures KeepsEntries(db, StoreAfter(db, urls, responses))
    ensures url in StoreAfter(db, urls, responses) <==> url in db || url in urls
    decreases |urls|
  {
    if urls != [] {
      var init := urls[..|urls| - 1];
      StoreAfterKeys(db, init, responses, url);
      assert urls == init + [urls[|urls| - 1]];
      var before := StoreAfter(db, init, responses);
      forall u | u in db ensures u in before && before[u] == db[u] {
        StoreAfterKeys(db, init, responses, u);
      }
    }
  }

  /** A URL that was not cached is stored with the answer to the pass that
      first took it; later passes over the same URL read it back. */
  lemma {:induction false} StoreAfterFirstFetch(db: map<string, Entry>, urls: seq<string>,
                                                responses: seq<DetailResponse>, j: nat)
    requires |urls| <= |responses| && j < |urls|
    requires urls[j] !in db && forall i :: 0 <= i < j ==> urls[i] != urls[j]
    ensures urls[j] in StoreAfter(db, urls, responses)
    ensures StoreAfter(db, urls, responses)[urls[j]] == FetchedEntry(responses[j])
    decreases |urls|
  {
    var init := urls[..|urls| - 1];
    if j == |urls| - 1 {
      StoreAfterKeys(db, init, responses, urls[j]);
      assert urls[j] !in init by {
        forall i | 0 <= i < |init| ensures init[i] != urls[j] {
          assert init[i] == urls[i];
        }
      }
    } else {
      StoreAfterFirstFetch(db, init, responses, j);
    }
  }

  /** What an ad page request answers: its status and, from its markup, the
      lowercased title and description nodes when present. */
  datatype DetailResponse = DetailResponse(status: int, titleNode: Option<string>, descriptionNode: Option<string>)

  /** `_get_title_text`: `(None, None)` unless the status is 200. */
  function FetchedEntry(resp: DetailResponse): (e: Entry)
    ensures e.Ad?
    ensures resp.status != 200 ==> e == Ad(None, None)
  {
    if resp.status != 200 then Ad(None, None) else Ad(resp.titleNode, resp.descriptionNode)
  }

  /** How string formatting shows an optional text: the text itself, or `None`. */
  function Shown(v: Option<string>): string
  {
    match v
    case None => "None"
    case Some(s) => s
  }

  /** The ad text the consumer classifies: the title and the description,
      each shown as Python's `str` would (a missing one as `None`), joined by
      one space. */
  function AdText(title: Option<string>, text: Option<string>): (r: string)
    ensures |r| == |Shown(title)| + 1 + |Shown(text)|
    ensures r[..|Shown(title)|] == Shown(title) && r[|Shown(title)|] == ' '
    ensures r[|Shown(title)| + 1..] == Shown(text)
  {
    Shown(title) + " " + Shown(text)
  }

  /** What the consumer derives from one ad. */
  datatype AdFacts = AdFacts(url: string, year: Option<int>, rsfsr: bool, empire: bool)
  {
    static predicate HasYear(f: AdFacts) { f.year.Some? }
    static predicate IsRsfsr(f: AdFacts) { f.rsfsr }
    static predicate IsEmpire(f: AdFacts) { f.empire }
  }

  /** Year and tags of the ad `url` whose stored entry is `entry`; `dates`
      stands for the date extractor (its facts' years, in order). */
  function Assess(url: string, entry: Entry, currentYear: int, dates: string -> seq<Option<int>>): (f: AdFacts)
    requires entry.Ad?
    ensures f.url == url
    ensures f.rsfsr ==> YearOrZero(f.year) == 0 || 1922 <= YearOrZero(f.year) <= 1991
    ensures f.empire && !EmpireSelfReference(AdText(entry.title, entry.text)) ==> 1721 <= YearOrZero(f.year) <= 1917
    ensures f.year.Some? && f.year !in dates(AdText(entry.title, entry.text)) ==> 1000 <= f.year.value <= currentYear
  {
    var text := AdText(entry.title, entry.text);
    var year := YearFromText(text, currentYear, dates(text));
    AdFacts(url, year, ProducedByRsfsr(text, year), ProducedByRusEmpire(text, year))
  }

  /** A failed fetch, stored as `(None, None)`, is never tagged, whatever year
      the date extractor makes of the text "None None". */
  lemma FailedFetchIsUntagged(url: string, currentYear: int, dates: string -> seq<Option<int>>)
    ensures !Assess(url, Ad(None, None), currentYear, dates).rsfsr
    ensures !Assess(url, Ad(None, None), currentYear, dates).empire
  {
    var text := AdText(None, None);
    assert text == "None None";
    UntaggedBelowR(text, YearFromText(text, currentYear, dates(text)));
  }

  /** How many elements of `s` satisfy `p`. */
  function CountIf<T>(s: seq<T>, p: T -> bool): (n: nat)
    ensures n <= |s|
  {
    if s == [] then 0 else CountIf(s[..|s| - 1], p) + (if p(s[|s| - 1]) then 1 else 0)
  }

  /** Appending one element adds one to the tally exactly when it qualifies. */
  lemma CountIfSnoc<T>(s: seq<T>, x: T, p: T -> bool)
    ensures CountIf(s + [x], p) == CountIf(s, p) + (if p(x) then 1 else 0)
  {
    assert (s + [x])[..|s|] == s;
  }

  /** A listing-page request's answer: status, body and `Location` header. */
  datatype PageResponse = PageResponse(status: int, body: string, location: Option<string>)

  /** The outcomes of `_fetch_page`. `NoLocation` is a 302 without a `Location`
      header: testing the missing header for "blocked" raises `TypeError`. */
  datatype PageOutcome =
    | Cached(html: string)
    | Ok(html: string)
    | Blocked
    | Redirected
    | OtherStatus
    | NoLocation
  {
    /** Markup was obtained, so `_fetch_page` returns 1. */
    predicate Obtained()
    {
      Cached? || Ok?
    }

    static predicate IsObtained(o: PageOutcome)
    {
      o.Obtained()
    }

    /** The page was not in the cache, so a request went out. */
    static predicate IsRequested(o: PageOutcome)
    {
      !o.Cached?
    }

    /** The captcha redirect, slept on unless sleeps are off. */
    static predicate IsCaptcha(o: PageOutcome)
    {
      o.Blocked?
    }

    /** The ordinary sleep after a request: it follows every pass that made a
        request, except the one that raised `TypeError` before reaching it. */
    static predicate IsFollowedBySleep(o: PageOutcome)
    {
      !o.Cached? && !o.NoLocation?
    }
  }

  /** The outcome of a page fetch given the cached markup, if any, and the
      response the network would give. */
  function OutcomeOf(cached: Option<string>, resp: PageResponse): (o: PageOutcome)
    ensures o.Obtained() <==> cached.Some? || resp.status == 200
    ensures o.Cached? <==> cached.Some?
    ensures o.Ok? ==> o.html == resp.body
    ensures o.Cached? ==> o.html == cached.value
    ensures o.Redirected? <==> cached.None? && resp.status == 302 && resp.location.Some?
                               && !Contains(resp.location.value, "blocked")
    ensures o.Blocked? <==> cached.None? && resp.status == 302 && resp.location.Some?
                            && Contains(resp.location.value, "blocked")
    ensures o.NoLocation? <==> cached.None? && resp.status == 302 && resp.location.None?
    ensures o.OtherStatus? <==> cached.None? && resp.status != 200 && resp.status != 302
  {
    if cached.Some? then Cached(cached.value)
    else if resp.status == 200 then Ok(resp.body)
    else if resp.status == 302 then
      match resp.location
      case None => NoLocation
      case Some(loc) => if Contains(loc, "blocked") then Blocked else Redirected
    else OtherStatus
  }

  /** Only the last pass of a run may stop it, by a redirect or by an error. */
  ghost predicate OnlyLastStops(outcomes: seq<PageOutcome>)
  {
    forall k :: 0 <= k < |outcomes| - 1 ==> !outcomes[k].Redirected? && !outcomes[k].NoLocation?
  }

  lemma OnlyLastStopsSnoc(outcomes: seq<PageOutcome>, o: PageOutcome)
    requires OnlyLastStops(outcomes)
    requires outcomes != [] ==> !outcomes[|outcomes| - 1].Redirected? && !outcomes[|outcomes| - 1].NoLocation?
    ensures OnlyLastStops(outcomes + [o])
  {
  }

  /** The producer loop's control state after `outcomes`: it ran only if
      `runLoop` was set on entry (`started`), it stops running after a pass
      that met the blocking redirect, and `raised` records the redirect
      without `Location` that ends it with an exception. */
  ghost predicate PassControl(started: bool, running: bool, raised: bool, outcomes: seq<PageOutcome>)
  {
    OnlyLastStops(outcomes)
    && (!started ==> outcomes == [])
    && (raised <==> outcomes != [] && outcomes[|outcomes| - 1].NoLocation?)
    && (started && !running ==> outcomes != [] && outcomes[|outcomes| - 1].Redirected?)
    && (running ==> started && (outcomes == [] || !outcomes[|outcomes| - 1].Redirected?))
  }

  lemma PassControlSnoc(started: bool, outcomes: seq<PageOutcome>, o: PageOutcome, running: bool, raised: bool)
    requires PassControl(started, true, false, outcomes)
    requires running == !o.Redirected? && raised == o.NoLocation?
    ensures PassControl(started, running, raised, outcomes + [o])
  {
    OnlyLastStopsSnoc(outcomes, o);
  }

  /** What one pass of the producer adds to the counters: a request unless the
      page was cached; a captcha sleep on the captcha redirect; an ordinary
      sleep after every request except the one that raised. Sleeps count only
      when they are on. */
  predicate PassCounted(o: PageOutcome, offSleeps: bool, requests0: nat, sleeps0: nat, captchaSleeps0: nat,
                        requests: nat, sleeps: nat, captchaSleeps: nat)
  {
    requests == requests0 + (if o.Cached? then 0 else 1)
    && sleeps == sleeps0 + (if !offSleeps && !o.Cached? && !o.NoLocation? then 1 else 0)
    && captchaSleeps == captchaSleeps0 + (if o.Blocked? && !offSleeps then 1 else 0)
  }

  /** The request, sleep and captcha-sleep counters after the producer passes
      `outcomes`: a request per uncached page, a captcha sleep per captcha
      redirect and an ordinary sleep per request that did not raise, the
      sleeps only when they are on. */
  ghost predicate RunCounted(outcomes: seq<PageOutcome>, offSleeps: bool,
                             requests0: nat, sleeps0: nat, captchaSleeps0: nat,
                             requests: nat, sleeps: nat, captchaSleeps: nat)
  {
    requests == requests0 + CountIf(outcomes, PageOutcome.IsRequested)
    && sleeps == sleeps0 + (if offSleeps then 0 else CountIf(outcomes, PageOutcome.IsFollowedBySleep))
    && captchaSleeps == captchaSleeps0 + (if offSleeps then 0 else CountIf(outcomes, PageOutcome.IsCaptcha))
  }

  lemma RunCountedSnoc(outcomes: seq<PageOutcome>, o: PageOutcome, offSleeps: bool,
                       requests0: nat, sleeps0: nat, captchaSleeps0: nat,
                       requests: nat, sleeps: nat, captchaSleeps: nat,
                       requests': nat, sleeps': nat, captchaSleeps': nat)
    requires RunCounted(outcomes, offSleeps, requests0, sleeps0, captchaSleeps0, requests, sleeps, captchaSleeps)
    requires PassCounted(o, offSleeps, requests, sleeps, captchaSleeps, requests', sleeps', captchaSleeps')
    ensures RunCounted(outcomes + [o], offSleeps, requests0, sleeps0, captchaSleeps0, requests', sleeps', captchaSleeps')
  {
    CountIfSnoc(outcomes, o, PageOutcome.IsRequested);
    CountIfSnoc(outcomes, o, PageOutcome.IsFollowedBySleep);
    CountIfSnoc(outcomes, o, PageOutcome.IsCaptcha);
  }

  /** Over any run, every captcha sleep comes with an ordinary sleep (the
      captcha is slept on twice), and every ordinary sleep follows a request. */
  lemma {:induction false} SleepsFollowRequests(outcomes: seq<PageOutcome>)
    ensures CountIf(outcomes, PageOutcome.IsCaptcha) <= CountIf(outcomes, PageOutcome.IsFollowedBySleep)
    ensures CountIf(outcomes, PageOutcome.IsFollowedBySleep) <= CountIf(outcomes, PageOutcome.IsRequested)
    decreases |outcomes|
  {
    if outcomes != [] {
      SleepsFollowRequests(outcomes[..|outcomes| - 1]);
    }
  }

  /** The markup `_db` holds for a listing URL, if any. */
  function CachedHtml(db: map<string, Entry>, url: string): (r: Option<string>)
    requires WellFormedStore(db) && !IsAdUrl(url)
    ensures r.Some? <==> url in db
    ensures r.Some? ==> db[url] == Page(r.value)
  {
    if url in db then Some(db[url].html) else None
  }

  /** The ad URLs a run of page fetches puts on the queue: those of every
      page whose markup was obtained, in page order. */
  function EnqueuedAds(outcomes: seq<PageOutcome>, parseLinks: string -> seq<string>): seq<string>
    decreases |outcomes|
  {
    if outcomes == [] then []
    else
      var last := outcomes[|outcomes| - 1];
      EnqueuedAds(outcomes[..|outcomes| - 1], parseLinks)
        + (if last.Obtained() then AdUrls(parseLinks(last.html)) else [])
  }

  /** One more pass appends the ad URLs of its page, if it obtained one. */
  lemma EnqueuedAdsSnoc(queue0: seq<string>, outcomes: seq<PageOutcome>, o: PageOutcome,
                        parseLinks: string -> seq<string>, before: seq<string>, after: seq<string>)
    requires before == queue0 + EnqueuedAds(outcomes, parseLinks)
    requires o.Obtained() ==> after == before + AdUrls(parseLinks(o.html))
    requires !o.Obtained() ==> after == before
    ensures after == queue0 + EnqueuedAds(outcomes + [o], parseLinks)
  {
    assert (outcomes + [o])[..|outcomes|] == outcomes;
  }

  /** The cache after a run of page fetches: the markup of every page obtained
      on the way is stored under its URL, later passes last. */
  function StoredPages(db: map<string, Entry>, outcomes: seq<PageOutcome>, pages: seq<int>): map<string, Entry>
    requires |pages| == |outcomes|
    decreases |outcomes|
  {
    if outcomes == [] then db
    else
      var n := |outcomes| - 1;
      var before := StoredPages(db, outcomes[..n], pages[..n]);
      if outcomes[n].Obtained() then before[PageUrl(pages[n]) := Page(outcomes[n].html)] else before
  }

  lemma StoredPagesSnoc(db: map<string, Entry>, outcomes: seq<PageOutcome>, pages: seq<int>, o: PageOutcome, p: int)
    requires |pages| == |outcomes|
    ensures StoredPages(db, outcomes + [o], pages + [p])
         == (if o.Obtained() then StoredPages(db, outcomes, pages)[PageUrl(p) := Page(o.html)]
             else StoredPages(db, outcomes, pages))
  {
    assert (outcomes + [o])[..|outcomes|] == outcomes;
    assert (pages + [p])[..|pages|] == pages;
  }

  /** `pages[k]` is the page the `k`-th pass fetched: the start page plus one
      for every earlier pass that obtained markup. */
  ghost predicate PageCursor(pageNum: int, outcomes: seq<PageOutcome>, pages: seq<int>)
  {
    |pages| == |outcomes|
    && forall k {:trigger pages[k]} :: 0 <= k < |outcomes| ==> pages[k] == pageNum + CountIf(outcomes[..k], PageOutcome.IsObtained)
  }

  lemma PageCursorSnoc(pageNum: int, outcomes: seq<PageOutcome>, pages: seq<int>, o: PageOutcome)
    requires PageCursor(pageNum, outcomes, pages)
    ensures PageCursor(pageNum, outcomes + [o], pages + [pageNum + CountIf(outcomes, PageOutcome.IsObtained)])
  {
    var outcomes' := outcomes + [o];
    forall k | 0 <= k < |outcomes| ensures outcomes'[..k] == outcomes[..k] {
    }
    assert outcomes'[..|outcomes|] == outcomes;
  }

  /** Each pass's outcome is that of its page against the cache as it was
      before the run, and of that pass's response. */
  ghost predicate PageOutcomes(responses: seq<PageResponse>, db: map<string, Entry>,
                               outcomes: seq<PageOutcome>, pages: seq<int>)
  {
    |pages| == |outcomes| <= |responses| && WellFormedStore(db)
    && forall k :: 0 <= k < |outcomes| ==> outcomes[k] == OutcomeOf(CachedHtml(db, PageUrl(pages[k])), responses[k])
  }

  lemma PageOutcomesSnoc(responses: seq<PageResponse>, db: map<string, Entry>,
                         outcomes: seq<PageOutcome>, pages: seq<int>, o: PageOutcome, p: int)
    requires PageOutcomes(responses, db, outcomes, pages) && |outcomes| < |responses|
    requires o == OutcomeOf(CachedHtml(db, PageUrl(p)), responses[|outcomes|])
    ensures PageOutcomes(responses, db, outcomes + [o], pages + [p])
  {
    var outcomes', pages' := outcomes + [o], pages + [p];
    forall k | 0 <= k < |outcomes'|
      ensures outcomes'[k] == OutcomeOf(CachedHtml(db, PageUrl(pages'[k])), responses[k])
    {
      if k < |outcomes| {
        assert outcomes'[k] == outcomes[k] && pages'[k] == pages[k];
      }
    }
  }

  /** A pass that fetches an uncached page and gets no 200 obtains nothing. */
  lemma UncachedFailureObtainsNothing(db: map<string, Entry>, page: int, resp: PageResponse)
    requires WellFormedStore(db) && PageUrl(page) !in db && resp.status != 200
    ensures !OutcomeOf(CachedHtml(db, PageUrl(page)), resp).Obtained()
  {
  }

  /** While no pass at the start page obtains markup, the cursor stays there. */
  lemma {:induction false} CursorStaysWithoutMarkup(pageNum: int, outcomes: seq<PageOutcome>, pages: seq<int>)
    requires PageCursor(pageNum, outcomes, pages)
    requires forall k :: 0 <= k < |outcomes| && pages[k] == pageNum ==> !outcomes[k].Obtained()
    ensures CountIf(outcomes, PageOutcome.IsObtained) == 0
    ensures forall k :: 0 <= k < |outcomes| ==> pages[k] == pageNum
    decreases |outcomes|
  {
    if outcomes != [] {
      var n := |outcomes| - 1;
      var init := outcomes[..n];
      assert PageCursor(pageNum, init, pages[..n]) by {
        forall k | 0 <= k < n ensures init[..k] == outcomes[..k] {
        }
      }
      CursorStaysWithoutMarkup(pageNum, init, pages[..n]);
      forall k | 0 <= k < n ensures pages[k] == pageNum {
        assert pages[..n][k] == pages[k];
      }
      assert outcomes[..n] == init;
    }
  }

  /** A listing page that is not cached and never answers 200 is fetched again
      and again: the cursor never moves and no pass obtains markup. */
  lemma FailedPageRetried(pageNum: int, responses: seq<PageResponse>, db: map<string, Entry>,
                          outcomes: seq<PageOutcome>, pages: seq<int>)
    requires PageCursor(pageNum, outcomes, pages) && PageOutcomes(responses, db, outcomes, pages)
    requires PageUrl(pageNum) !in db
    requires forall k :: 0 <= k < |outcomes| ==> responses[k].status != 200
    ensures CountIf(outcomes, PageOutcome.IsObtained) == 0
    ensures forall k :: 0 <= k < |outcomes| ==> pages[k] == pageNum
  {
    forall k | 0 <= k < |outcomes| && pages[k] == pageNum ensures !outcomes[k].Obtained() {
      UncachedFailureObtainsNothing(db, pageNum, responses[k]);
    }
    CursorStaysWithoutMarkup(pageNum, outcomes, pages);
  }

  /** The producer loop's record after the passes `outcomes`, started from
      page `pageNum` with cache `db0` and queue `queue0`: the cursor
      `curPage` counts the passes that obtained markup, each pass fetched the
      page the cursor named and met the outcome its response gives, the cache
      holds exactly the markup obtained, and the queue the ads found in it. */
  ghost predicate Traced(pageNum: int, responses: seq<PageResponse>, parseLinks: string -> seq<string>,
                         db0: map<string, Entry>, queue0: seq<string>, curPage: int,
                         outcomes: seq<PageOutcome>, pages: seq<int>, db: map<string, Entry>, queue: seq<string>)
  {
    curPage == pageNum + CountIf(outcomes, PageOutcome.IsObtained)
    && PageCursor(pageNum, outcomes, pages)
    && PageOutcomes(responses, db0, outcomes, pages)
    && db == StoredPages(db0, outcomes, pages)
    && queue == queue0 + EnqueuedAds(outcomes, parseLinks)
  }

  /** A pass that fetched page `curPage` and met outcome `o` extends the
      record: its page is the cursor, its outcome is the one its response
      gives, and the cache and queue grow exactly by what it obtained. */
  lemma PassRecorded(pageNum: int, responses: seq<PageResponse>, parseLinks: string -> seq<string>,
                     db0: map<string, Entry>, queue0: seq<string>, curPage: int,
                     outcomes: seq<PageOutcome>, pages: seq<int>, o: PageOutcome,
                     db: map<string, Entry>, queue: seq<string>, db': map<string, Entry>, queue': seq<string>)
    requires Traced(pageNum, responses, parseLinks, db0, queue0, curPage, outcomes, pages, db, queue)
    requires |outcomes| < |responses| && o == OutcomeOf(CachedHtml(db0, PageUrl(curPage)), responses[|outcomes|])
    requires o.Obtained() ==> db' == db[PageUrl(curPage) := Page(o.html)] && queue' == queue + AdUrls(parseLinks(o.html))
    requires !o.Obtained() ==> db' == db && queue' == queue
    ensures Traced(pageNum, responses, parseLinks, db0, queue0, curPage + (if o.Obtained() then 1 else 0),
                   outcomes + [o], pages + [curPage], db', queue')
  {
    CountIfSnoc(outcomes, o, PageOutcome.IsObtained);
    PageCursorSnoc(pageNum, outcomes, pages, o);
    PageOutcomesSnoc(responses, db0, outcomes, pages, o, curPage);
    StoredPagesSnoc(db0, outcomes, pages, o, curPage);
    EnqueuedAdsSnoc(queue0, outcomes, o, parseLinks, queue, queue');
  }

  /** The record of all passes but the last is itself a cursor record, and the
      last pass fetched the page the earlier passes had advanced to. */
  lemma PageCursorInit(pageNum: int, outcomes: seq<PageOutcome>, pages: seq<int>)
    requires PageCursor(pageNum, outcomes, pages) && outcomes != []
    ensures PageCursor(pageNum, outcomes[..|outcomes| - 1], pages[..|outcomes| - 1])
    ensures pages[|outcomes| - 1] == pageNum + CountIf(outcomes[..|outcomes| - 1], PageOutcome.IsObtained)
  {
    var n := |outcomes| - 1;
    forall k | 0 <= k < n ensures outcomes[..n][..k] == outcomes[..k] {
    }
  }

  /** The pages stored by a run all lie below the cursor, so for the current
      page and every later one the cache still holds what it held before. */
  lemma {:induction false} StoredPagesBelowCursor(db: map<string, Entry>, pageNum: int,
                                                  outcomes: seq<PageOutcome>, pages: seq<int>, p: int)
    requires PageCursor(pageNum, outcomes, pages)
    requires p >= pageNum + CountIf(outcomes, PageOutcome.IsObtained)
    ensures PageUrl(p) in StoredPages(db, outcomes, pages) <==> PageUrl(p) in db
    ensures PageUrl(p) in db ==> StoredPages(db, outcomes, pages)[PageUrl(p)] == db[PageUrl(p)]
    decreases |outcomes|
  {
    if outcomes != [] {
      var n := |outcomes| - 1;
      PageCursorInit(pageNum, outcomes, pages);
      StoredPagesBelowCursor(db, pageNum, outcomes[..n], pages[..n], p);
      if outcomes[n].Obtained() && PageUrl(p) == PageUrl(pages[n]) {
        PageUrlInjective(p, pages[n]);
        assert false;
      }
    }
  }

  class AvitoParser {
    /** `_off_sleeps`. */
    const offSleeps: bool
    /** `_run_loop`. */
    var runLoop: bool
    /** `_db`, the persistent cache keyed by URL. */
    var db: map<string, Entry>
    /** `_queue`, the ad URLs waiting for the consumer, oldest first. */
    var queue: seq<string>
    var nAds: nat
    var nAdsHaveYear: nat
    var nRsfsrAds: nat
    var nRusEmpireAds: nat
    /** Network requests issued. */
    ghost var requests: nat
    /** `_random_sleep` calls between requests. */
    ghost var sleeps: nat
    /** Sleeps after a captcha redirect. */
    ghost var captchaSleeps: nat

    ghost predicate Valid()
      reads this
    {
      nAdsHaveYear <= nAds && nRsfsrAds <= nAds && nRusEmpireAds <= nAds
      && WellFormedStore(db)
      && forall i :: 0 <= i < |queue| ==> IsAdUrl(queue[i])
    }

    /** The counters the consumer updates, as one value. */
    ghost function Counters(): ConsumerCounters
      reads this
    {
      ConsumerCounters(nAds, nAdsHaveYear, nRsfsrAds, nRusEmpireAds, requests, sleeps)
    }

    /** `__init__` over a store written by earlier runs. */
    constructor (offSleeps: bool, store: map<string, Entry>)
      requires WellFormedStore(store)
      ensures Valid()
      ensures this.offSleeps == offSleeps && runLoop && db == store && queue == []
      ensures nAds == 0 && nAdsHaveYear == 0 && nRsfsrAds == 0 && nRusEmpireAds == 0
      ensures requests == 0 && sleeps == 0 && captchaSleeps == 0
    {
      this.offSleeps := offSleeps;
      runLoop := true;
      db := store;
      queue := [];
      nAds, nAdsHaveYear, nRsfsrAds, nRusEmpireAds := 0, 0, 0, 0;
      requests, sleeps, captchaSleeps := 0, 0, 0;
    }

    /** `total_ads`: every tally is a part of it. */
    function TotalAds(): (r: nat)
      reads this
      requires Valid()
      ensures nAdsHaveYear <= r && nRsfsrAds <= r && nRusEmpireAds <= r
    {
      nAds
    }

    /** `ads_without_year`: never negative, never above the total. */
    function AdsWithoutYear(): (r: nat)
      reads this
      requires Valid()
      ensures r <= nAds && r + nAdsHaveYear == nAds
    {
      nAds - nAdsHaveYear
    }

    /** `rsfsr_ads`. */
    function RsfsrAds(): (r: nat)
      reads this
      requires Valid()
      ensures r <= nAds
    {
      nRsfsrAds
    }

    /** `russian_empire_ads`. */
    function RussianEmpireAds(): (r: nat)
      reads this
      requires Valid()
      ensures r <= nAds
    {
      nRusEmpireAds
    }

    /** One pass of `_consume`'s loop, once `_queue.get()` has handed over the
        oldest URL: resolve it through the cache (fetching and storing on a
        miss, a failed fetch included), classify it and bump the counters. */
    method ConsumeOne(resp: DetailResponse, currentYear: int, dates: string -> seq<Option<int>>)
      returns (facts: AdFacts, cached: bool)
      requires Valid() && queue != []
      modifies this
      ensures Valid()
      ensures facts.url == old(queue[0]) && queue == old(queue[1..])
      ensures cached == (facts.url in old(db))
      ensures cached ==> db == old(db) && requests == old(requests)
      ensures !cached ==> db == old(db)[facts.url := FetchedEntry(resp)] && requests == old(requests) + 1
      ensures facts.url in db && db[facts.url].Ad? && KeepsEntries(old(db), db)
      ensures facts == Assess(facts.url, db[facts.url], currentYear, dates)
      ensures nAds == old(nAds) + 1
      ensures nAdsHaveYear == old(nAdsHaveYear) + (if facts.year.Some? then 1 else 0)
      ensures nRsfsrAds == old(nRsfsrAds) + (if facts.rsfsr then 1 else 0)
      ensures nRusEmpireAds == old(nRusEmpireAds) + (if facts.empire then 1 else 0)
      ensures sleeps == old(sleeps) + (if !offSleeps && !cached then 1 else 0)
      ensures runLoop == old(runLoop) && captchaSleeps == old(captchaSleeps)
    {
      var url, entry;
      url, entry, cached := Resolve(resp);

      facts := Assess(url, entry, currentYear, dates);
      Tally(facts);

      if !offSleeps && !cached {
        sleeps := sleeps + 1;
      }
    }

    /** The counter updates of a `_consume` pass (main.py:162-177). */
    method Tally(facts: AdFacts)
      requires Valid()
      modifies this`nAds, this`nAdsHaveYear, this`nRsfsrAds, this`nRusEmpireAds
      ensures Valid()
      ensures nAds == old(nAds) + 1
      ensures nAdsHaveYear == old(nAdsHaveYear) + (if facts.year.Some? then 1 else 0)
      ensures nRsfsrAds == old(nRsfsrAds) + (if facts.rsfsr then 1 else 0)
      ensures nRusEmpireAds == old(nRusEmpireAds) + (if facts.empire then 1 else 0)
    {
      nAdsHaveYear := nAdsHaveYear + (if facts.year.Some? then 1 else 0);
      if facts.rsfsr {
        nRsfsrAds := nRsfsrAds + 1;
      }
      if facts.empire {
        nRusEmpireAds := nRusEmpireAds + 1;
      }
      nAds := nAds + 1;
    }

    /** The first half of a `_consume` pass: take the oldest URL off the queue
        and read its entry from the cache, or fetch it and store what came
        back, `(None, None)` included. */
    method Resolve(resp: DetailResponse) returns (url: string, entry: Entry, cached: bool)
      requires Valid() && queue != []
      modifies this`queue, this`db, this`requests
      ensures Valid()
      ensures url == old(queue[0]) && queue == old(queue[1..])
      ensures cached == (url in old(db))
      ensures cached ==> db == old(db) && requests == old(requests)
      ensures !cached ==> db == old(db)[url := FetchedEntry(resp)] && requests == old(requests) + 1
      ensures url in db && entry == db[url] && entry.Ad?
    {
      url := queue[0];
      queue := queue[1..];
      cached := false;
      if url !in db {
        entry := FetchedEntry(resp);
        requests := requests + 1;
        db := db[url := entry];
      } else {
        entry := db[url];
        cached := true;
      }
    }

    /** `_consume`'s `while True` loop, given one response per pass (used only
        on a cache miss); it stops when the queue is empty, where the source
        waits in `_queue.get()`, or when the responses run out. */
    method Consume(responses: seq<DetailResponse>, currentYear: int, dates: string -> seq<Option<int>>)
      returns (processed: seq<AdFacts>)
      requires Valid()
      modifies this
      ensures Valid()
      ensures |processed| == if |responses| < |old(queue)| then |responses| else |old(queue)|
      ensures queue == old(queue)[|processed|..]
      ensures db == StoreAfter(old(db), old(queue)[..|processed|], responses)
      ensures forall i :: 0 <= i < |processed| ==>
                processed[i].url == old(queue)[i] && old(queue)[i] in db && db[old(queue)[i]].Ad?
                && processed[i] == Assess(old(queue)[i], db[old(queue)[i]], currentYear, dates)
      ensures KeepsEntries(old(db), db)
      ensures ConsumerCounted(old(db), old(queue), processed, offSleeps, old(Counters()), Counters())
      ensures runLoop == old(runLoop) && captchaSleeps == old(captchaSleeps)
    {
      processed := [];
      var i := 0;
      while queue != [] && i < |responses|
        invariant Valid()
        invariant i == |processed|
        invariant ConsumerRecord(processed, old(queue), responses, old(db), currentYear, dates, db, queue)
        invariant ConsumerCounted(old(db), old(queue), processed, offSleeps, old(Counters()), Counters())
        invariant runLoop == old(runLoop) && captchaSleeps == old(captchaSleeps)
        decreases |queue|
      {
        ghost var before, queued, counted := db, queue, Counters();
        var facts, cached := ConsumeOne(responses[i], currentYear, dates);
        ConsumerStep(processed, old(queue), responses, old(db), currentYear, dates, before, queued, facts, db, queue,
                     cached, offSleeps, old(Counters()), counted, Counters());
        processed := processed + [facts];
        i := i + 1;
      }
    }

    /** `_fetch_page(page_num)` with the response the network would give and
        the link ids the HTML parser finds in a page's markup. */
    method FetchPage(pageNum: int, resp: PageResponse, parseLinks: string -> seq<string>)
      returns (n: nat, outcome: PageOutcome)
      requires Valid()
      modifies this
      ensures Valid()
      ensures outcome == OutcomeOf(CachedHtml(old(db), PageUrl(pageNum)), resp)
      ensures n == (if outcome.Obtained() then 1 else 0)
      ensures outcome.Obtained() ==> db == old(db)[PageUrl(pageNum) := Page(outcome.html)]
      ensures outcome.Obtained() ==> queue == old(queue) + AdUrls(parseLinks(outcome.html))
      ensures !outcome.Obtained() ==> db == old(db) && queue == old(queue)
      ensures KeepsEntries(old(db), db)
      ensures runLoop == (old(runLoop) && !outcome.Redirected?)
      ensures requests == old(requests) + (if outcome.Cached? then 0 else 1)
      ensures captchaSleeps == old(captchaSleeps) + (if outcome.Blocked? && !offSleeps then 1 else 0)
      ensures sleeps == old(sleeps) + (if !offSleeps && !outcome.Cached? && !outcome.NoLocation? then 1 else 0)
      ensures nAds == old(nAds) && nAdsHaveYear == old(nAdsHaveYear)
      ensures nRsfsrAds == old(nRsfsrAds) && nRusEmpireAds == old(nRusEmpireAds)
    {
      var url := PageUrl(pageNum);
      var cached := false;
      var html: Option<string> := None;
      if url in db {
        html := Some(db[url].html);
        cached := true;
        outcome := Cached(html.value);
      } else {
        outcome := Request(resp);
        match outcome
        case Ok(body) =>
          html := Some(body);
        case NoLocation =>
          n := 0;
          return;
        case _ =>
      }

      if html.Some? {
        db := db[url := Page(html.value)];
        EnqueueLinks(parseLinks(html.value));
      }

      if !offSleeps && !cached {
        sleeps := sleeps + 1;
      }

      n := if html.Some? then 1 else 0;
    }

    /** The network branch of `_fetch_page` (main.py:199-212): a 200 gives
        the body; a 302 to a "blocked" location is a captcha (slept on unless
        sleeps are off); any other 302 target clears `_run_loop`; a 302
        without `Location` raises `TypeError`. */
    method Request(resp: PageResponse) returns (outcome: PageOutcome)
      modifies this`runLoop, this`requests, this`captchaSleeps
      ensures outcome == OutcomeOf(None, resp)
      ensures requests == old(requests) + 1
      ensures runLoop == (old(runLoop) && !outcome.Redirected?)
      ensures captchaSleeps == old(captchaSleeps) + (if outcome.Blocked? && !offSleeps then 1 else 0)
    {
      requests := requests + 1;
      if resp.status == 200 {
        outcome := Ok(resp.body);
      } else if resp.status == 302 {
        match resp.location
        case None =>
          // Testing the missing header for "blocked" raises TypeError.
          outcome := NoLocation;
        case Some(location) =>
          if Contains(location, "blocked") {
            if !offSleeps {
              captchaSleeps := captchaSleeps + 1;
            }
            outcome := Blocked;
          } else {
            runLoop := false;
            outcome := Redirected;
          }
      } else {
        outcome := OtherStatus;
      }
    }

    /** The enqueue loop of `_fetch_page`: the ad URL of every link found on
        the page goes to the back of the queue, in page order. */
    method EnqueueLinks(ids: seq<string>)
      requires Valid()
      modifies this`queue
      ensures Valid()
      ensures queue == old(queue) + AdUrls(ids)
    {
      for i := 0 to |ids|
        invariant queue == old(queue) + AdUrls(ids[..i])
        invariant forall k :: 0 <= k < |queue| ==> IsAdUrl(queue[k])
      {
        queue := queue + [AdUrl(ids[i])];
        assert AdUrls(ids[..i + 1]) == AdUrls(ids[..i]) + [AdUrl(ids[i])];
      }
      assert ids[..|ids|] == ids;
    }

    /** One pass of `run_parsing`'s producer loop: `_fetch_page(cur_page)`
        with the next response, `resp`. `outcomes` and `pages` record the passes made
        since the run started from `pageNum` with cache `db0` and queue
        `queue0`; the pass extends that record. */
    method Pass(pageNum: int, resp: PageResponse, parseLinks: string -> seq<string>, curPage: int,
                ghost responses: seq<PageResponse>, ghost db0: map<string, Entry>, ghost queue0: seq<string>,
                ghost outcomes: seq<PageOutcome>, ghost pages: seq<int>,
                ghost requests0: nat, ghost sleeps0: nat, ghost captchaSleeps0: nat)
      returns (n: nat, outcome: PageOutcome)
      requires Valid()
      requires Traced(pageNum, responses, parseLinks, db0, queue0, curPage, outcomes, pages, db, queue)
      requires RunCounted(outcomes, offSleeps, requests0, sleeps0, captchaSleeps0, requests, sleeps, captchaSleeps)
      requires |outcomes| < |responses| && resp == responses[|outcomes|]
      modifies this
      ensures Valid()
      ensures outcome == OutcomeOf(CachedHtml(db0, PageUrl(curPage)), resp)
      ensures n == (if outcome.Obtained() then 1 else 0)
      ensures Traced(pageNum, responses, parseLinks, db0, queue0, curPage + n, outcomes + [outcome], pages + [curPage], db, queue)
      ensures KeepsEntries(old(db), db)
      ensures runLoop == (old(runLoop) && !outcome.Redirected?)
      ensures PassCounted(outcome, offSleeps, old(requests), old(sleeps), old(captchaSleeps), requests, sleeps, captchaSleeps)
      ensures RunCounted(outcomes + [outcome], offSleeps, requests0, sleeps0, captchaSleeps0, requests, sleeps, captchaSleeps)
      ensures nAds == old(nAds) && nAdsHaveYear == old(nAdsHaveYear)
      ensures nRsfsrAds == old(nRsfsrAds) && nRusEmpireAds == old(nRusEmpireAds)
    {
      assert CachedHtml(db, PageUrl(curPage)) == CachedHtml(db0, PageUrl(curPage)) by {
        StoredPagesBelowCursor(db0, pageNum, outcomes, pages, curPage);
      }
      ghost var before, queued, requested, slept, captchaSlept := db, queue, requests, sleeps, captchaSleeps;
      n, outcome := FetchPage(curPage, resp, parseLinks);
      PassRecorded(pageNum, responses, parseLinks, db0, queue0, curPage, outcomes, pages, outcome,
                   before, queued, db, queue);
      RunCountedSnoc(outcomes, outcome, offSleeps, requests0, sleeps0, captchaSleeps0,
                     requested, slept, captchaSlept, requests, sleeps, captchaSleeps);
    }

    /** `run_parsing`'s producer loop, over the responses the site gives in
        turn: it fetches page after page, advancing the page only when the
        markup was obtained, and stops at the blocking redirect, at a
        redirect without `Location` (which raises), or when the responses
        run out. */
    method RunParsing(pageNum: int, responses: seq<PageResponse>, parseLinks: string -> seq<string>)
      returns (curPage: int, outcomes: seq<PageOutcome>, raised: bool, ghost pages: seq<int>)
      requires Valid()
      modifies this
      ensures Valid()
      ensures |outcomes| <= |responses| && |pages| == |outcomes|
      ensures !old(runLoop) ==> outcomes == [] && curPage == pageNum
      ensures curPage == pageNum + CountIf(outcomes, PageOutcome.IsObtained)
      ensures PageCursor(pageNum, outcomes, pages)
      ensures PageOutcomes(responses, old(db), outcomes, pages)
      ensures PassControl(old(runLoop), runLoop, raised, outcomes)
      ensures runLoop && !raised ==> |outcomes| == |responses|
      ensures queue == old(queue) + EnqueuedAds(outcomes, parseLinks)
      ensures db == StoredPages(old(db), outcomes, pages)
      ensures KeepsEntries(old(db), db)
      ensures RunCounted(outcomes, offSleeps, old(requests), old(sleeps), old(captchaSleeps), requests, sleeps, captchaSleeps)
      ensures nAds == old(nAds) && nAdsHaveYear == old(nAdsHaveYear)
      ensures nRsfsrAds == old(nRsfsrAds) && nRusEmpireAds == old(nRusEmpireAds)
    {
      curPage := pageNum;
      outcomes := [];
      raised := false;
      pages := [];
      var i := 0;
      while runLoop && i < |responses| && !raised
        invariant Valid()
        invariant i == |outcomes| && i <= |responses|
        invariant Traced(pageNum, responses, parseLinks, old(db), old(queue), curPage, outcomes, pages, db, queue)
        invariant PassControl(old(runLoop), runLoop, raised, outcomes)
        invariant RunCounted(outcomes, offSleeps, old(requests), old(sleeps), old(captchaSleeps), requests, sleeps, captchaSleeps)
        invariant KeepsEntries(old(db), db)
        invariant nAds == old(nAds) && nAdsHaveYear == old(nAdsHaveYear)
        invariant nRsfsrAds == old(nRsfsrAds) && nRusEmpireAds == old(nRusEmpireAds)
        decreases |responses| - i
      {
        ghost var before := db;
        var n, outcome := Pass(pageNum, responses[i], parseLinks, curPage, responses, old(db), old(queue), outcomes, pages,
                               old(requests), old(sleeps), old(captchaSleeps));
        KeepsEntriesTrans(old(db), before, db);
        raised := outcome.NoLocation?;
        PassControlSnoc(old(runLoop), outcomes, outcome, runLoop, raised);
        outcomes := outcomes + [outcome];
        pages := pages + [curPage];
        i := i + 1;
        curPage := curPage + n;
      }
    }
  }
}
