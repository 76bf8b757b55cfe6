# Avito coin-ad scraper: classification, year extraction and crawl state

This project models the deterministic core of `AvitoParser`, a crawler of the
coin-collecting section of the Avito classifieds site (`main.py`). The model
covers three parts:

- **Classifier** (`classifier.dfy`): the two period tags `_produced_by_rus_empire`
  and `_produced_by_rsfsr`. Each is a substring-keyword test combined with an
  inclusive year range. A missing year counts as 0 (`year or 0`).
- **Year extraction** (`year_extraction.dfy`): `_get_year_from_text`. The regex
  step takes the leftmost match of `[^a-bA-B0-9](\d{4})[^a-zA-Z0-9]` and
  accepts its number only in `1000..currentYear`. Otherwise the step falls
  back to the first year found by the date extractor, which is given as a
  sequence of optional years.
- **Crawl state** (`crawler.dfy`): class `AvitoParser`. Its fields are
  `_run_loop`, the URL cache `_db` (a `map`), the ad-URL queue (a `seq`) and
  the four counters. Methods cover one pass of the consumer `_consume` and
  its loop, the page fetch `_fetch_page` with its enqueue loop, and the
  producer loop of `run_parsing`. Ghost counters record network requests,
  ordinary sleeps and captcha sleeps.

`text.dfy` holds Python's substring test `k in s` (with a proof that the scan
finds exactly the occurrences), `str(n)` and `int(d)`. `wrappers.dfy` holds
`Option`.

Details of `main.py` that the model keeps as written:

- The left character class of the year pattern, `[^a-bA-B0-9]` (main.py:102),
  excludes only `a`, `b`, `A`, `B` and digits. So `x1961 ` yields 1961
  (`LeftClassAdmitsLetters`).
- Only the regex step checks the range `1000..currentYear` (main.py:106).
  The date extractor's first year is returned without that check
  (main.py:109-112, `FallbackYearNotRangeChecked`).
- Status 302 is the only redirect status the producer handles (main.py:202).
  Any other 3xx status is treated like any other non-200 status.
- A 302 response without a `Location` header raises `TypeError`, because the
  substring test runs on `None` (main.py:203). The model has a `NoLocation`
  outcome that ends the producer loop with `raised`.
- After a captcha redirect the code sleeps for the captcha (main.py:204-207)
  and then sleeps again after the request (main.py:221-222). The model counts
  both.

## Model

| member | source | states |
|---|---|---|
| `Text.ContainsIff` | main.py:67-72 | Python's `k in text`, as scanned, is true exactly when `k` occurs at some index of the text |
| `Classifier.ProducedByRusEmpire` | main.py:58-75 | an ad tagged as Russian Empire always mentions one of the seven keywords, and outside 1721..1917 only a self-reference tags it |
| `Classifier.ProducedByRsfsr` | main.py:77-94 | an ad tagged as RSFSR has a missing or zero year or one in 1922..1991, and mentions the Soviet state or a rouble/kopeck word |
| `Classifier.EmpireSelfReferenceAnyYear` | main.py:67-69 | "россий" with "импер", or "russian" with "empire", tags the ad as Russian Empire for every year, a missing year included |
| `Classifier.EmpireKeywordInRange` | main.py:71-73 | any of the seven currency/collector keywords together with a year in 1721..1917 tags the ad as Russian Empire |
| `Classifier.EmpireOutsideRange` | main.py:65-75 | with a missing, zero or out-of-range (outside 1721..1917) year, the Empire tag holds exactly when the text names the Empire itself |
| `Classifier.RsfsrWithoutYear` | main.py:88-94 | with a missing or zero year, the RSFSR tag holds exactly when the text contains "ссср", "рсфср" or "советск" |
| `Classifier.RsfsrOutsideRange` | main.py:93-94 | a non-zero year outside 1922..1991 never gives the RSFSR tag |
| `Classifier.RsfsrInRange` | main.py:90-94 | for a year in 1922..1991 the RSFSR tag holds exactly when the text contains one of the Soviet or rouble/kopeck keywords |
| `Classifier.RsfsrUssrInRange` | main.py:93-94 | "ссср" with any year in 1922..1991 gives the RSFSR tag, whatever the currency words |
| `Classifier.SovietRoubleScenario` | main.py:58-94 | "монета ссср 1 рубль 1961" with year 1961 is RSFSR and not Russian Empire |
| `Classifier.ImperialKopeckScenario` | main.py:58-94 | "российская империя 5 копеек 1850" with year 1850 is Russian Empire and not RSFSR |
| `YearExtraction.MatchAt` | main.py:102 | a match's captured group is four ASCII digits with no digit right before or right after it |
| `YearExtraction.FirstMatch` | main.py:102-103 | `re.search` yields the leftmost match, and nothing exactly when the pattern matches nowhere |
| `YearExtraction.FirstMatchFrom` | main.py:102-103 | the scan returns the leftmost index at or after its start where the six-character pattern matches, or none when no index matches |
| `YearExtraction.MatchedNumber` | main.py:105-106 | the matched four-digit group read as a number is below 10000 |
| `YearExtraction.RegexYear` | main.py:102-107 | a year returned by the regex step lies in 1000..currentYear |
| `YearExtraction.FirstYear` | main.py:109-114 | the fallback returns the first present year in the extractor's order, and none exactly when no fact carries a year |
| `YearExtraction.YearFromText` | main.py:96-114 | the result is none exactly when neither step finds a year; a found year is in range or one of the extractor's years |
| `YearExtraction.FirstMatchDecides` | main.py:102-114 | the leftmost match alone decides: its number when in range, else the extractor's first year, never a later match |
| `YearExtraction.NoMatchFallsBack` | main.py:104-114 | when the pattern matches nowhere, the result is the extractor's first year |
| `YearExtraction.StandaloneYearFound` | main.py:102-107 | a four-digit year in range, between boundary characters and after digit-free text, is the year returned |
| `YearExtraction.LaterMatchIgnored` | main.py:102-114 | in " 0999 1961 " the second match holds 1961, yet the out-of-range first match sends the text to the extractor |
| `YearExtraction.LeftClassAdmitsLetters` | main.py:102 | as written, "x1961 " yields 1961 because `x` is not in the excluded left class |
| `YearExtraction.FallbackYearNotRangeChecked` | main.py:109-112 | the extractor's year is returned without the 1000..currentYear check |
| `YearExtraction.NoDigitsNoYear` | main.py:102-114 | a text without digits, for which the extractor finds no year, has no year |
| `Text.DigitsValueOfNatToString` | main.py:106 | `int(str(n)) == n` for every non-negative `n` |
| `Text.NatToString` | main.py:188 | `str(n)` is a non-empty string of decimal digits with no leading zero |
| `Text.IntToString` | main.py:188 | `str(n)` of an integer starts with `-` exactly when it is negative |
| `Text.DigitsValue` | main.py:106 | `int(d)` of `k` digits is below `10^k` |
| `Text.FourDigits` | main.py:102 | every number in 1000..9999 prints as exactly four digits, so `\d{4}` can match it |
| `Crawler.PageUrl` | main.py:27-188 | the listing URL of a page is the base URL followed by the page number, and it never has the ad-URL prefix |
| `Crawler.AdUrl` | main.py:218 | an enqueued ad URL is `https://avito.ru/` followed by the link id |
| `Crawler.AdUrls` | main.py:216-218 | a page's ad URLs are one per link id, in link order |
| `Crawler.FetchedEntry` | main.py:116-137 | a detail fetch with a status other than 200 gives `(None, None)` |
| `Classifier.UntaggedBelowR` | main.py:58-94 | every keyword starts at or above `r`, so a text whose characters all lie below `r` gets neither tag, whatever its year |
| `Crawler.AdText` | main.py:159 | the classified text is the shown title, one space, then the shown description, with `None` for a missing part |
| `Crawler.Assess` | main.py:159-174 | an ad's facts keep its URL; an RSFSR tag implies a missing or zero year or one in 1922..1991; an Empire tag without self-reference implies a year in 1721..1917; a year the extractor did not report is in 1000..currentYear |
| `Crawler.FailedFetchIsUntagged` | main.py:149-174 | an ad stored as `(None, None)` (text "None None") gets neither tag, whatever year the extractor reports |
| `Crawler.CountIf` | main.py:163-177 | a tally over processed ads never exceeds their number |
| `Crawler.CountIfSnoc` | main.py:163-177 | processing one more ad raises a tally by one exactly when that ad qualifies |
| `Crawler.OutcomeOf` | main.py:193-212 | markup is obtained exactly on a cache hit (the cached markup) or a 200 (the body); a redirect, a captcha, a missing `Location` and any other status each occur exactly in their case: a 302 whose Location lacks "blocked", has it, is absent, or a status other than 200 and 302 |
| `Crawler.AvitoParser.constructor` | main.py:15-43 | a fresh parser runs the loop, has an empty queue and zero counters, and opens the given store |
| `Crawler.AvitoParser.TotalAds` | main.py:240-242 | the total bounds the ads with a year, the RSFSR ads and the Empire ads |
| `Crawler.AvitoParser.AdsWithoutYear` | main.py:244-246 | ads without a year are never negative and never exceed the total |
| `Crawler.AvitoParser.RsfsrAds` | main.py:248-250 | RSFSR ads never exceed the total |
| `Crawler.AvitoParser.RussianEmpireAds` | main.py:252-254 | Russian Empire ads never exceed the total |
| `Crawler.AvitoParser.Resolve` | main.py:144-155 | dequeues the oldest URL; a cached URL keeps its entry and is not fetched; a miss is fetched once and stored, `(None, None)` included |
| `Crawler.AvitoParser.Tally` | main.py:162-177 | the total grows by one; the with-year, RSFSR and Empire counts each grow by one exactly when the ad has a year or the tag |
| `Crawler.AvitoParser.ConsumeOne` | main.py:143-180 | one pass: the URL becomes a cache key; the total grows by 1; the with-year count grows by 1 iff a year was found; each tag count grows by its tag; a sleep happens only on a miss |
| `Crawler.AvitoParser.Consume` | main.py:139-180 | the consumer takes URLs in FIFO order; each processed ad's facts are the year and tags of its stored entry; the cache becomes the store after those URLs and their responses; every counter grows by the tally of the processed ads; requests, and sleeps unless they are off, grow by the number of URLs neither cached beforehand nor taken earlier in the run; cached entries never change; `_run_loop` and captcha sleeps are untouched |
| `Crawler.Misses` | main.py:149-155 | the consumer makes at most one request per URL it takes |
| `Crawler.CachedUrlsNotFetched` | main.py:149-155 | a run over URLs that are all in the cache makes no request |
| `Crawler.ConsumerCountedSnoc` | main.py:149-180 | processing one more ad adds one to the total, one to each count it qualifies for, and one request and one sleep exactly when its URL was neither cached beforehand nor taken earlier |
| `Crawler.AvitoParser.EnqueueLinks` | main.py:216-218 | the page's ad URLs are appended to the queue in link order, with earlier entries untouched |
| `Crawler.AvitoParser.Request` | main.py:199-212 | every request counts once; a 200 gives the body; a 302 to a blocked location is a captcha slept on unless sleeps are off; any other 302 target clears `_run_loop` |
| `Crawler.AvitoParser.FetchPage` | main.py:182-224 | the outcome is the one the cached markup or the response gives; returns 1 exactly when markup was obtained; only then stores it and enqueues its links; a stop redirect clears `_run_loop`; a captcha redirect sleeps and changes nothing else; counters are untouched |
| `Crawler.CachedHtml` | main.py:195-196 | a listing URL has cached markup exactly when it is a key of `_db`, and then the markup is what `_db` holds |
| `Crawler.StoreAfterKeys` | main.py:149-155 | after the consumer has taken some URLs, the cache keeps every earlier entry and its keys are the earlier keys plus those URLs |
| `Crawler.StoreAfterFirstFetch` | main.py:149-152 | the first time the consumer takes a URL missing from the cache, the entry it stores is the one its own response gives |
| `Crawler.PageUrlInjective` | main.py:188 | two pages with the same listing URL are the same page |
| `Text.NatToStringInjective` | main.py:188 | distinct non-negative numbers print differently |
| `Text.IntToStringInjective` | main.py:188 | distinct integers print differently |
| `Crawler.UncachedFailureObtainsNothing` | main.py:193-224 | a page missing from the cache whose response is not a 200 yields no markup |
| `Crawler.CursorStaysWithoutMarkup` | main.py:234-235 | while no pass on the start page obtains markup, the cursor never advances |
| `Crawler.FailedPageRetried` | main.py:193-235 | when the start page is not cached and no response is a 200, no pass obtains markup and every pass fetches the start page again |
| `Crawler.StoredPagesBelowCursor` | main.py:193-222 | the producer stores markup only for pages before the cursor, so the cache entry of the cursor page or any later page is the one the run started with |
| `Crawler.PassRecorded` | main.py:193-235 | one more pass extends the run's record: it fetched the cursor page, met the outcome its response gives, and the cache and queue grew by exactly what it obtained |
| `Crawler.AvitoParser.Pass` | main.py:193-235 | one pass of the producer loop fetches the cursor page, advances the cursor by the value `_fetch_page` returns, and extends the run's record; it makes a request unless the page was cached, sleeps on a captcha redirect, and sleeps after every request except one that raised, the sleeps only when they are on |
| `Crawler.RunCountedSnoc` | main.py:193-224 | one more pass adds its own request and sleeps to the run's counters |
| `Crawler.SleepsFollowRequests` | main.py:199-222 | over any run, every captcha sleep comes with an ordinary sleep and every ordinary sleep follows a request |
| `Crawler.AvitoParser.RunParsing` | main.py:226-235 | the `k`-th pass fetched the start page plus the passes before it that obtained markup, and met the outcome its page's cached markup or its response gives; only the last pass can be a stop redirect or a `TypeError`; the loop ends on either or when the responses run out; the queue gains exactly the ads of the obtained pages and the cache exactly their markup; requests equal the uncached passes, captcha sleeps the captcha redirects and ordinary sleeps the uncached passes that did not raise, the sleeps only when they are on |

## Left out

- Network I/O (aiohttp sessions, random `User-Agent` from `fake_useragent`): responses are inputs. Transport errors raised by aiohttp are not modelled.
- HTML parsing with `requests_html` (main.py:127-135, 216): a detail response carries the title and description node texts, already lowercased. The listing parser is a function parameter from markup to link ids. A link without an `id` attribute (a `KeyError`) is not modelled.
- `natasha.DatesExtractor` (main.py:109-110): a function parameter from text to the facts' optional years.
- asyncio and uvloop scheduling: the producer and the consumer are separate methods, and their interleaving is not modelled. `_queue.join()`, `task_done()` and consumer cancellation (main.py:176, 219, 237-238) are left out, including the quirk that `_fetch_page` calls `task_done()` once per page without a matching `get`.
- Sleep durations (`random.randint`, `asyncio.sleep`): only the fact that a sleep happens is counted, in ghost counters.
- Persistence of the shelve file across runs: the constructor receives the store's contents. It must hold ad entries under ad URLs and markup under every other key, as this program writes them.
- `__enter__`/`__exit__`, `KeyboardInterrupt` handling, argparse, logging and `print`: lifecycle and output only.
- Unicode `lower()` and `strip()`: the classifier takes texts that are already lowercased. No keyword contains whitespace, so `strip()` could not change any test. The `None` placeholder in the ad text holds no keyword either.
- `\d` in the regex matches any Unicode decimal digit in Python. The model matches ASCII digits only.
- The float ratio `rsfsr_ads / (russian_empire_ads + 1e-9)` (main.py:287-288): floating point.
- `datetime.now().year`: a `currentYear` parameter.
- Crawler.AvitoParser.RunParsing: the source's loop is unbounded (blocked pages are retried forever). The model runs one pass per supplied response and stops when they run out.
- Crawler.AvitoParser.ConsumeOne: it requires a non-empty queue, because the source waits in `_queue.get()` until a URL arrives. `Consume` stops at an empty queue instead of waiting.
