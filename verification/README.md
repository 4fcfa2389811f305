# Card-market scraping core in Dafny

This project models the three services behind the card-market price
scraper, and proves properties about them.

- **Proxy pool manager** (`ProxyManager`). It keeps an ordered list of proxies, a health score per proxy url and the index of the current proxy. It rotates to the best-scored proxy, rewards and penalises scores within [0.1, 10], and adds, removes and clears proxies, emitting an event for each change.
- **Fixed-window rate limiter** (`RateLimiter`). It keeps a FIFO queue of waiting callers and a counter of requests in the current window. `processQueue` releases waiters while the counter allows, resets the counter once a window of `interval` milliseconds has passed, and arms a timer for the rest of the window when callers remain.
- **eBay result parsing** (`MarketScraper`). It covers:
  - `extractPrice`, the first `$` amount of a text;
  - the listing id taken from an item link;
  - which result elements become listings, and each field's default;
  - the sold-date window of completed sales.

Files and modules:

| file | module | contents |
|---|---|---|
| `js.dfy` | `Js` | JavaScript values: `Option` for `undefined`, numbers as `NaN` or a real, truthiness, `\|\| 0`, `Math.min`/`max`, the `\s` white-space class |
| `text.dfy` | `Text` | digits, radix values, decimal rendering, `indexOf`, `split(sep)[0]` and `split(sep)[1]` |
| `numbers.dfy` | `JsNumbers` | `parseInt` without radix; `parseFloat` on digit-and-point text |
| `price.dfy` | `Price` | the price pattern `\$\s*([\d,]+\.?\d*)` and `extractPrice` |
| `price_examples.dfy` | `PriceExamples` | `extractPrice` on concrete texts |
| `listings.dfy` | `Listings` | listing ids, `searchEbay` and `getCompletedSales` element processing |
| `proxy.dfy` | `ProxyPool` | `ProxyManager` as pure state transitions with an event trace |
| `rate_limiter.dfy` | `RateLimit` | `RateLimiter` as a transition system of `throttle` calls and timer firings |

### How the code behaves

The model follows the code in each of these points:

- **The rate limiter's window is fixed, not sliding.**
  - The counter resets only when a run of `processQueue` finds `now - lastRequestTime >= interval`. The new window then starts at that run.
  - `RateLimit.Windows` splits the release log into these windows.
  - `RateLimit.Guarantees` bounds every window by max(0, `maxRequests`).
- **`addProxy` does not reject a url already in the pool.** It appends the proxy again and resets the url's score to 1.
  - A later `removeProxy(url)` deletes only the first of the two entries, but it deletes the score.
  - So the remaining entry is ranked 0, as `ProxyPool.DuplicateUrlLosesScore` shows.
- **`removeProxy` leaves the index alone unless it falls off the end of the shorter list.** In that case it resets the index to 0.
  - Removing a proxy before the current one therefore makes the following proxy current, as `ProxyPool.RemoveBeforeCurrentShifts` shows.
- **`rotateProxy` moves the index even when proxying is disabled.** It then emits and returns `null`.
- **In `getCompletedSales`, the test `soldDate && …` never rejects on its first operand,** because a `Date` object is always truthy.
  - An unparseable date is rejected by the comparison instead: its time is NaN, and any comparison with NaN is false.

## Model

| member | source | states |
|---|---|---|
| ProxyPool.Empty | src/services/proxy/index.ts:11-14 | a manager with no proxies is valid, holds no proxy and no score, has index 0 and has emitted nothing |
| ProxyPool.Initial | src/services/proxy/index.ts:28-41 | the configured proxies in order, index 0, and every configured url (and no other) scored 1 |
| ProxyPool.CurrentProxy | src/services/proxy/index.ts:44-49 | null exactly when the pool is empty or proxying is disabled (or the index is past the end); otherwise the proxy at the current index |
| ProxyPool.ScanBestFindsFirstMax | src/services/proxy/index.ts:55-64 | the `forEach` scan with strict `>` from best score -1 ends on the first position holding the maximal score |
| ProxyPool.RotationPicksFirstMax | src/services/proxy/index.ts:54-66 | with stored scores in range, rotation picks the first maximum of the scores, a missing score counting as 0 |
| ProxyPool.Rotate | src/services/proxy/index.ts:51-73 | an empty pool returns null and changes and emits nothing; otherwise the index moves to the first best-scored proxy, and the current proxy (null when proxying is disabled) is returned and emitted; list and scores are unchanged |
| ProxyPool.UpdateScore | src/services/proxy/index.ts:75-81 | from the stored score (1 when missing), success gives min(1.1·s, 10) and failure max(0.8·s, 0.1); scores stay in [0.1, 10]; the url gains a key, no other key changes; strict raise below the cap and strict drop above the floor |
| ProxyPool.Add | src/services/proxy/index.ts:83-87 | the proxy is appended, its url scored 1 whatever it was, other scores and the index unchanged, `proxyAdded` emitted |
| ProxyPool.FindIndex | src/services/proxy/index.ts:90 | the first position whose url matches, or -1 exactly when none does |
| ProxyPool.Remove | src/services/proxy/index.ts:89-100 | an absent url changes nothing; otherwise only the first matching proxy leaves (the rest keep their order), its url's score key is deleted, the index resets to 0 exactly when it is at least the new length, and `proxyRemoved` is emitted |
| ProxyPool.Splice | src/services/proxy/index.ts:93 | `splice(i, 1)` drops exactly the element at `i`: one shorter, the elements before `i` in place, those after it shifted down by one, the same multiset less that element |
| ProxyPool.Clear | src/services/proxy/index.ts:110-115 | no proxies, no scores, index 0, and `proxiesCleared` emitted |
| ProxyPool.ProxyCountAfter | src/services/proxy/index.ts:117-119 | the count grows by one on add, shrinks by one on removing a present url, is 0 after clear and is otherwise unchanged |
| ProxyPool.RunPreservesValid | src/services/proxy/index.ts:44-119 | every sequence of operations keeps the index within the pool (0 when empty) and every score in [0.1, 10] |
| ProxyPool.RemovedUniqueUrlIsGone | src/services/proxy/index.ts:89-100 | removing a url held by one proxy leaves no proxy with it, so it can no longer be current |
| ProxyPool.RemoveBeforeCurrentShifts | src/services/proxy/index.ts:95-97 | removing a proxy before the current one makes the following proxy current, or the first when the index falls off the end |
| ProxyPool.DuplicateUrlLosesScore | src/services/proxy/index.ts:83-100 | adding a url twice and removing it keeps the second entry but deletes its score, so rotation ranks it 0 |
| ProxyPool.RotationFollowsScores | src/services/proxy/index.ts:51-81 | after one failure for the first proxy (0.8) and one success for the second (1.1), rotation selects the second |
| ProxyPool.RotationTieKeepsFirst | src/services/proxy/index.ts:58-64 | a fresh two-proxy pool, both scored 1, rotates to index 0 |
| RateLimit.New | src/services/rate-limiter/index.ts:4-12 | a new limiter keeps its limits and has an empty queue, no timer and not processing, counter 0, window start 0, and satisfies the invariant |
| RateLimit.Iterations | src/services/rate-limiter/index.ts:34-40 | the loop runs as many times as there are waiters or as the window still admits, whichever is fewer, and not at all once the counter has reached `maxRequests` |
| RateLimit.Drain | src/services/rate-limiter/index.ts:34-40 | the loop releases a prefix of the queue, in order, one grant each; it stops with the queue empty or the counter at `maxRequests`, never above it when it started below |
| RateLimit.ProcessQueue | src/services/rate-limiter/index.ts:21-51 | with a timer pending or nobody waiting nothing changes; waiters leave only from the front and exactly as they are released |
| RateLimit.Release | src/services/rate-limiter/index.ts:26-50 | afterwards the queue is empty or the counter has reached `maxRequests`; a new window is logged exactly when `now - lastRequestTime >= interval`, and it starts at `now`; a timer is armed exactly when waiters remain, with delay max(0, interval - (now - window start)) |
| RateLimit.Settle | src/services/rate-limiter/index.ts:42-50 | `processing` is set exactly when waiters remain, and then the timer's delay is what is left of the window |
| RateLimit.Throttle | src/services/rate-limiter/index.ts:14-19 | the caller joins the back of the queue; while a timer is pending that is all that happens; nobody is released ahead of an earlier caller |
| RateLimit.TimerFire | src/services/rate-limiter/index.ts:44-47 | before the delay nothing happens; when due, `processing` is cleared and the run that follows leaves the queue empty or the window full, with `processing` set and a new timer armed exactly when waiters remain; the configuration and arrivals are unchanged and release order is kept |
| RateLimit.ProcessQueueConsistent | src/services/rate-limiter/index.ts:21-51 | a run keeps the releases a prefix of the arrivals, the counter equal to the releases of the open window, and every window within `maxRequests` |
| RateLimit.ThrottleKeepsInv | src/services/rate-limiter/index.ts:14-19 | `throttle` keeps the invariant, including "processing exactly when a timer is pending" and "nobody waits without a timer" |
| RateLimit.TimerFireKeepsInv | src/services/rate-limiter/index.ts:44-47 | a timer firing keeps the invariant |
| RateLimit.RunKeepsInv | src/services/rate-limiter/index.ts:14-51 | every sequence of calls and timer firings keeps the invariant |
| RateLimit.Guarantees | src/services/rate-limiter/index.ts:29-40 | from a new limiter, releases are a prefix of the arrivals (FIFO), no window releases more than max(0, `maxRequests`), the counter never exceeds that bound, and a waiter always has a timer pending |
| RateLimit.NoCapacityGrantsNobody | src/services/rate-limiter/index.ts:34 | with `maxRequests <= 0` nobody is ever released and every caller stays queued |
| RateLimit.CallWithRoomPasses | src/services/rate-limiter/index.ts:14-40 | with no timer pending and nobody queued, a caller in a window that has not passed and still has room is released at once: counted and logged, no timer armed, nothing else changed |
| RateLimit.CallInFullWindowWaits | src/services/rate-limiter/index.ts:14-47 | with no timer pending, a caller in a full window that has not passed joins the back of the queue, nobody is released, and a timer is armed for the rest of the window |
| RateLimit.FireOpensWindow | src/services/rate-limiter/index.ts:29-47 | a due timer with waiters, once the window has passed, opens a new window at `now`, releases the oldest min(waiters, `maxRequests`) in order, and re-arms for a whole interval when any remain |
| Text.IndexOf | src/services/api/scraper.ts:66 | the first occurrence at or after a position, or -1 exactly when there is none |
| Text.SplitHead | src/services/api/scraper.ts:66 | `split(sep)[0]` is the prefix before the first occurrence of `sep`, or the whole text |
| Text.SplitSecond | src/services/api/scraper.ts:66 | `split(sep)[1]` is undefined exactly when `sep` does not occur; otherwise it is the text after the first occurrence up to the next one, or to the end |
| JsNumbers.ParseIntOfShowNat | src/services/api/scraper.ts:61 | `parseInt` reads back the decimal rendering of a natural number, whatever follows that is not a digit, `x` or `X` |
| JsNumbers.ParseFloat | src/services/api/scraper.ts:157 | `parseFloat` of digit-and-point text is never negative, and NaN exactly when no digit precedes or directly follows a leading point |
| JsNumbers.ParseFloatParts | src/services/api/scraper.ts:157 | `parseFloat` of digits with an optional point and fraction is the whole part plus the decimal fraction, NaN exactly when there is no digit |
| Price.MatchShape | src/services/api/scraper.ts:155 | a match at a `$` consists of spaces, a `[\d,]+` run, then an optional point with digits, each part maximal; there is no match exactly when the first non-space after the `$` is not a digit or comma |
| Price.FirstMatch | src/services/api/scraper.ts:155 | the leftmost position where the pattern matches, or none when it matches nowhere |
| Price.RemoveCommas | src/services/api/scraper.ts:157 | the result has no comma and only characters of the input |
| Price.RemoveCommasKeepsOthers | src/services/api/scraper.ts:157 | every character other than a comma is kept, exactly as often as it occurs in the input |
| Price.RemoveCommasAppend | src/services/api/scraper.ts:157 | removing commas works piecewise: the result for `x + y` is the result for `x` followed by the result for `y`, so the kept characters stay in order |
| Price.RemoveCommasNoComma | src/services/api/scraper.ts:157 | a text without a comma is left unchanged |
| Price.ExtractPrice | src/services/api/scraper.ts:154-160 | the price is never negative, and 0 when the pattern matches nowhere |
| Price.ExtractPriceValue | src/services/api/scraper.ts:154-160 | the price of a matching text is NaN exactly when the leftmost group has no digit, and otherwise its whole part plus its fraction, commas ignored |
| Price.GroupParse | src/services/api/scraper.ts:155-157 | the price of a matching text is `parseFloat` of the group's whole digits, then its point and fraction digits when it has a point |
| Price.PriceOfPointedAmount | src/services/api/scraper.ts:154-160 | `$`, an amount with separators, a point and fraction digits are priced by that amount, whatever follows that is not a digit |
| Price.PriceOfAmount | src/services/api/scraper.ts:154-160 | `$` and an amount without a point are priced by the amount's digits, whatever follows that cannot continue it |
| PriceExamples.LoneCommaIsNaN | src/services/api/scraper.ts:154-160 | "$," gives NaN |
| PriceExamples.Cents | src/services/api/scraper.ts:154-160 | "$0.99" gives 0.99 |
| PriceExamples.NoDollarIsZero | src/services/api/scraper.ts:159 | "Free shipping" gives 0 |
| PriceExamples.SecondPointEndsNumber | src/services/api/scraper.ts:155-157 | "$1.2.3" gives 1.2 |
| PriceExamples.ThousandsSeparator | src/services/api/scraper.ts:155-157 | "$1,234.56 shipping" gives 1234.56 |
| PriceExamples.LeftmostDollarWins | src/services/api/scraper.ts:155 | "$5 or $7" gives 5 |
| Listings.ListingId | src/services/api/scraper.ts:66 | the id is the fresh UUID, or a non-empty text without `?`; a link without `itm/` always gets the UUID |
| Listings.ListingIdOfItemLink | src/services/api/scraper.ts:66 | for a link `prefix + "itm/" + rest` with no `itm/` in the prefix, the id is the text of `rest` before its next `itm/` and then before its first `?`, or the UUID when that text is empty |
| Listings.ItemUrlGivesId | src/services/api/scraper.ts:66 | a link `prefix + "itm/" + id + tail` yields `id` when `id` is non-empty without `?` or `itm/`, the prefix has no `itm/`, and the tail is empty or a query |
| Listings.ItemNumberIsId | src/services/api/scraper.ts:66 | a link to a decimal item number, with or without a query, is identified by that number |
| Listings.Kept | src/services/api/scraper.ts:52-85 | the indices of the accepted elements, increasing, exactly those accepted |
| Listings.Collect | src/services/api/scraper.ts:52-85 | the `.each` loop builds one listing per accepted element, in document order |
| Listings.SearchItem | src/services/api/scraper.ts:53-83 | the price is the extracted price and positive; shipping is the extracted shipping or 0, never negative; an auction exactly when the bids text is non-empty, with bids read by `parseInt`; the id comes from the link; image and link default to ""; seller and platform defaults |
| Listings.SearchEbay | src/services/api/scraper.ts:52-85 | the j-th listing comes from the j-th element with a title and a price; every listing has a title, a positive price, non-negative shipping, and bids exactly when it is an auction |
| Listings.SearchKeepsListable | src/services/api/scraper.ts:64 | an element becomes a listing exactly when its title is non-empty and its price is neither 0 nor NaN |
| Listings.BidCountIsRead | src/services/api/scraper.ts:60-62 | a bids text "n bids" makes an auction with n bids |
| Listings.SaleItem | src/services/api/scraper.ts:124-142 | a sale listing has the extracted positive price, shipping 0, no bids, is not an auction, ends at the sold time, and has an empty seller |
| Listings.CompletedSales | src/services/api/scraper.ts:116-145 | the j-th listing comes from the j-th element whose date parses within the last `days` days and that has a title and a price; every sale ended within the window |
| Listings.SaleKeepsRecentListable | src/services/api/scraper.ts:117-123 | a sale is kept exactly when its date parses, `now - sold <= days·86400000`, and it has a title and a price |

## Left out

- Loading proxies from configuration and building their urls and `Proxy-Authorization` headers (`btoa`) are left out. `ProxyPool.Initial` takes the resulting list.
- `lastRotation` is left out: it is written but never read.
- The singletons (`getInstance`) are left out, and so is the `EventEmitter` delivery. Emitted events are recorded in order in the manager's `events` trace.
- `getProxyList` and `getProxyScores` are left out: they return copies of the state. `isProxyEnabled` is left out because it reads the configuration, which is the `enabled` parameter.
- ProxyPool.UpdateScore: scores are reals, so the IEEE rounding of `s * 1.1` and `s * 0.8` is not modelled.
- RateLimit.TimerFire: a timer fires at or after its delay, at a time the caller chooses. Event-loop scheduling and the order among several due timers are not modelled.
- The rate limiter's `Date.now()` is the `now` parameter of each step. Waiters are natural numbers standing for their `resolve` callbacks, and resuming the awaiting callers is not modelled.
- Times and counts in the rate limiter are integers. Non-integer `maxRequests` or `interval` values are not modelled.
- HTTP requests (`axios`), HTML parsing (`cheerio`) and building the search URL are left out. An element is given as the texts and attributes the scraper reads from it.
- The scraper's calls `rateLimiter.throttle('ebay')` and `proxyRotator.getProxy()` are left out. They name exports that the rate-limiter and proxy modules do not define.
- `crypto.randomUUID()` is the parameter `uuids(i)`, the UUID drawn for element `i`.
- `new Date(text)` is the parameter `parseDate`, which returns no time for an invalid date.
- `Date.now()` and `new Date()` are the parameter `now`.
- Listings.SearchEbay: the source reads the clock anew for each element (`new Date()` for `lastUpdated`, scraper.ts:82). The model uses one `now` for the whole page, so it does not model the clock moving during the loop.
- Listings.CompletedSales: the source reads the clock anew for each element (`Date.now()` for the window test, scraper.ts:118; `new Date()` for `lastUpdated`, scraper.ts:141). The model uses one `now` for the whole page, so an element near the window's edge is judged against that one time.
- Listings.CompletedSales: `days` is a required parameter, without the default of 30 (scraper.ts:94). A call that leaves it out is `CompletedSales` with `days` set to 30.
- JsNumbers.ParseFloat: only defined on strings of digits and points, the only strings the price pattern hands it. White space, signs, exponents and `Infinity` are not modelled.
- JsNumbers.ParseInt: carries no contract of its own. `JsNumbers.ParseIntOfShowNat` states its value on decimal text.
- Numbers are reals, so floating-point rounding of parsed prices is not modelled.
- Text.SplitHead requires a non-empty separator, which is all the scraper uses. `split('')` is not modelled.
- The `getCardDetails` dispatch and its four stub lookups are left out: they return empty objects.
- The MTG API client, the React application and the solver log view are not part of this model.
