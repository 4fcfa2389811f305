/** How the eBay scraper turns the `.s-item__wrapper` elements of a result
    page into card listings: which elements become listings, the listing id
    taken from the item URL, and the defaults of every field. The text of each
    element's parts is an input; a fresh UUID and the current time, which the
    scraper draws from the platform, are parameters. */
module Listings {
  import opened Js
  import opened Text
  import opened JsNumbers
  import opened Price

  /** The parts of one result element the scraper reads: the text of its
      title, price, shipping, bids, condition, seller and ended-date nodes,
      and the `src` and `href` attributes of its image and link, which may be
      absent. */
  datatype Element = Element(
    title: string,
    priceText: string,
    shippingText: string,
    imageSrc: Option<string>,
    href: Option<string>,
    bidsText: string,
    conditionText: string,
    sellerText: string,
    endedDateText: string)

  datatype Seller = Seller(id: string, name: string, rating: real, totalSales: int)

  /** A `CardListing`. Times are milliseconds since the epoch. */
  datatype Listing = Listing(
    id: string,
    title: string,
    price: real,
    shipping: real,
    condition: string,
    seller: Seller,
    platform: string,
    imageUrl: string,
    url: string,
    isAuction: bool,
    bids: Option<Num>,
    endTime: Option<int>,
    lastUpdated: int)

  /** The path segment that precedes an eBay item number in a link. */
  const ItemPath: string := "itm/"

  /** `24 * 60 * 60 * 1000`. */
  const MsPerDay: int := 86400000

  // ---------------------------------------------------------------------
  // Listing ids
  // ---------------------------------------------------------------------

  /** The text before the first `?` has no `?` in it. */
  lemma {:induction false} HeadHasNoQuery(s: string)
    ensures var h := SplitHead(s, "?");
      forall k :: 0 <= k < |h| ==> h[k] != '?'
  {
    var h := SplitHead(s, "?");
    forall k | 0 <= k < |h|
      ensures h[k] != '?'
    {
      OccursAtChar(s, '?', k);
      assert h[k] == s[k];
    }
  }

  /** `url.split('itm/')[1]?.split('?')[0] || uuid`: the text after the first
      `itm/` up to the next `itm/` or `?`, or the fresh `uuid` when there is
      no `itm/` or nothing follows it. */
  function ListingId(url: string, uuid: string): (id: string)
    ensures id == uuid || (id != [] && forall k :: 0 <= k < |id| ==> id[k] != '?')
    ensures (forall i :: !OccursAt(url, ItemPath, i)) ==> id == uuid
  {
    match SplitSecond(url, ItemPath)
    case None => uuid
    case Some(segment) =>
      HeadHasNoQuery(segment);
      var head := SplitHead(segment, "?");
      if head == [] then uuid else head
  }

  /** Whether `s` contains no `itm/`. Ghost because it quantifies over every
      natural position without a bound (`OccursAt` is false past the end),
      which Dafny cannot compile; `NoQuery` is bounded by `|s|`. */
  ghost predicate NoItemPath(s: string) {
    forall i :: !OccursAt(s, ItemPath, i)
  }

  /** Whether `s` contains no `?`. */
  predicate NoQuery(s: string) {
    forall k :: 0 <= k < |s| ==> s[k] != '?'
  }

  /** An occurrence that lies inside `a` is an occurrence in `a + b`, and
      conversely. */
  lemma {:induction false} OccursInFront(a: string, b: string, pat: string, i: nat)
    requires i + |pat| <= |a|
    ensures OccursAt(a + b, pat, i) == OccursAt(a, pat, i)
  {
    assert (a + b)[i..i + |pat|] == a[i..i + |pat|];
  }

  /** `itm/` cannot start in the three characters before a character that
      occurs in it only at its start, or not at all. */
  lemma {:induction false} NoItemPathAcross(s: string, n: nat, i: nat)
    requires i < n < i + |ItemPath| && n < |s|
    requires s[n] != 't' && s[n] != 'm' && s[n] != '/'
    ensures !OccursAt(s, ItemPath, i)
  {
  }

  /** The first `itm/` of `prefix + "itm/" + rest`, when `prefix` has none, is
      the one after `prefix`. */
  lemma {:induction false} ItemPathAfterPrefix(prefix: string, rest: string)
    requires NoItemPath(prefix)
    ensures SplitSecond(prefix + ItemPath + rest, ItemPath) == Some(SplitHead(rest, ItemPath))
  {
    var url := prefix + ItemPath + rest;
    var n := |prefix|;
    assert url[n..n + |ItemPath|] == ItemPath;
    assert OccursAt(url, ItemPath, n);
    forall i | 0 <= i < n
      ensures !OccursAt(url, ItemPath, i)
    {
      if i + |ItemPath| <= n {
        OccursInFront(prefix, ItemPath + rest, ItemPath, i);
        assert url == prefix + (ItemPath + rest);
      } else {
        NoItemPathAcross(url, n, i);
      }
    }
    var k := IndexOf(url, ItemPath, 0);
    assert k == n;
    assert url[k + |ItemPath|..] == rest;
  }

  /** With no `itm/` in `id` and `tail` empty or starting with `?`, the text
      up to the next `itm/` starts with `id`. */
  lemma {:induction false} SegmentStartsWithId(id: string, tail: string)
    requires NoItemPath(id)
    requires tail == [] || tail[0] == '?'
    ensures var h := SplitHead(id + tail, ItemPath);
      |id| <= |h| && h[..|id|] == id && (|h| > |id| ==> h[|id|] == '?')
  {
    var rest := id + tail;
    var h := SplitHead(rest, ItemPath);
    if |h| < |id| {
      var i := |h|;
      assert OccursAt(rest, ItemPath, i);
      if i + |ItemPath| <= |id| {
        OccursInFront(id, tail, ItemPath, i);
      } else {
        NoItemPathAcross(rest, |id|, i);
      }
      assert false;
    }
    assert h[..|id|] == rest[..|id|] == id;
  }

  /** A query-free head is cut at the first `?`. */
  lemma {:induction false} HeadBeforeQuery(id: string, h: string)
    requires |id| <= |h| && h[..|id|] == id && (|h| > |id| ==> h[|id|] == '?')
    requires NoQuery(id)
    ensures SplitHead(h, "?") == id
  {
    var r := SplitHead(h, "?");
    if |r| < |id| {
      OccursAtChar(h, '?', |r|);
      assert false;
    } else if |r| > |id| {
      OccursAtChar(h, '?', |id|);
      assert false;
    }
  }

  /** An item link `prefix + "itm/" + id + tail`, where the item number `id`
      is non-empty with neither `?` nor `itm/` in it and `tail` is empty or a
      query string, yields the item number as the listing id. */
  lemma {:induction false} ItemUrlGivesId(prefix: string, id: string, tail: string, uuid: string)
    requires NoItemPath(prefix)
    requires id != [] && NoQuery(id) && NoItemPath(id)
    requires tail == [] || tail[0] == '?'
    ensures ListingId(prefix + ItemPath + id + tail, uuid) == id
  {
    ItemPathAfterPrefix(prefix, id + tail);
    assert prefix + ItemPath + (id + tail) == prefix + ItemPath + id + tail;
    SegmentStartsWithId(id, tail);
    HeadBeforeQuery(id, SplitHead(id + tail, ItemPath));
  }

  /** For a link `prefix + "itm/" + rest` whose prefix has no `itm/`, the id
      is the text of `rest` before its next `itm/` and then before its first
      `?`, or the fresh `uuid` when that text is empty. */
  lemma {:induction false} ListingIdOfItemLink(prefix: string, rest: string, uuid: string)
    requires NoItemPath(prefix)
    ensures var h := SplitHead(SplitHead(rest, ItemPath), "?");
      ListingId(prefix + ItemPath + rest, uuid) == (if h == [] then uuid else h)
  {
    ItemPathAfterPrefix(prefix, rest);
  }

  /** An item number in decimal has neither `?` nor `itm/` in it. */
  lemma {:induction false} DecimalIdIsPlain(n: nat)
    ensures NoQuery(ShowNat(n)) && NoItemPath(ShowNat(n))
  {
    var s := ShowNat(n);
    forall i: nat | OccursAt(s, ItemPath, i)
      ensures false
    {
      FirstCharOfOccurrence(s, ItemPath, i);
      assert false;
    }
  }

  lemma {:induction false} FirstCharOfOccurrence(s: string, pat: string, i: nat)
    ensures OccursAt(s, pat, i) && |pat| > 0 ==> s[i] == pat[0]
  {
    if OccursAt(s, pat, i) && |pat| > 0 {
      assert s[i] == s[i..i + |pat|][0];
    }
  }

  /** A link to item number `n`, with or without a query, is identified by
      that number. */
  lemma {:induction false} ItemNumberIsId(prefix: string, n: nat, tail: string, uuid: string)
    requires NoItemPath(prefix)
    requires tail == [] || tail[0] == '?'
    ensures ListingId(prefix + ItemPath + ShowNat(n) + tail, uuid) == ShowNat(n)
  {
    DecimalIdIsPlain(n);
    ItemUrlGivesId(prefix, ShowNat(n), tail, uuid);
  }

  // ---------------------------------------------------------------------
  // Selecting the elements that become listings
  // ---------------------------------------------------------------------

  /** The indices of the elements `keep` accepts, in document order. */
  function Kept(es: seq<Element>, keep: (nat, Element) -> bool): (ks: seq<nat>)
    decreases |es|
    ensures |ks| <= |es|
    ensures forall j :: 0 <= j < |ks| ==> ks[j] < |es| && keep(ks[j], es[ks[j]])
    ensures forall j, k :: 0 <= j < k < |ks| ==> ks[j] < ks[k]
    ensures forall i :: 0 <= i < |es| ==> (i in ks <==> keep(i, es[i]))
  {
    if |es| == 0 then []
    else
      var n := |es| - 1;
      Kept(es[..n], keep) + (if keep(n, es[n]) then [n] else [])
  }

  /** The `.each` loop of the scraper: the listing `make` builds from each
      element `keep` accepts, in document order. */
  function Collect(es: seq<Element>, keep: (nat, Element) -> bool, make: (nat, Element) -> Listing): (r: seq<Listing>)
    decreases |es|
    ensures |r| == |Kept(es, keep)|
    ensures forall j :: 0 <= j < |r| ==> r[j] == make(Kept(es, keep)[j], es[Kept(es, keep)[j]])
  {
    if |es| == 0 then []
    else
      var n := |es| - 1;
      Collect(es[..n], keep, make) + (if keep(n, es[n]) then [make(n, es[n])] else [])
  }

  /** `title && price`: a non-empty title and a price that is neither 0 nor NaN. */
  predicate Listable(title: string, priceText: string) {
    title != [] && Truthy(ExtractPrice(priceText))
  }

  // ---------------------------------------------------------------------
  // Search results
  // ---------------------------------------------------------------------

  /** Which search results become listings. */
  function SearchKeep(i: nat, e: Element): bool {
    Listable(e.title, e.priceText)
  }

  /** The listing a search result becomes, with the fresh `uuid` for an id
      the link does not give. */
  function SearchItem(e: Element, uuid: string, now: int): (l: Listing)
    ensures Listable(e.title, e.priceText) ==>
              l.price == ExtractPrice(e.priceText).value && l.price > 0.0
    // `extractPrice(shippingText) || 0`: shipping is never NaN nor negative
    ensures l.shipping >= 0.0
    ensures Truthy(ExtractPrice(e.shippingText)) ==> l.shipping == ExtractPrice(e.shippingText).value
    ensures !Truthy(ExtractPrice(e.shippingText)) ==> l.shipping == 0.0
    // an auction is exactly a result showing a bid count
    ensures l.isAuction <==> e.bidsText != []
    ensures l.bids.Some? <==> l.isAuction
    ensures l.isAuction ==> l.bids == Some(ParseInt(e.bidsText))
    ensures l.id == ListingId(l.url, uuid)
    ensures l.url == e.href.GetOr("") && l.imageUrl == e.imageSrc.GetOr("")
    ensures l.title == e.title && l.condition == e.conditionText
    ensures l.seller == Seller("", e.sellerText, 0.0, 0)
    ensures l.platform == "ebay" && l.endTime.None? && l.lastUpdated == now
  {
    var url := e.href.GetOr("");
    Listing(
      id := ListingId(url, uuid),
      title := e.title,
      price := OrZero(ExtractPrice(e.priceText)),
      shipping := OrZero(ExtractPrice(e.shippingText)),
      condition := e.conditionText,
      seller := Seller("", e.sellerText, 0.0, 0),
      platform := "ebay",
      imageUrl := e.imageSrc.GetOr(""),
      url := url,
      isAuction := e.bidsText != [],
      bids := if e.bidsText != [] then Some(ParseInt(e.bidsText)) else None,
      endTime := None,
      lastUpdated := now)
  }

  function SearchMake(uuids: nat -> string, now: int): (nat, Element) -> Listing {
    (i: nat, e: Element) => SearchItem(e, uuids(i), now)
  }

  /** The listings `searchEbay` returns for the result elements `es`;
      `uuids(i)` is the UUID drawn for element `i` when its link gives no id. */
  function SearchEbay(es: seq<Element>, uuids: nat -> string, now: int): (r: seq<Listing>)
    ensures |r| == |Kept(es, SearchKeep)| <= |es|
    // the j-th listing comes from the j-th listable element
    ensures forall j :: 0 <= j < |r| ==>
              var k := Kept(es, SearchKeep)[j];
              r[j] == SearchItem(es[k], uuids(k), now)
    // every listing has a title, a positive price and a valid shipping cost
    ensures forall l :: l in r ==>
              l.title != [] && l.price > 0.0 && l.shipping >= 0.0 && l.platform == "ebay"
    ensures forall l :: l in r ==> (l.isAuction <==> l.bids.Some?) && l.endTime.None?
  {
    var r := Collect(es, SearchKeep, SearchMake(uuids, now));
    SearchItemsOfKept(es, uuids, now, r);
    r
  }

  lemma {:induction false} SearchItemsOfKept(es: seq<Element>, uuids: nat -> string, now: int, r: seq<Listing>)
    requires r == Collect(es, SearchKeep, SearchMake(uuids, now))
    ensures forall j :: 0 <= j < |r| ==>
              var k := Kept(es, SearchKeep)[j];
              r[j] == SearchItem(es[k], uuids(k), now) && Listable(es[k].title, es[k].priceText)
  {
  }

  /** An element becomes a listing exactly when it has a title and a price. */
  lemma {:induction false} SearchKeepsListable(es: seq<Element>, i: nat)
    requires i < |es|
    ensures i in Kept(es, SearchKeep) <==> es[i].title != [] && Truthy(ExtractPrice(es[i].priceText))
  {
  }

  /** A bid count such as "12 bids" makes an auction with that many bids. */
  lemma {:induction false} BidCountIsRead(e: Element, n: nat, uuid: string, now: int)
    requires e.bidsText == ShowNat(n) + " bids"
    ensures SearchItem(e, uuid, now).isAuction
    ensures SearchItem(e, uuid, now).bids == Some(Real(n as real))
  {
    ParseIntOfShowNat(n, " bids");
  }

  // ---------------------------------------------------------------------
  // Completed sales
  // ---------------------------------------------------------------------

  /** `now - soldDate.getTime() <= days * 24 * 60 * 60 * 1000`, where an
      unparseable date is an Invalid Date whose time is NaN and fails every
      comparison. The sold time is the parsed date, if any. */
  predicate WithinDays(sold: Option<int>, now: int, days: real) {
    sold.Some? && (now - sold.value) as real <= days * MsPerDay as real
  }

  /** Which completed sales become listings: sold within the last `days`
      days, with a title and a price. */
  function SaleKeep(parseDate: string -> Option<int>, now: int, days: real): (nat, Element) -> bool {
    (i: nat, e: Element) => WithinDays(parseDate(e.endedDateText), now, days) && Listable(e.title, e.priceText)
  }

  /** The listing a completed sale becomes. */
  function SaleItem(e: Element, sold: int, uuid: string, now: int): (l: Listing)
    ensures Listable(e.title, e.priceText) ==>
              l.price == ExtractPrice(e.priceText).value && l.price > 0.0
    // a sale is never an auction, has no bids, no shipping cost and no seller
    ensures !l.isAuction && l.bids.None? && l.shipping == 0.0
    ensures l.seller == Seller("", "", 0.0, 0)
    ensures l.endTime == Some(sold) && l.id == uuid
    ensures l.url == e.href.GetOr("") && l.imageUrl == e.imageSrc.GetOr("")
    ensures l.title == e.title && l.condition == e.conditionText
    ensures l.platform == "ebay" && l.lastUpdated == now
  {
    Listing(
      id := uuid,
      title := e.title,
      price := OrZero(ExtractPrice(e.priceText)),
      shipping := 0.0,
      condition := e.conditionText,
      seller := Seller("", "", 0.0, 0),
      platform := "ebay",
      imageUrl := e.imageSrc.GetOr(""),
      url := e.href.GetOr(""),
      isAuction := false,
      bids := None,
      endTime := Some(sold),
      lastUpdated := now)
  }

  function SaleMake(parseDate: string -> Option<int>, uuids: nat -> string, now: int): (nat, Element) -> Listing {
    (i: nat, e: Element) => SaleItem(e, parseDate(e.endedDateText).GetOr(0), uuids(i), now)
  }

  /** The listings `getCompletedSales` returns for the result elements `es`,
      at time `now`, for the last `days` days; `parseDate` is the `Date`
      constructor on the ended-date text and `uuids(i)` the UUID drawn for
      element `i`. */
  function CompletedSales(es: seq<Element>, parseDate: string -> Option<int>, uuids: nat -> string,
                          now: int, days: real): (r: seq<Listing>)
    ensures |r| == |Kept(es, SaleKeep(parseDate, now, days))| <= |es|
    // the j-th listing comes from the j-th element sold in the window
    ensures forall j :: 0 <= j < |r| ==>
              var k := Kept(es, SaleKeep(parseDate, now, days))[j];
              && parseDate(es[k].endedDateText).Some?
              && r[j] == SaleItem(es[k], parseDate(es[k].endedDateText).value, uuids(k), now)
    // every sale ended within the window and has a title and a positive price
    ensures forall l :: l in r ==>
              && l.endTime.Some? && (now - l.endTime.value) as real <= days * MsPerDay as real
              && l.title != [] && l.price > 0.0
              && !l.isAuction && l.shipping == 0.0
  {
    var keep := SaleKeep(parseDate, now, days);
    var r := Collect(es, keep, SaleMake(parseDate, uuids, now));
    forall j | 0 <= j < |r|
      ensures var k := Kept(es, keep)[j];
        && parseDate(es[k].endedDateText).Some?
        && r[j] == SaleItem(es[k], parseDate(es[k].endedDateText).value, uuids(k), now)
    {
      var k := Kept(es, keep)[j];
      assert keep(k, es[k]);
    }
    assert forall l :: l in r ==> l.title != [] && l.price > 0.0 by {
      forall l | l in r
        ensures l.title != [] && l.price > 0.0
      {
        var j :| 0 <= j < |r| && r[j] == l;
        var k := Kept(es, keep)[j];
        assert keep(k, es[k]);
      }
    }
    r
  }

  /** A sale becomes a listing exactly when its date parses, lies within the
      window, and it has a title and a price. */
  lemma {:induction false} SaleKeepsRecentListable(es: seq<Element>, parseDate: string -> Option<int>, now: int, days: real, i: nat)
    requires i < |es|
    ensures i in Kept(es, SaleKeep(parseDate, now, days)) <==>
              && parseDate(es[i].endedDateText).Some?
              && (now - parseDate(es[i].endedDateText).value) as real <= days * MsPerDay as real
              && es[i].title != [] && Truthy(ExtractPrice(es[i].priceText))
  {
  }
}
