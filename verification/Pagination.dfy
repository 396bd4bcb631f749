/**
 The fetch-all loops of n8n-nodes-onprintshop/nodes/OnPrintShop.node.ts against an unchanging list of
 records that the server slices by limit and offset.
 */
module Pagination {
  import opened Prelude

  const MAX_PAGES: nat := 100

  /**
   What one request meets: a page served in so many milliseconds, data whose record list is null, an HTTP error,
   GraphQL errors, or neither data nor errors.
   */
  datatype Reply = Served(ms: int) | NullList(ms: int) | HttpError(code: int) | GraphErrors | Malformed

  datatype Loop = Customers | OrderDetails | Faqs

  datatype Fetch<T> =
    | Fetched(records: seq<T>, pages: nat)
    | PageLimit
    | RequestFailed(code: int)
    | QueryFailed
    | UnexpectedFormat

  /** The replies in the order the requests are made; past the end every request is served. */
  function ReplyAt(script: seq<Reply>, i: nat): Reply {
    if i < |script| then script[i] else Served(200)
  }

  /** Math.min(pageSize || 250, 250) */
  function PageSize(requested: Option<nat>): (p: nat)
    ensures 1 <= p <= 250
  {
    var size := if requested.Some? && requested.value != 0 then requested.value else 250;
    if size < 250 then size else 250
  }

  /** Math.max(pageDelay || 50, 25) */
  function PageDelay(requested: Option<nat>): (d: real)
    ensures d >= 25.0
  {
    var delay := if requested.Some? && requested.value != 0 then requested.value else 50;
    if delay > 25 then delay as real else 25.0
  }

  function Least(a: nat, b: nat): nat {
    if a <= b then a else b
  }

  function LeastReal(a: real, b: real): real {
    if a <= b then a else b
  }

  function MostReal(a: real, b: real): real {
    if a >= b then a else b
  }

  /** The server's answer to limit and offset. */
  function Page<T>(records: seq<T>, limit: nat, offset: nat): seq<T> {
    records[Least(offset, |records|)..Least(offset + limit, |records|)]
  }

  predicate Retried(code: int) {
    code == 429 || code == 502
  }

  /** A page, a failure that the customers loop retries, or a null list that the FAQ loop takes for an empty page. */
  predicate Passes(reply: Reply, loop: Loop) {
    reply.Served? || (loop.Customers? && reply.HttpError? && Retried(reply.code)) || (loop.Faqs? && reply.NullList?)
  }

  /** The loop ends without an error. */
  predicate EndsQuietly(reply: Reply) {
    reply.Malformed? || reply.NullList?
  }

  predicate AllPass(script: seq<Reply>, loop: Loop) {
    forall i :: 0 <= i < |script| ==> Passes(script[i], loop)
  }

  /** Where the first reply is that the loop cannot get past; the length of the script if there is none. */
  function FirstStop(script: seq<Reply>, loop: Loop): (stop: nat)
    ensures stop <= |script| && AllPass(script[..stop], loop)
    ensures stop < |script| ==> !Passes(script[stop], loop)
  {
    if script == [] || !Passes(script[0], loop) then 0
    else
      var stop := 1 + FirstStop(script[1..], loop);
      assert script[..stop] == [script[0]] + script[1..][..stop - 1];
      stop
  }

  lemma FirstStopIs(script: seq<Reply>, loop: Loop, stop: nat)
    requires stop < |script| && AllPass(script[..stop], loop) && !Passes(script[stop], loop)
    ensures FirstStop(script, loop) == stop
  {
  }

  /** How many of the first so many replies are pages. */
  function ServedBy(script: seq<Reply>, requests: nat): (n: nat)
    ensures n <= requests
  {
    if requests == 0 then 0
    else ServedBy(script, requests - 1) + if ReplyAt(script, requests - 1).Served? then 1 else 0
  }

  lemma {:induction false} ServedMonotone(script: seq<Reply>, few: nat, many: nat)
    requires few <= many
    ensures ServedBy(script, few) <= ServedBy(script, many)
    decreases many
  {
    if few < many {
      ServedMonotone(script, few, many - 1);
    }
  }

  lemma {:induction false} AllServed(script: seq<Reply>, requests: nat)
    requires requests <= |script| && AllPass(script[..requests], OrderDetails)
    ensures ServedBy(script, requests) == requests
  {
    if requests > 0 {
      assert script[..requests][requests - 1] == script[requests - 1];
      assert script[..requests - 1] == script[..requests][..requests - 1];
      AllServed(script, requests - 1);
    }
  }

  /** Appending the next page to a prefix gives the next prefix; a full page fits, a short one ends the list. */
  lemma NextPrefix<T>(records: seq<T>, p: nat, offset: nat)
    ensures records[..Least(offset, |records|)] + Page(records, p, offset) == records[..Least(offset + p, |records|)]
    ensures p > 0 ==> (|Page(records, p, offset)| > 0 <==> offset < |records|)
    ensures p > 0 ==> (|Page(records, p, offset)| == p <==> offset + p <= |records|)
  {
  }

  /** The records covered by so many pages: pages * p. */
  function Covered(pages: nat, p: nat): nat {
    if pages == 0 then 0 else Covered(pages - 1, p) + p
  }

  lemma {:induction false} CoveredIsProduct(pages: nat, p: nat)
    ensures Covered(pages, p) == pages * p
  {
    if pages > 0 {
      CoveredIsProduct(pages - 1, p);
    }
  }

  lemma {:induction false} CoveredMonotone(few: nat, many: nat, p: nat)
    requires few <= many
    ensures Covered(few, p) <= Covered(many, p)
    decreases many
  {
    if few < many {
      CoveredMonotone(few, many - 1, p);
    }
  }

  lemma FirstPage(p: nat)
    ensures Covered(0, p) == 0
  {
  }

  lemma OnePageMore(pages: nat, p: nat)
    ensures Covered(pages + 1, p) == Covered(pages, p) + p
  {
  }

  /** The customers loop shortens the wait after a fast page and lengthens it after a slow one. */
  function CustomerDelay(delay: real, ms: int): (d: real)
    requires delay >= 25.0
    ensures 25.0 <= d <= MostReal(delay, 200.0)
  {
    if ms < 100 then MostReal(25.0, delay * 0.8)
    else if ms > 500 then LeastReal(200.0, delay * 1.2)
    else delay
  }

  function OrderDelay(delay: real, ms: int): (d: real)
    requires delay >= 25.0
    ensures 25.0 <= d <= MostReal(delay, 1000.0)
  {
    if ms < 100 then MostReal(25.0, delay * 0.8)
    else if ms > 500 then LeastReal(1000.0, delay * 1.25)
    else delay
  }

  /** After a retried failure the wait doubles, up to a second. */
  function BackoffDelay(delay: real): (d: real)
    requires delay >= 25.0
    ensures 25.0 <= d <= MostReal(delay, 1000.0)
  {
    LeastReal(1000.0, delay * 2.0)
  }

  /** What the settings come to: at most 250 records a page, 250 by default; at least 25 milliseconds, 50 by default. */
  lemma SettingsAre(requested: Option<nat>)
    ensures PageSize(requested) == if requested.Some? && 1 <= requested.value <= 250 then requested.value else 250
    ensures requested.Some? && requested.value >= 25 ==> PageDelay(requested) == requested.value as real
    ensures requested.Some? && 1 <= requested.value <= 25 ==> PageDelay(requested) == 25.0
    ensures requested.None? || requested.value == 0 ==> PageDelay(requested) == 50.0
  {
  }

  /**
   How the waits move: down by a fifth after a page in less than 100 milliseconds, but not below 25; up after a page in
   more than 500, by a fifth to 200 at most for customers and by a quarter to 1000 at most for order details; doubled to
   1000 at most after a retried failure.
   */
  lemma DelaysAre(delay: real, ms: int)
    requires delay >= 25.0
    ensures ms < 100 ==>
              CustomerDelay(delay, ms) == OrderDelay(delay, ms) == if delay >= 31.25 then delay * 0.8 else 25.0
    ensures 100 <= ms <= 500 ==> CustomerDelay(delay, ms) == OrderDelay(delay, ms) == delay
    ensures ms > 500 ==> CustomerDelay(delay, ms) == (if 6.0 * delay <= 1000.0 then delay * 1.2 else 200.0)
    ensures ms > 500 ==> OrderDelay(delay, ms) == (if delay <= 800.0 then delay * 1.25 else 1000.0)
    ensures BackoffDelay(delay) == if delay <= 500.0 then delay + delay else 1000.0
  {
  }

  function NextDelay(loop: Loop, delay: real, reply: Reply): (d: real)
    requires delay >= 25.0
    ensures 25.0 <= d <= MostReal(delay, 1000.0)
  {
    match reply
    case Served(ms) => if loop.Customers? then CustomerDelay(delay, ms) else OrderDelay(delay, ms)
    case NullList(ms) => if loop.Customers? then delay else OrderDelay(delay, ms)
    case HttpError(code) => if loop.Customers? && (code == 429 || code == 502) then BackoffDelay(delay) else delay
    case _ => delay
  }

  /** The wait after so many replies. */
  function DelayAfter(loop: Loop, initial: real, script: seq<Reply>, requests: nat): (d: real)
    requires initial >= 25.0
    ensures 25.0 <= d <= MostReal(initial, 1000.0)
  {
    if requests == 0 then initial
    else NextDelay(loop, DelayAfter(loop, initial, script, requests - 1), ReplyAt(script, requests - 1))
  }

  lemma NoReplyYet(loop: Loop, initial: real, script: seq<Reply>)
    requires initial >= 25.0
    ensures DelayAfter(loop, initial, script, 0) == initial
  {
  }

  lemma OneDelayMore(loop: Loop, initial: real, script: seq<Reply>, requests: nat)
    requires initial >= 25.0
    ensures DelayAfter(loop, initial, script, requests + 1)
         == NextDelay(loop, DelayAfter(loop, initial, script, requests), ReplyAt(script, requests))
  {
  }

  /** The pages it takes to hold so many records. */
  function PagesFor(records: nat, p: nat): nat
    requires p > 0
  {
    (records + p - 1) / p
  }

  lemma Division(a: nat, p: nat)
    requires p > 0
    ensures Covered(a / p, p) <= a < Covered(a / p, p) + p
  {
    hide Covered;
    CoveredIsProduct(a / p, p);
    assert a == p * (a / p) + a % p;
  }

  lemma QuotientIs(a: nat, p: nat, q: nat)
    requires p > 0 && Covered(q, p) <= a < Covered(q, p) + p
    ensures a / p == q
  {
    hide Covered;
    var d := a / p;
    Division(a, p);
    OnePageMore(d, p);
    OnePageMore(q, p);
    if d < q {
      CoveredMonotone(d + 1, q, p);
    } else if d > q {
      CoveredMonotone(q + 1, d, p);
    }
  }

  lemma PagesForIs(records: nat, p: nat, pages: nat)
    requires p > 0 && records <= Covered(pages, p) && (pages > 0 ==> Covered(pages - 1, p) < records)
    ensures PagesFor(records, p) == pages
  {
    QuotientIs(records + p - 1, p, pages);
  }

  /**
   The reply at position stop ends the loop: everything before it passes, it does not, and the pages served until
   then, fewer than the limit, did not reach beyond the end of the list.
   */
  predicate StoppedAt(total: nat, p: nat, script: seq<Reply>, loop: Loop, stop: nat) {
    && stop < |script| && AllPass(script[..stop], loop) && !Passes(script[stop], loop)
    && ServedBy(script, stop) < MAX_PAGES && Covered(ServedBy(script, stop), p) <= total
  }

  /** What the customers loop comes to for any list and any script of replies. */
  function CustomersOutcome<T>(records: seq<T>, p: nat, script: seq<Reply>): Fetch<T>
    requires p > 0
  {
    var stop := FirstStop(script, Customers);
    var n := ServedBy(script, stop);
    if StoppedAt(|records|, p, script, Customers, stop) then
      if EndsQuietly(script[stop]) then Fetched(records[..Covered(n, p)], n)
      else if script[stop].GraphErrors? then QueryFailed
      else RequestFailed(script[stop].code)
    else if |records| <= Covered(99, p) then Fetched(records, PagesFor(|records|, p))
    else PageLimit
  }

  /**
   Exactly when the customers loop returns the whole list, part of it, or an error: a partial list is returned if and
   only if the reply that ends the loop has no list, and no errors either, and records are left.
   */
  lemma CustomersOutcomeIff<T>(records: seq<T>, p: nat, script: seq<Reply>)
    requires p > 0
    ensures var r := CustomersOutcome(records, p, script);
            && ((r.Fetched? && r.records != records) <==>
                 exists i: nat :: StoppedAt(|records|, p, script, Customers, i) && EndsQuietly(script[i])
                             && Covered(ServedBy(script, i), p) < |records|)
            && (r == QueryFailed <==>
                 exists i: nat :: StoppedAt(|records|, p, script, Customers, i) && script[i].GraphErrors?)
            && (forall code :: r == RequestFailed(code) <==>
                                 exists i: nat :: StoppedAt(|records|, p, script, Customers, i)
                                   && script[i] == HttpError(code))
            && (r == PageLimit <==>
                  |records| > Covered(99, p) && !exists i: nat :: StoppedAt(|records|, p, script, Customers, i))
            && r != UnexpectedFormat
  {
    hide Covered, ServedBy, FirstStop;
    var stop := FirstStop(script, Customers);
    forall i | StoppedAt(|records|, p, script, Customers, i) ensures i == stop {
      FirstStopIs(script, Customers, i);
    }
    var n := ServedBy(script, stop);
    assert StoppedAt(|records|, p, script, Customers, stop) ==> |records[..Covered(n, p)]| == Covered(n, p);
    assert records[..|records|] == records;
  }

  lemma NothingServed(script: seq<Reply>)
    ensures ServedBy(script, 0) == 0
  {
  }

  lemma OneReplyMore(script: seq<Reply>, requests: nat)
    ensures ServedBy(script, requests + 1)
         == ServedBy(script, requests) + if ReplyAt(script, requests).Served? then 1 else 0
  {
  }

  /** The loop has not met the reply it cannot get past. */
  predicate Before(script: seq<Reply>, stop: nat, requests: nat) {
    stop < |script| ==> requests <= stop
  }

  lemma NextReply(script: seq<Reply>, loop: Loop, requests: nat)
    requires Before(script, FirstStop(script, loop), requests)
    ensures var stop := FirstStop(script, loop);
            && (Passes(ReplyAt(script, requests), loop) ==> Before(script, stop, requests + 1))
            && (!Passes(ReplyAt(script, requests), loop) ==> requests == stop < |script|)
  {
    var stop := FirstStop(script, loop);
    if requests < stop {
      assert script[..stop][requests] == script[requests];
    }
  }

  /** All pages so far were full and lie within the list. */
  predicate Ongoing(total: nat, p: nat, script: seq<Reply>, stop: nat, requests: nat, pages: nat) {
    Before(script, stop, requests) && pages == ServedBy(script, requests) && Covered(pages, p) <= total
  }

  /** So many pages hold the whole list, no fewer would, and the last reply showed it. */
  predicate Complete(total: nat, p: nat, script: seq<Reply>, stop: nat, requests: nat, pages: nat) {
    && Before(script, stop, requests) && Covered(ServedBy(script, requests), p) > total
    && total <= Covered(pages, p) && (pages > 0 ==> Covered(pages - 1, p) < total)
  }

  /** The last page reached beyond the end of the list. */
  predicate PastEnd(total: nat, p: nat, script: seq<Reply>, stop: nat, requests: nat, pages: nat) {
    && Before(script, stop, requests) && pages == ServedBy(script, requests)
    && pages > 0 && Covered(pages - 1, p) <= total < Covered(pages, p)
  }

  /** A list that is complete, or has reached the limit, was not cut short. */
  lemma NotStopped(total: nat, p: nat, script: seq<Reply>, loop: Loop, requests: nat)
    requires Before(script, FirstStop(script, loop), requests)
    requires Covered(ServedBy(script, requests), p) > total || ServedBy(script, requests) >= MAX_PAGES
    ensures !StoppedAt(total, p, script, loop, FirstStop(script, loop))
  {
    hide Covered, ServedBy, FirstStop;
    var stop := FirstStop(script, loop);
    if stop < |script| {
      ServedMonotone(script, requests, stop);
      CoveredMonotone(ServedBy(script, requests), ServedBy(script, stop), p);
    }
  }

  /** Before that reply there is nothing but pages and the two errors that are retried, 429 and 502. */
  predicate PagesAndRetries(script: seq<Reply>, n: nat) {
    forall i :: 0 <= i < n && i < |script| ==>
      script[i].Served? || script[i] == HttpError(429) || script[i] == HttpError(502)
  }

  lemma RetryCodes<T>(records: seq<T>, p: nat, script: seq<Reply>)
    requires p > 0
    ensures PagesAndRetries(script, |script|) ==>
              CustomersOutcome(records, p, script)
              == if |records| <= Covered(99, p) then Fetched(records, PagesFor(|records|, p)) else PageLimit
    ensures forall i: nat, code ::
              && i < |script| && PagesAndRetries(script, i) && script[i] == HttpError(code)
              && code != 429 && code != 502
              && ServedBy(script, i) < 100 && Covered(ServedBy(script, i), p) <= |records| ==>
                CustomersOutcome(records, p, script) == RequestFailed(code)
  {
    hide Covered, ServedBy, FirstStop, PagesFor;
    forall i: nat | i < |script| && PagesAndRetries(script, i) && !Passes(script[i], Customers)
      ensures FirstStop(script, Customers) == i
    {
      FirstStopIs(script, Customers, i);
    }
  }

  /** All customers: for every list and every script of replies the outcome is exactly CustomersOutcome. */
  method FetchCustomers<T>(records: seq<T>, requestedSize: Option<nat>, requestedDelay: Option<nat>,
                           script: seq<Reply>)
    returns (r: Fetch<T>, adaptiveDelay: real)
    ensures 25.0 <= adaptiveDelay <= MostReal(PageDelay(requestedDelay), 1000.0)
    ensures r == CustomersOutcome(records, PageSize(requestedSize), script)
    ensures exists k :: adaptiveDelay == DelayAfter(Customers, PageDelay(requestedDelay), script, k)
    ensures PagesAndRetries(script, |script|) ==>
              if |records| <= Covered(99, PageSize(requestedSize))
              then r.Fetched? && r.records == records
              else r == PageLimit
    ensures r.Fetched? ==>
              && r.records == records[..Least(Covered(r.pages, PageSize(requestedSize)), |records|)]
              && r.pages < 100
    ensures forall i: nat, code ::
              && i < |script| && PagesAndRetries(script, i) && script[i] == HttpError(code)
              && code != 429 && code != 502
              && ServedBy(script, i) < 100 && Covered(ServedBy(script, i), PageSize(requestedSize)) <= |records| ==>
                r == RequestFailed(code)
  {
    hide Covered, Page, PageSize, PageDelay, CustomerDelay, BackoffDelay, ServedBy, FirstStop, PagesFor, DelayAfter;
    hide PagesAndRetries, MostReal;
    var pageSize := PageSize(requestedSize);
    adaptiveDelay := PageDelay(requestedDelay);
    var all: seq<T> := [];
    var offset, pageCount, hasMorePages := 0, 0, true;
    var requests := 0;
    ghost var stop := FirstStop(script, Customers);
    FirstPage(pageSize);
    NothingServed(script);
    RetryCodes(records, pageSize, script);
    ghost var waits := 0;
    NoReplyYet(Customers, adaptiveDelay, script);
    while hasMorePages && pageCount < MAX_PAGES
      invariant pageCount <= MAX_PAGES && offset == Covered(pageCount, pageSize)
      invariant 25.0 <= adaptiveDelay <= MostReal(PageDelay(requestedDelay), 1000.0)
      invariant adaptiveDelay == DelayAfter(Customers, PageDelay(requestedDelay), script, waits)
      invariant hasMorePages ==> waits == requests
      invariant all == records[..Least(offset, |records|)]
      invariant hasMorePages ==> Ongoing(|records|, pageSize, script, stop, requests, pageCount)
      invariant !hasMorePages ==>
                  || Complete(|records|, pageSize, script, stop, requests, pageCount)
                  || (StoppedAt(|records|, pageSize, script, Customers, stop) && EndsQuietly(script[stop])
                      && pageCount == ServedBy(script, stop))
      decreases MAX_PAGES - pageCount, if requests < |script| then |script| - requests else 0,
                if hasMorePages then 1 else 0
    {
      var reply := ReplyAt(script, requests);
      OneReplyMore(script, requests);
      OneDelayMore(Customers, PageDelay(requestedDelay), script, requests);
      NextReply(script, Customers, requests);
      requests := requests + 1;
      match reply {
        case Served(ms) =>
          var customers := Page(records, pageSize, offset);
          NextPrefix(records, pageSize, offset);
          OnePageMore(pageCount, pageSize);
          if |customers| > 0 {
            all := all + customers;
            offset := offset + pageSize;
            pageCount := pageCount + 1;
            hasMorePages := |customers| == pageSize;
            adaptiveDelay := CustomerDelay(adaptiveDelay, ms);
            waits := waits + 1;
          } else {
            hasMorePages := false;
            if pageCount > 0 {
              OnePageMore(pageCount - 1, pageSize);
            }
          }
        case GraphErrors =>
          return QueryFailed, adaptiveDelay;
        case Malformed =>
          hasMorePages := false;
        case NullList(_) =>
          hasMorePages := false;
        case HttpError(code) =>
          if Retried(code) {
            adaptiveDelay := BackoffDelay(adaptiveDelay);
            waits := waits + 1;
          } else {
            return RequestFailed(code), adaptiveDelay;
          }
      }
    }
    OnePageMore(99, pageSize);
    if pageCount >= MAX_PAGES || Complete(|records|, pageSize, script, stop, requests, pageCount) {
      NotStopped(|records|, pageSize, script, Customers, requests);
    }
    if pageCount >= MAX_PAGES {
      return PageLimit, adaptiveDelay;
    }
    CoveredMonotone(pageCount, 99, pageSize);
    if Complete(|records|, pageSize, script, stop, requests, pageCount) {
      PagesForIs(|records|, pageSize, pageCount);
    }
    return Fetched(all, pageCount), adaptiveDelay;
  }

  function Products<P>(orders: seq<Option<P>>): seq<P> {
    if orders == [] then []
    else (if orders[0].Some? then [orders[0].value] else []) + Products(orders[1..])
  }

  lemma {:induction false} ProductsAppend<P>(a: seq<Option<P>>, b: seq<Option<P>>)
    ensures Products(a + b) == Products(a) + Products(b)
  {
    if a == [] {
      assert a + b == b;
    } else {
      var both := a + b;
      assert both[0] == a[0] && both[1..] == a[1..] + b;
      ProductsAppend(a[1..], b);
      assert Products(both) == (if a[0].Some? then [a[0].value] else []) + Products(a[1..] + b);
    }
  }

  lemma NoProducts<P>(orders: seq<Option<P>>)
    ensures Products(orders[..0]) == []
  {
  }

  method PushProducts<P>(collected: seq<P>, page: seq<Option<P>>) returns (all: seq<P>)
    ensures all == collected + Products(page)
  {
    all := collected;
    for i := 0 to |page|
      invariant all == collected + Products(page[..i])
    {
      ProductsAppend(page[..i], [page[i]]);
      assert page[..i] + [page[i]] == page[..i + 1];
      if page[i].Some? {
        all := all + [page[i].value];
      }
    }
    assert page[..|page|] == page;
  }

  lemma {:induction false} ProductsLength<P>(orders: seq<Option<P>>)
    ensures |Products(orders)| > 0 <==> exists j :: 0 <= j < |orders| && orders[j].Some?
  {
    if orders != [] {
      ProductsLength(orders[1..]);
      if j :| 0 <= j < |orders| && orders[j].Some? {
        assert j > 0 ==> orders[1..][j - 1] == orders[j];
      }
      if j :| 0 <= j < |orders[1..]| && orders[1..][j].Some? {
        assert orders[1..][j] == orders[j + 1];
      }
    }
  }

  /** Cutting the list short loses something exactly when a later order has a product. */
  lemma CutLoses<P>(orders: seq<Option<P>>, covered: nat)
    requires covered <= |orders|
    ensures Products(orders[..covered]) != Products(orders)
       <==> exists j :: covered <= j < |orders| && orders[j].Some?
  {
    hide Products;
    var rest := orders[covered..];
    assert orders[..covered] + rest == orders;
    ProductsAppend(orders[..covered], rest);
    ProductsLength(rest);
    assert forall j :: 0 <= j < |rest| ==> rest[j] == orders[covered + j];
    if j :| covered <= j < |orders| && orders[j].Some? {
      assert rest[j - covered].Some?;
      assert |Products(orders)| > |Products(orders[..covered])|;
    }
  }

  lemma LastPage(total: nat, p: nat, pages: nat)
    requires p > 0 && pages > 0 && Covered(pages - 1, p) <= total < Covered(pages, p)
    ensures total / p + 1 == pages
  {
    QuotientIs(total, p, pages - 1);
  }

  lemma NotYetLastPage(total: nat, p: nat, pages: nat)
    requires p > 0 && Covered(pages, p) <= total
    ensures total / p + 1 > pages
  {
    hide Covered;
    var d := total / p;
    Division(total, p);
    OnePageMore(d, p);
    if d + 1 <= pages {
      CoveredMonotone(d + 1, pages, p);
    }
  }

  /** What the order-details loop comes to for any list and any script of replies. */
  function DetailsOutcome<P>(orders: seq<Option<P>>, p: nat, script: seq<Reply>): Fetch<P>
    requires p > 0
  {
    var stop := FirstStop(script, OrderDetails);
    if StoppedAt(|orders|, p, script, OrderDetails, stop) then
      var n := ServedBy(script, stop);
      if script[stop].Malformed? then Fetched(Products(orders[..Covered(n, p)]), n)
      else if script[stop].NullList? then Fetched(Products(orders[..Covered(n, p)]), n + 1)
      else if script[stop].GraphErrors? then QueryFailed
      else RequestFailed(script[stop].code)
    else
      Fetched(Products(orders[..Least(Covered(MAX_PAGES, p), |orders|)]), Least(MAX_PAGES, |orders| / p + 1))
  }

  /** The pages that had a list, of those counted. */
  ghost function FullPages(total: nat, p: nat, script: seq<Reply>, pages: nat): int {
    if exists i: nat :: StoppedAt(total, p, script, OrderDetails, i) && script[i].NullList? then pages - 1 else pages
  }

  lemma DetailsPages<P>(orders: seq<Option<P>>, p: nat, script: seq<Reply>)
    requires p > 0
    ensures var r := DetailsOutcome(orders, p, script);
            r.Fetched? ==>
              var full := FullPages(|orders|, p, script, r.pages);
              0 <= full <= MAX_PAGES && r.records == Products(orders[..Least(Covered(full, p), |orders|)])
  {
    hide Covered, ServedBy, FirstStop, Products;
    var stop := FirstStop(script, OrderDetails);
    forall i: nat | StoppedAt(|orders|, p, script, OrderDetails, i) ensures i == stop {
      FirstStopIs(script, OrderDetails, i);
    }
    if !StoppedAt(|orders|, p, script, OrderDetails, stop) {
      CoverTheList(|orders|, p);
    }
  }

  lemma CoverTheList(total: nat, p: nat)
    requires p > 0
    ensures Least(Covered(Least(MAX_PAGES, total / p + 1), p), total) == Least(Covered(MAX_PAGES, p), total)
  {
    hide Covered;
    var pages := total / p + 1;
    Division(total, p);
    OnePageMore(total / p, p);
    if pages <= MAX_PAGES {
      CoveredMonotone(pages, MAX_PAGES, p);
    }
  }

  /**
   Exactly when the order-details loop loses products or ends in an error. Products are lost, without an error, if and
   only if an order beyond the 100 pages has one, or the reply that ends the loop has no list, and no errors either,
   and a later order has one.
   */
  lemma DetailsOutcomeIff<P>(orders: seq<Option<P>>, p: nat, script: seq<Reply>)
    requires p > 0
    ensures var r := DetailsOutcome(orders, p, script);
            && ((r.Fetched? && r.records != Products(orders)) <==>
                 if exists i: nat :: StoppedAt(|orders|, p, script, OrderDetails, i)
                 then exists i: nat, j :: StoppedAt(|orders|, p, script, OrderDetails, i) && EndsQuietly(script[i])
                                     && Covered(i, p) <= j < |orders| && orders[j].Some?
                 else exists j :: Covered(MAX_PAGES, p) <= j < |orders| && orders[j].Some?)
            && (r == QueryFailed <==>
                 exists i: nat :: StoppedAt(|orders|, p, script, OrderDetails, i) && script[i].GraphErrors?)
            && (forall code :: r == RequestFailed(code) <==>
                                 exists i: nat :: StoppedAt(|orders|, p, script, OrderDetails, i)
                                   && script[i] == HttpError(code))
            && r != PageLimit && r != UnexpectedFormat
  {
    hide Covered, ServedBy, FirstStop, Products;
    var stop := FirstStop(script, OrderDetails);
    forall i | StoppedAt(|orders|, p, script, OrderDetails, i) ensures i == stop {
      FirstStopIs(script, OrderDetails, i);
    }
    AllServed(script, stop);
    if StoppedAt(|orders|, p, script, OrderDetails, stop) {
      CutLoses(orders, Covered(stop, p));
    } else {
      CutLoses(orders, Least(Covered(MAX_PAGES, p), |orders|));
    }
  }

  /**
   The products of all orders: nothing is retried, and the page limit truncates silently. For every list and every
   script of replies the outcome is exactly DetailsOutcome.
   */
  method FetchOrderDetails<P>(orders: seq<Option<P>>, requestedSize: Option<nat>, requestedDelay: Option<nat>,
                              script: seq<Reply>)
    returns (r: Fetch<P>, adaptiveDelay: real)
    ensures 25.0 <= adaptiveDelay <= MostReal(PageDelay(requestedDelay), 1000.0)
    ensures r == DetailsOutcome(orders, PageSize(requestedSize), script)
    ensures exists k :: adaptiveDelay == DelayAfter(OrderDetails, PageDelay(requestedDelay), script, k)
    ensures (forall i :: 0 <= i < |script| ==> script[i].Served?) ==>
              && r.Fetched?
              && r.records == Products(orders[..Least(Covered(100, PageSize(requestedSize)), |orders|)])
    ensures r.Fetched? ==>
              var full := FullPages(|orders|, PageSize(requestedSize), script, r.pages);
              && 0 <= full <= MAX_PAGES
              && r.records == Products(orders[..Least(Covered(full, PageSize(requestedSize)), |orders|)])
  {
    hide Covered, Page, PageSize, PageDelay, OrderDelay, Products, ServedBy, FirstStop, DelayAfter, MostReal;
    var pageSize := PageSize(requestedSize);
    adaptiveDelay := PageDelay(requestedDelay);
    var all: seq<P> := [];
    NoProducts(orders);
    var offset, pageCount, hasMorePages := 0, 0, true;
    var requests := 0;
    ghost var stop, lists := FirstStop(script, OrderDetails), 0;
    FirstPage(pageSize);
    NothingServed(script);
    ghost var waits := 0;
    NoReplyYet(OrderDetails, adaptiveDelay, script);
    while hasMorePages && pageCount < MAX_PAGES
      invariant pageCount <= MAX_PAGES && offset == Covered(pageCount, pageSize)
      invariant 25.0 <= adaptiveDelay <= MostReal(PageDelay(requestedDelay), 1000.0)
      invariant adaptiveDelay == DelayAfter(OrderDetails, PageDelay(requestedDelay), script, waits)
      invariant hasMorePages ==> waits == requests
      invariant all == Products(orders[..Least(Covered(lists, pageSize), |orders|)])
      invariant hasMorePages ==> Ongoing(|orders|, pageSize, script, stop, requests, pageCount) && lists == pageCount
      invariant !hasMorePages ==>
                  || (PastEnd(|orders|, pageSize, script, stop, requests, pageCount) && lists == pageCount)
                  || (StoppedAt(|orders|, pageSize, script, OrderDetails, stop) && EndsQuietly(script[stop])
                      && lists == ServedBy(script, stop)
                      && pageCount == lists + if script[stop].NullList? then 1 else 0)
      decreases MAX_PAGES - pageCount, if hasMorePages then 1 else 0
    {
      var reply := ReplyAt(script, requests);
      OneReplyMore(script, requests);
      OneDelayMore(OrderDetails, PageDelay(requestedDelay), script, requests);
      NextReply(script, OrderDetails, requests);
      requests := requests + 1;
      match reply {
        case Served(ms) =>
          var page := Page(orders, pageSize, offset);
          NextPrefix(orders, pageSize, offset);
          ProductsAppend(orders[..Least(offset, |orders|)], page);
          all := PushProducts(all, page);
          OnePageMore(pageCount, pageSize);
          offset := offset + pageSize;
          pageCount, lists := pageCount + 1, lists + 1;
          hasMorePages := |page| == pageSize;
          adaptiveDelay := OrderDelay(adaptiveDelay, ms);
          waits := waits + 1;
        case GraphErrors =>
          return QueryFailed, adaptiveDelay;
        case Malformed =>
          hasMorePages := false;
        case NullList(ms) =>
          // counted as an empty page
          OnePageMore(pageCount, pageSize);
          offset := offset + pageSize;
          pageCount := pageCount + 1;
          hasMorePages := false;
          adaptiveDelay := OrderDelay(adaptiveDelay, ms);
          waits := waits + 1;
        case HttpError(code) =>
          return RequestFailed(code), adaptiveDelay;
      }
    }
    if hasMorePages || PastEnd(|orders|, pageSize, script, stop, requests, pageCount) {
      NotStopped(|orders|, pageSize, script, OrderDetails, requests);
      if hasMorePages {
        NotYetLastPage(|orders|, pageSize, pageCount);
      } else {
        LastPage(|orders|, pageSize, pageCount);
      }
    }
    CoveredMonotone(pageCount, MAX_PAGES, pageSize);
    DetailsPages(orders, pageSize, script);
    return Fetched(all, pageCount), adaptiveDelay;
  }

  // ---------------------------------------------------------------- FAQs: no page limit

  const FAQ_LIMIT: nat := 100

  /** The records held after so many rounds; a null list leaves its page out. */
  function FaqsAfter<T>(records: seq<T>, script: seq<Reply>, rounds: nat): seq<T> {
    if rounds == 0 then []
    else
      FaqsAfter(records, script, rounds - 1)
      + if ReplyAt(script, rounds - 1).Served? then Page(records, FAQ_LIMIT, FAQ_LIMIT * (rounds - 1)) else []
  }

  /** The loop's test after a round, against the total the server claims. */
  predicate FaqsGoOn<T>(records: seq<T>, claimed: nat, script: seq<Reply>, rounds: nat) {
    0 < |FaqsAfter(records, script, rounds)| < claimed
  }

  /** The loop is over after so many rounds: the last reply raised an error, or the test failed. */
  predicate FaqsOver<T>(records: seq<T>, claimed: nat, script: seq<Reply>, rounds: nat) {
    rounds > 0 && (!Passes(ReplyAt(script, rounds - 1), Faqs) || !FaqsGoOn(records, claimed, script, rounds))
  }

  predicate NoNullList(script: seq<Reply>, rounds: nat) {
    forall i :: 0 <= i < rounds && i < |script| ==> script[i].Served?
  }

  /** Without null lists the records held are a prefix. */
  lemma {:induction false} FaqsArePrefix<T>(records: seq<T>, script: seq<Reply>, rounds: nat)
    requires NoNullList(script, rounds)
    ensures FaqsAfter(records, script, rounds) == records[..Least(FAQ_LIMIT * rounds, |records|)]
  {
    if rounds > 0 {
      FaqsArePrefix(records, script, rounds - 1);
      NextPrefix(records, FAQ_LIMIT, FAQ_LIMIT * (rounds - 1));
    }
  }

  lemma {:induction false} FaqsGrow<T>(records: seq<T>, script: seq<Reply>, few: nat, many: nat)
    requires few <= many
    ensures FaqsAfter(records, script, few) <= FaqsAfter(records, script, many)
    ensures few > |records| ==> FaqsAfter(records, script, few) == FaqsAfter(records, script, many)
    decreases many
  {
    if few < many {
      FaqsGrow(records, script, few, many - 1);
    }
  }

  /** All that the loop can ever hold. */
  function AllFaqs<T>(records: seq<T>, script: seq<Reply>): seq<T> {
    FaqsAfter(records, script, |records| + 1)
  }

  /** The condition under which the loop ends: nothing comes first, enough comes in the end, or an error comes. */
  predicate FaqsCanEnd<T>(records: seq<T>, claimed: nat, script: seq<Reply>) {
    || records == []
    || (script != [] && script[0].NullList?)
    || claimed <= |AllFaqs(records, script)|
    || !AllPass(script, Faqs)
  }

  lemma FirstFaqs<T>(records: seq<T>, script: seq<Reply>)
    ensures FaqsAfter(records, script, 0) == []
    ensures FaqsAfter(records, script, 1) == [] <==> records == [] || !ReplyAt(script, 0).Served?
  {
    assert FaqsAfter(records, script, 0) == [];
  }

  /** The loop ends exactly under that condition. */
  lemma FaqsEndIff<T>(records: seq<T>, claimed: nat, script: seq<Reply>)
    ensures (exists rounds: nat :: FaqsOver(records, claimed, script, rounds)) <==> FaqsCanEnd(records, claimed, script)
  {
    hide FaqsAfter;
    FirstFaqs(records, script);
    if i :| 0 <= i < |script| && !Passes(script[i], Faqs) {
      assert FaqsOver(records, claimed, script, i + 1);
    } else if claimed <= |AllFaqs(records, script)| {
      assert FaqsOver(records, claimed, script, |records| + 1);
    } else if FaqsAfter(records, script, 1) == [] {
      assert FaqsOver(records, claimed, script, 1);
    } else {
      forall rounds: nat | rounds > 0 ensures !FaqsOver(records, claimed, script, rounds) {
        FaqsGrow(records, script, 1, rounds);
        if rounds <= |records| {
          FaqsGrow(records, script, rounds, |records| + 1);
        } else {
          FaqsGrow(records, script, |records| + 1, rounds);
        }
      }
    }
  }

  /** Without null lists that is so when the server claims no more than it serves, or serves nothing. */
  lemma HonestFaqsEnd<T>(records: seq<T>, claimed: nat, script: seq<Reply>)
    requires AllPass(script, OrderDetails)
    ensures FaqsCanEnd(records, claimed, script) <==> records == [] || claimed <= |records|
  {
    FaqsArePrefix(records, script, |records| + 1);
  }

  lemma {:induction false} LostPage<T>(records: seq<T>, script: seq<Reply>, i: nat, rounds: nat)
    ensures |FaqsAfter(records, script, rounds)| <= Least(FAQ_LIMIT * rounds, |records|)
    ensures i < rounds && !ReplyAt(script, i).Served? ==>
              |FaqsAfter(records, script, rounds)| + |Page(records, FAQ_LIMIT, FAQ_LIMIT * i)|
              <= Least(FAQ_LIMIT * rounds, |records|)
  {
    if rounds > 0 {
      LostPage(records, script, i, rounds - 1);
    }
  }

  /** With an honest total, a null list in the place of any page but the first makes the loop run forever. */
  lemma NullListHangs<T>(records: seq<T>, script: seq<Reply>)
    requires records != [] && AllPass(script, Faqs) && ReplyAt(script, 0).Served?
    ensures FaqsCanEnd(records, |records|, script) <==> NoNullList(script, PagesFor(|records|, 100))
  {
    var pages := PagesFor(|records|, FAQ_LIMIT);
    if NoNullList(script, pages) {
      FaqsArePrefix(records, script, pages);
      FaqsGrow(records, script, pages, |records| + 1);
    } else {
      var i :| 0 <= i < pages && i < |script| && !script[i].Served?;
      LostPage(records, script, i, |records| + 1);
      NextPrefix(records, FAQ_LIMIT, FAQ_LIMIT * i);
    }
  }

  lemma OneRoundMore<T>(records: seq<T>, script: seq<Reply>, rounds: nat)
    ensures FaqsAfter(records, script, rounds + 1)
         == FaqsAfter(records, script, rounds)
            + if ReplyAt(script, rounds).Served? then Page(records, FAQ_LIMIT, FAQ_LIMIT * rounds) else []
  {
  }

  /** A loop that can end and is not over yet has not come far. */
  lemma FaqsBound<T>(records: seq<T>, claimed: nat, script: seq<Reply>, rounds: nat)
    requires FaqsCanEnd(records, claimed, script)
    requires forall k :: 0 < k <= rounds ==> !FaqsOver(records, claimed, script, k)
    requires Before(script, FirstStop(script, Faqs), rounds)
    ensures rounds <= |records| + |script|
  {
    hide FaqsAfter, FirstStop, Passes;
    if rounds > |records| + |script| {
      assert !FaqsOver(records, claimed, script, rounds) && !FaqsOver(records, claimed, script, 1);
      FaqsGrow(records, script, |records| + 1, rounds);
      if !AllPass(script, Faqs) {
        StopIsThere(script, Faqs);
      } else if claimed > |AllFaqs(records, script)| {
        FirstFaqs(records, script);
      }
    }
  }

  lemma StopIsThere(script: seq<Reply>, loop: Loop)
    requires !AllPass(script, loop)
    ensures FirstStop(script, loop) < |script|
  {
    assert script[..|script|] == script;
  }

  /**
   The FAQs, whenever the loop ends (FaqsEndIff). A request error, GraphQL errors and a reply without data raise; a
   null list loses its page without an error. With pages only and an honest total every FAQ is returned, in order; a
   smaller claim cuts the list at a page boundary.
   */
  method FetchFaqs<T>(records: seq<T>, claimed: nat, script: seq<Reply>) returns (r: Fetch<T>, rounds: nat)
    requires FaqsCanEnd(records, claimed, script)
    ensures FaqsOver(records, claimed, script, rounds)
    ensures forall k :: 0 < k < rounds ==> !FaqsOver(records, claimed, script, k)
    ensures match ReplyAt(script, rounds - 1) {
              case HttpError(code) => r == RequestFailed(code)
              case GraphErrors => r == QueryFailed
              case Malformed => r == UnexpectedFormat
              case _ => r == Fetched(FaqsAfter(records, script, rounds), rounds)
            }
    ensures r.Fetched? && NoNullList(script, rounds) ==>
              && r.records <= records && Least(claimed, |records|) <= |r.records|
              && (claimed == |records| ==> r.records == records)
  {
    hide Page, FaqsAfter, FirstStop, FaqsCanEnd;
    var all: seq<T> := [];
    rounds := 0;
    FirstFaqs(records, script);
    var currentOffset, hasMoreData := 0, true;
    ghost var stop := FirstStop(script, Faqs);
    while hasMoreData
      invariant all == FaqsAfter(records, script, rounds)
      invariant hasMoreData ==> currentOffset == FAQ_LIMIT * rounds
      invariant hasMoreData <==> !FaqsOver(records, claimed, script, rounds)
      invariant rounds > 0 ==> Passes(ReplyAt(script, rounds - 1), Faqs)
      invariant Before(script, stop, rounds)
      invariant forall k :: 0 < k < rounds ==> !FaqsOver(records, claimed, script, k)
      decreases hasMoreData, |records| + |script| + 1 - rounds
    {
      FaqsBound(records, claimed, script, rounds);
      var reply := ReplyAt(script, rounds);
      NextReply(script, Faqs, rounds);
      OneRoundMore(records, script, rounds);
      rounds := rounds + 1;
      if reply.HttpError? {
        return RequestFailed(reply.code), rounds;
      }
      if reply.GraphErrors? {
        return QueryFailed, rounds;
      }
      if reply.Malformed? {
        return UnexpectedFormat, rounds;
      }
      if reply.Served? {
        all := all + Page(records, FAQ_LIMIT, currentOffset);
      }
      hasMoreData := 0 < |all| < claimed;
      if hasMoreData {
        currentOffset := currentOffset + FAQ_LIMIT;
      }
    }
    if NoNullList(script, rounds) {
      FaqsArePrefix(records, script, rounds);
    }
    return Fetched(all, rounds), rounds;
  }
}
