/**
  `performOnAllObjects` from app/lib/s3.server.ts: list a bucket page by page, following
  continuation tokens, and hand every page to a callback before asking for the next one.

  The object store is a map from the continuation token of a request (`None` for the first
  request) to the page it answers with; a request whose token is not in the map is rejected,
  which makes the source's promise reject. The callback is recorded in an append-only log of
  the pages it was given, and the requests sent are recorded in a second log.
 */
module S3 {
  import opened Wrappers

  datatype S3Object = S3Object(key: Option<string>)

  datatype CommonPrefix = CommonPrefix(prefix: Option<string>)

  /** The parts of a `ListObjectsV2CommandOutput` the seeding jobs read. */
  datatype Page = Page(contents: Option<seq<S3Object>>,
                       commonPrefixes: Option<seq<CommonPrefix>>,
                       nextContinuationToken: Option<string>)

  /** A `ListObjectsV2Command` for the bucket: only fields that were given a value are present. */
  datatype ListRequest = ListRequest(continuationToken: Option<string>,
                                     delimiter: Option<string>,
                                     prefix: Option<string>)

  /** How the traversal ends: with the last response, or with the request the store rejected. */
  datatype Outcome = Done(response: Page) | Rejected(request: ListRequest)

  /** `...(x && { Field: x })`: an absent or empty string leaves the field out. */
  function Present(x: Option<string>): (r: Option<string>)
    ensures r.None? <==> x.None? || x == Some("")
    ensures r.Some? ==> r == x && r.value != ""
  {
    if x.Some? && x.value != "" then x else None
  }

  /** `response.NextContinuationToken` is truthy: there is another page to ask for. */
  predicate HasNext(page: Page)
  {
    page.nextContinuationToken.Some? && page.nextContinuationToken.value != ""
  }

  /** The request the traversal sends with continuation token `next`. */
  function Request(next: Option<string>, prefix: Option<string>, delimiter: Option<string>): (r: ListRequest)
    ensures r.continuationToken == Present(next)
    ensures r.delimiter == Present(delimiter) && r.prefix == Present(prefix)
  {
    ListRequest(Present(next), Present(delimiter), Present(prefix))
  }

  /** Starting from a request with token `token`, the traversal ends (a rejected request, or a
      page without a next token) after at most `n` further pages. */
  ghost predicate EndsWithin(listing: map<Option<string>, Page>, token: Option<string>, n: nat)
    decreases n
  {
    token !in listing
    || !HasNext(listing[token])
    || (n > 0 && EndsWithin(listing, listing[token].nextContinuationToken, n - 1))
  }

  /** The pages a traversal hands to the callback from the request with token `token` on, and
      whether it ends with a page without a next token (`completed`) or with a rejected request. */
  function PagesFrom(listing: map<Option<string>, Page>, token: Option<string>, n: nat): Run<Page>
    requires EndsWithin(listing, token, n)
    decreases n
  {
    if token !in listing then Run([], false)
    else if !HasNext(listing[token]) then Run([listing[token]], true)
    else
      var rest := PagesFrom(listing, listing[token].nextContinuationToken, n - 1);
      Run([listing[token]] + rest.out, rest.completed)
  }

  /** The bound on the number of pages does not change what the traversal does. */
  lemma {:induction false} PagesFromFuel(listing: map<Option<string>, Page>, token: Option<string>, m: nat, n: nat)
    requires EndsWithin(listing, token, m) && EndsWithin(listing, token, n)
    decreases m
    ensures PagesFrom(listing, token, m) == PagesFrom(listing, token, n)
  {
    if token in listing && HasNext(listing[token]) {
      PagesFromFuel(listing, listing[token].nextContinuationToken, m - 1, n - 1);
    }
  }

  /** The pages a whole traversal of the listing hands to the callback, in order, and whether
      it completed: the first request has no token, and every later one carries the previous
      page's next token. */
  ghost function Traversal(listing: map<Option<string>, Page>): (r: Run<Page>)
    requires exists n: nat :: EndsWithin(listing, None, n)
    ensures forall n: nat :: EndsWithin(listing, None, n) ==> r == PagesFrom(listing, None, n)
  {
    var m: nat :| EndsWithin(listing, None, m);
    assert forall n: nat :: EndsWithin(listing, None, n) ==> PagesFrom(listing, None, m) == PagesFrom(listing, None, n) by {
      forall n: nat | EndsWithin(listing, None, n)
        ensures PagesFrom(listing, None, m) == PagesFrom(listing, None, n)
      {
        PagesFromFuel(listing, None, m, n);
      }
    }
    PagesFrom(listing, None, m)
  }

  /** What the two logs of a traversal say: the first request has no token, every later one
      carries the previous page's next token, each page answers its request, and the traversal
      stops at the first page without a next token or at the first rejected request. */
  ghost predicate Logged(listing: map<Option<string>, Page>, outcome: Outcome, requests: seq<ListRequest>, calls: seq<Page>)
  {
    && |requests| >= 1 && |requests| - 1 <= |calls| <= |requests|
    && requests[0].continuationToken.None?
    && (forall k :: 0 <= k < |requests| - 1 ==>
          HasNext(calls[k]) && requests[k + 1].continuationToken == calls[k].nextContinuationToken)
    && (forall k :: 0 <= k < |calls| ==>
          requests[k].continuationToken in listing && calls[k] == listing[requests[k].continuationToken])
    && (outcome.Done? ==> |calls| == |requests| && !HasNext(calls[|calls| - 1]))
    && (outcome.Rejected? ==> |calls| == |requests| - 1 && requests[|requests| - 1].continuationToken !in listing)
  }

  /** From the `i`-th request on, the logs are the traversal from that request's token. */
  lemma {:induction false} LoggedFrom(listing: map<Option<string>, Page>, outcome: Outcome,
                                      requests: seq<ListRequest>, calls: seq<Page>, i: nat, n: nat)
    requires Logged(listing, outcome, requests, calls)
    requires i < |requests| && EndsWithin(listing, requests[i].continuationToken, n)
    decreases |requests| - i
    ensures Run(calls[i..], outcome.Done?) == PagesFrom(listing, requests[i].continuationToken, n)
  {
    var token := requests[i].continuationToken;
    if i == |requests| - 1 {
      if outcome.Done? {
        assert calls[i..] == [calls[i]];
      } else {
        assert calls[i..] == [];
      }
    } else {
      assert token in listing && HasNext(listing[token]);
      LoggedFrom(listing, outcome, requests, calls, i + 1, n - 1);
      assert calls[i..] == [calls[i]] + calls[i + 1..];
    }
  }

  /** Logs with these properties are exactly the traversal of the listing. */
  lemma LogIsTraversal(listing: map<Option<string>, Page>, outcome: Outcome, requests: seq<ListRequest>, calls: seq<Page>)
    requires exists n: nat :: EndsWithin(listing, None, n)
    requires Logged(listing, outcome, requests, calls)
    ensures Run(calls, outcome.Done?) == Traversal(listing)
  {
    var n: nat :| EndsWithin(listing, None, n);
    LoggedFrom(listing, outcome, requests, calls, 0, n);
    assert calls[0..] == calls;
  }

  /** `performOnAllObjects(callback, { prefix, delimiter })`. `requests` is every request sent and
      `calls` every page the callback received, in order. The first request has no token; every
      later one carries the previous page's `NextContinuationToken` with the same prefix and
      delimiter; each page is the store's answer to its request; every page but the last has a
      next token; the traversal returns the first page without one, or fails at the first
      request the store rejects, before any callback for it. */
  method PerformOnAllObjects(listing: map<Option<string>, Page>, prefix: Option<string>, delimiter: Option<string>)
      returns (outcome: Outcome, requests: seq<ListRequest>, calls: seq<Page>)
    requires exists n: nat :: EndsWithin(listing, None, n)
    ensures Run(calls, outcome.Done?) == Traversal(listing)
    ensures |requests| >= 1 && |requests| - 1 <= |calls| <= |requests|
    ensures requests[0].continuationToken.None?
    ensures forall k :: 0 <= k < |requests| ==>
              requests[k].prefix == Present(prefix) && requests[k].delimiter == Present(delimiter)
    ensures forall k :: 0 <= k < |requests| - 1 ==>
              HasNext(calls[k]) && requests[k + 1].continuationToken == calls[k].nextContinuationToken
    ensures forall k :: 0 <= k < |calls| ==>
              requests[k].continuationToken in listing && calls[k] == listing[requests[k].continuationToken]
    ensures outcome.Done? ==>
              && |calls| == |requests|
              && calls[|calls| - 1] == outcome.response
              && !HasNext(outcome.response)
    ensures outcome.Rejected? ==>
              && |calls| == |requests| - 1
              && outcome.request == requests[|requests| - 1]
              && outcome.request.continuationToken !in listing
  {
    requests, calls := [], [];
    var next: Option<string> := None;
    ghost var fuel: nat :| EndsWithin(listing, None, fuel);
    while true
      invariant |requests| == |calls|
      invariant EndsWithin(listing, Present(next), fuel)
      invariant |requests| == 0 ==> next.None?
      invariant |requests| > 0 ==>
                  HasNext(calls[|calls| - 1]) && next == calls[|calls| - 1].nextContinuationToken
      invariant |requests| > 0 ==> requests[0].continuationToken.None?
      invariant forall k :: 0 <= k < |requests| ==>
                  requests[k].prefix == Present(prefix) && requests[k].delimiter == Present(delimiter)
      invariant forall k :: 0 <= k < |requests| - 1 ==>
                  HasNext(calls[k]) && requests[k + 1].continuationToken == calls[k].nextContinuationToken
      invariant forall k :: 0 <= k < |calls| ==>
                  requests[k].continuationToken in listing && calls[k] == listing[requests[k].continuationToken]
      decreases fuel
    {
      var request := Request(next, prefix, delimiter);
      assert |requests| > 0 ==> request.continuationToken == next;
      ghost var before := requests;
      requests := requests + [request];
      forall k | 0 <= k < |requests| - 1
        ensures HasNext(calls[k]) && requests[k + 1].continuationToken == calls[k].nextContinuationToken
      {
        if k < |calls| - 1 {
          assert requests[k + 1] == before[k + 1];
        }
      }
      if request.continuationToken !in listing {
        LogIsTraversal(listing, Rejected(request), requests, calls);
        return Rejected(request), requests, calls;
      }
      var response := listing[request.continuationToken];
      if !HasNext(response) {
        calls := calls + [response];
        LogIsTraversal(listing, Done(response), requests, calls);
        return Done(response), requests, calls;
      }
      calls := calls + [response];
      next := response.nextContinuationToken;
      fuel := fuel - 1;
    }
  }
}
