/** The catalog harvester (`RetrieveProducts`): a cursor loop that asks the
    listing endpoint for page after page, each time "since" the identifier
    of the last product of the previous page, until the API stops
    answering, answers with an empty page, or answers with a page that
    ends where the previous one ended.

    The network is replaced by a finite sequence of responses: the k-th
    request of a run receives the k-th response. Past the end of the
    sequence every request fails as a transport error would. */
module Harvester {
  import opened Catalog

  /** What the body of a 200 response turns into. `Malformed` is a body
      the JSON decoder rejects: its error is ignored and the page is left
      empty. `Unreadable` is a body whose read fails, which is fatal. */
  datatype Body = Listing(products: Page) | Malformed | Unreadable

  /** One answer of the listing endpoint: the transport failed, or a reply
      with a status code arrived. */
  datatype Response = TransportError | Reply(status: int, body: Body)

  /** The query of one listing request: the first one carries no cursor,
      every later one carries `since_id`. The fixed page-size limit of 250
      is the same in both and is not represented. */
  datatype Request = ListFirst | ListSince(sinceId: int)

  /** The observable outcome of one harvest run: the requests sent, the
      page batches accumulated for the snapshot, and whether the process
      died on an unreadable body (in which case nothing is persisted). */
  datatype Run = Run(requests: seq<Request>, batches: seq<Page>, fatal: bool)

  /** The response the k-th request receives. */
  function Fetch(responses: seq<Response>, k: nat): Response
  {
    if k < |responses| then responses[k] else TransportError
  }

  /** The page the program holds after decoding a body: a malformed body
      decodes to no products at all. */
  function Decoded(body: Body): Page
  {
    match body
    case Listing(products) => products
    case _ => []
  }

  /** How the loop treats one response, given the cursor `lastId`. */
  datatype Verdict = Accept(page: Page) | EndOfData | Fatal

  function Judge(r: Response, lastId: int): Verdict
  {
    match r
    case TransportError => EndOfData
    case Reply(status, body) =>
      if status != 200 then EndOfData
      else if body.Unreadable? then Fatal
      else
        var page := Decoded(body);
        if |page| == 0 then EndOfData
        else if lastId != LastId(page) then Accept(page)
        else EndOfData
  }

  /** A response that ends the loop without error whatever the cursor is:
      a transport error, a non-200 status, or a 200 reply whose body
      decodes to no products. */
  predicate EndsQuietly(r: Response)
  {
    r.TransportError? || r.status != 200 || (!r.body.Unreadable? && Decoded(r.body) == [])
  }

  function RequestFor(isFirstFetch: bool, lastId: int): Request
  {
    if isFirstFetch then ListFirst else ListSince(lastId)
  }

  /** The reference definition of a run that starts with the given loop
      state and receives `responses` in order. */
  function HarvestFrom(responses: seq<Response>, isFirstFetch: bool, lastId: int): Run
    decreases |responses|
  {
    var request := RequestFor(isFirstFetch, lastId);
    if responses == [] then Run([request], [], false)
    else
      match Judge(responses[0], lastId)
      case EndOfData => Run([request], [], false)
      case Fatal => Run([request], [], true)
      case Accept(page) =>
        var rest := HarvestFrom(responses[1..], false, LastId(page));
        Run([request] + rest.requests, [page] + rest.batches, rest.fatal)
  }

  /** A whole run: the program starts with `isFirstFetch` set and the
      cursor at Go's zero value 0. */
  function Harvest(responses: seq<Response>): Run
  {
    HarvestFrom(responses, true, 0)
  }

  /** The cursor after the given batches were accepted, starting from
      `lastId`. */
  function CursorAfter(batches: seq<Page>, lastId: int): int
    requires forall k :: 0 <= k < |batches| ==> batches[k] != []
  {
    if batches == [] then lastId else LastId(batches[|batches| - 1])
  }

  /** One unfolding of `HarvestFrom` at the k-th response when the loop
      accepts it: the request, then the page, then the run from the next
      response on under the new cursor. */
  lemma HarvestAccepts(responses: seq<Response>, k: nat, isFirstFetch: bool, lastId: int, page: Page)
    requires Judge(Fetch(responses, k), lastId) == Accept(page)
    ensures k < |responses| && page != []
    ensures var rest := HarvestFrom(responses[k + 1..], false, LastId(page));
      HarvestFrom(responses[k..], isFirstFetch, lastId)
        == Run([RequestFor(isFirstFetch, lastId)] + rest.requests, [page] + rest.batches, rest.fatal)
  {
    assert responses[k..][1..] == responses[k + 1..];
  }

  /** One unfolding of `HarvestFrom` at the k-th response when the loop
      stops there: only the request, fatal exactly on an unreadable body. */
  lemma HarvestStops(responses: seq<Response>, k: nat, isFirstFetch: bool, lastId: int)
    requires k <= |responses| && !Judge(Fetch(responses, k), lastId).Accept?
    ensures HarvestFrom(responses[k..], isFirstFetch, lastId)
      == Run([RequestFor(isFirstFetch, lastId)], [], Judge(Fetch(responses, k), lastId).Fatal?)
  {
  }

  /** Bookkeeping for the loop when it stops at the response after the
      requests `sent`: the whole run is those requests plus the last one,
      with the batches accepted so far. */
  lemma StopHere(responses: seq<Response>, sent: seq<Request>, done: seq<Page>, before: Run,
                 isFirstFetch: bool, lastId: int)
    requires |sent| <= |responses| && !Judge(Fetch(responses, |sent|), lastId).Accept?
    requires before == HarvestFrom(responses[|sent|..], isFirstFetch, lastId)
    requires Harvest(responses) == Run(sent + before.requests, done + before.batches, before.fatal)
    ensures Harvest(responses)
      == Run(sent + [RequestFor(isFirstFetch, lastId)], done, Judge(Fetch(responses, |sent|), lastId).Fatal?)
  {
    HarvestStops(responses, |sent|, isFirstFetch, lastId);
    assert done + [] == done;
  }

  /** Bookkeeping for the loop: moving one accepted request and page from
      the part still to come onto the part already done. */
  lemma AcceptOne(whole: Run, requests: seq<Request>, storage: seq<Page>, ahead: Run,
                  request: Request, page: Page, rest: Run)
    requires whole == Run(requests + ahead.requests, storage + ahead.batches, ahead.fatal)
    requires ahead == Run([request] + rest.requests, [page] + rest.batches, rest.fatal)
    ensures whole == Run((requests + [request]) + rest.requests, (storage + [page]) + rest.batches, rest.fatal)
  {
    assert requests + ([request] + rest.requests) == (requests + [request]) + rest.requests;
    assert storage + ([page] + rest.batches) == (storage + [page]) + rest.batches;
  }

  /** A run sends exactly one more request than it accepts batches (the
      last request is the one whose answer stopped the loop), and never
      more requests than responses plus the one that finds the sequence
      exhausted. The first request is the one the starting state asks for. */
  lemma {:induction false} RunShape(responses: seq<Response>, isFirstFetch: bool, lastId: int)
    ensures var run := HarvestFrom(responses, isFirstFetch, lastId);
      |run.requests| == |run.batches| + 1 &&
      |run.requests| <= |responses| + 1 &&
      run.requests[0] == RequestFor(isFirstFetch, lastId)
    decreases |responses|
  {
    if responses != [] && Judge(responses[0], lastId).Accept? {
      RunShape(responses[1..], false, LastId(Judge(responses[0], lastId).page));
    }
  }

  /** The k-th accepted batch is exactly the non-empty page of the k-th
      response, which was a 200 reply: the snapshot is a prefix of the
      pages the API returned, in order, with nothing skipped. */
  lemma {:induction false} BatchesArePages(responses: seq<Response>, isFirstFetch: bool, lastId: int)
    ensures var run := HarvestFrom(responses, isFirstFetch, lastId);
      |run.batches| <= |responses| &&
      forall k :: 0 <= k < |run.batches| ==>
        responses[k].Reply? && responses[k].status == 200 &&
        run.batches[k] == Decoded(responses[k].body) && run.batches[k] != []
    decreases |responses|
  {
    if responses != [] && Judge(responses[0], lastId).Accept? {
      var page := Judge(responses[0], lastId).page;
      BatchesArePages(responses[1..], false, LastId(page));
      var run := HarvestFrom(responses, isFirstFetch, lastId);
      var rest := HarvestFrom(responses[1..], false, LastId(page));
      forall k | 0 <= k < |run.batches|
        ensures responses[k].Reply? && responses[k].status == 200
        ensures run.batches[k] == Decoded(responses[k].body) && run.batches[k] != []
      {
        if k > 0 {
          assert run.batches[k] == rest.batches[k - 1];
          assert responses[k] == responses[1..][k - 1];
        }
      }
    }
  }

  /** The cursor follows the batches: each later request asks for the
      products since the last identifier of the batch accepted just before
      it, the first batch does not end at the starting cursor, and two
      consecutive batches never end at the same identifier. Nothing more is
      enforced: in particular the last identifiers need not increase. */
  lemma {:induction false} CursorChain(responses: seq<Response>, isFirstFetch: bool, lastId: int)
    ensures var run := HarvestFrom(responses, isFirstFetch, lastId);
      |run.requests| == |run.batches| + 1 &&
      (forall k :: 0 <= k < |run.batches| ==> run.batches[k] != []) &&
      (forall k :: 0 <= k < |run.batches| ==> run.requests[k + 1] == ListSince(LastId(run.batches[k]))) &&
      (run.batches != [] ==> LastId(run.batches[0]) != lastId) &&
      (forall k :: 0 <= k < |run.batches| - 1 ==> LastId(run.batches[k]) != LastId(run.batches[k + 1]))
    decreases |responses|
  {
    RunShape(responses, isFirstFetch, lastId);
    BatchesArePages(responses, isFirstFetch, lastId);
    if responses != [] && Judge(responses[0], lastId).Accept? {
      var page := Judge(responses[0], lastId).page;
      CursorChain(responses[1..], false, LastId(page));
      RunShape(responses[1..], false, LastId(page));
      var run := HarvestFrom(responses, isFirstFetch, lastId);
      var rest := HarvestFrom(responses[1..], false, LastId(page));
      forall k | 0 <= k < |run.batches|
        ensures run.requests[k + 1] == ListSince(LastId(run.batches[k]))
      {
        if k > 0 {
          assert run.batches[k] == rest.batches[k - 1];
        }
      }
      forall k | 0 <= k < |run.batches| - 1
        ensures LastId(run.batches[k]) != LastId(run.batches[k + 1])
      {
        if k > 0 {
          assert run.batches[k] == rest.batches[k - 1];
        }
      }
    }
  }

  /** Why the run stopped: the response after the last accepted batch is
      one the loop does not accept under the cursor it then held, and the
      run is fatal exactly when that response was an unreadable body. */
  lemma {:induction false} StopReason(responses: seq<Response>, isFirstFetch: bool, lastId: int)
    ensures var run := HarvestFrom(responses, isFirstFetch, lastId);
      (forall k :: 0 <= k < |run.batches| ==> run.batches[k] != []) &&
      var verdict := Judge(Fetch(responses, |run.batches|), CursorAfter(run.batches, lastId));
      !verdict.Accept? && (run.fatal <==> verdict.Fatal?)
    decreases |responses|
  {
    BatchesArePages(responses, isFirstFetch, lastId);
    if responses != [] && Judge(responses[0], lastId).Accept? {
      var page := Judge(responses[0], lastId).page;
      StopReason(responses[1..], false, LastId(page));
      BatchesArePages(responses[1..], false, LastId(page));
      var run := HarvestFrom(responses, isFirstFetch, lastId);
      var rest := HarvestFrom(responses[1..], false, LastId(page));
      assert Fetch(responses, |run.batches|) == Fetch(responses[1..], |rest.batches|);
      if rest.batches != [] {
        assert run.batches[|run.batches| - 1] == rest.batches[|rest.batches| - 1];
      }
      assert CursorAfter(run.batches, lastId) == CursorAfter(rest.batches, LastId(page));
    }
  }

  /** A transport error, a non-200 status, or a 200 reply whose body decodes
      to no products (an empty listing or a malformed body) ends the run
      quietly: no batch from that response on is accepted, no further
      request is sent, and the run is not fatal when it stops there. */
  lemma QuietEnd(responses: seq<Response>, k: nat)
    requires EndsQuietly(Fetch(responses, k))
    ensures var run := Harvest(responses);
      |run.batches| <= k && |run.requests| <= k + 1 &&
      (|run.batches| == k ==> !run.fatal)
  {
    BatchesArePages(responses, true, 0);
    RunShape(responses, true, 0);
    StopReason(responses, true, 0);
  }

  /** An empty page, or a body that cannot be parsed, as the very first
      answer: the snapshot has no batches and the run completes normally. */
  lemma EmptyCatalog(responses: seq<Response>)
    requires responses != [] && responses[0].Reply? && responses[0].status == 200
    requires responses[0].body == Listing([]) || responses[0].body == Malformed
    ensures Harvest(responses) == Run([ListFirst], [], false)
  {
  }

  /** Stall detection: when the page that follows an accepted batch ends at
      the same identifier, it is not appended and the run stops there. */
  lemma StallIsDropped(responses: seq<Response>, k: nat, page: Page, again: Page)
    requires k + 1 < |responses|
    requires responses[k] == Reply(200, Listing(page)) && responses[k + 1] == Reply(200, Listing(again))
    requires page != [] && again != [] && LastId(again) == LastId(page)
    requires k < |Harvest(responses).batches|
    ensures |Harvest(responses).batches| == k + 1 && !Harvest(responses).fatal
  {
    BatchesArePages(responses, true, 0);
    CursorChain(responses, true, 0);
    StopReason(responses, true, 0);
    if k + 1 < |Harvest(responses).batches| {
      assert false;
    }
  }

  /** The cursor starts at 0, not at "no cursor": a first page whose last
      product has identifier 0 counts as a stall and is dropped. */
  lemma FirstPageEndingAtZero(responses: seq<Response>, page: Page)
    requires responses != [] && responses[0] == Reply(200, Listing(page))
    requires page != [] && LastId(page) == 0
    ensures Harvest(responses) == Run([ListFirst], [], false)
  {
  }

  /** Only inequality is enforced between consecutive cursors: pages ending
      at 5, then 3, then 5 again are all accepted, so the snapshot's last
      identifiers go down and a cursor value is used twice. */
  lemma CursorNeedNotIncrease()
    ensures var five, three := [Product(5, "a", 0)], [Product(3, "b", 0)];
      var responses := [Reply(200, Listing(five)), Reply(200, Listing(three)), Reply(200, Listing(five))];
      Harvest(responses)
        == Run([ListFirst, ListSince(5), ListSince(3), ListSince(5)], [five, three, five], false)
  {
    var five, three := [Product(5, "a", 0)], [Product(3, "b", 0)];
    var responses := [Reply(200, Listing(five)), Reply(200, Listing(three)), Reply(200, Listing(five))];
    assert responses[1..][1..][1..] == [];
    assert HarvestFrom(responses[1..][1..][1..], false, 5) == Run([ListSince(5)], [], false);
    assert HarvestFrom(responses[1..][1..], false, 3) == Run([ListSince(3), ListSince(5)], [five], false);
    assert HarvestFrom(responses[1..], false, 5) == Run([ListSince(5), ListSince(3), ListSince(5)], [three, five], false);
  }

  /** The 200 replies that deliver the given pages, in order. */
  function Replies(pages: seq<Page>): seq<Response>
  {
    seq(|pages|, k requires 0 <= k < |pages| => Reply(200, Listing(pages[k])))
  }

  /** Non-empty pages each of which ends at an identifier different from
      the end of the page before it (the first one: different from
      `lastId`). */
  predicate FreshEnds(pages: seq<Page>, lastId: int)
  {
    (forall k :: 0 <= k < |pages| ==> pages[k] != []) &&
    (pages != [] ==> LastId(pages[0]) != lastId) &&
    (forall k :: 0 < k < |pages| ==> LastId(pages[k]) != LastId(pages[k - 1]))
  }

  /** The loop has no bound of its own: every page that ends somewhere other
      than the page before it is accepted, however many such pages the
      endpoint delivers. Only the end of the responses stops such a run. */
  lemma {:induction false} FreshPagesAllAccepted(pages: seq<Page>, isFirstFetch: bool, lastId: int)
    requires FreshEnds(pages, lastId)
    ensures var run := HarvestFrom(Replies(pages), isFirstFetch, lastId);
      run.batches == pages && |run.requests| == |pages| + 1 && !run.fatal
    decreases |pages|
  {
    if pages != [] {
      assert Replies(pages)[1..] == Replies(pages[1..]);
      assert FreshEnds(pages[1..], LastId(pages[0]));
      FreshPagesAllAccepted(pages[1..], false, LastId(pages[0]));
    }
  }

  /** n pages ending at 5 and at 3 in turn. */
  function Alternating(n: nat): seq<Page>
  {
    seq(n, k => if k % 2 == 0 then [Product(5, "a", 0)] else [Product(3, "b", 0)])
  }

  /** An endpoint that keeps answering with pages ending at 5 and 3 in turn
      never trips the stall test: for every n, n such pages give n batches
      and n + 1 requests. Against an endpoint that cycles like this forever,
      the Go loop does not end. */
  lemma AlternatingNeverStalls(n: nat)
    ensures var run := Harvest(Replies(Alternating(n)));
      run.batches == Alternating(n) && |run.requests| == n + 1 && !run.fatal
  {
    var pages := Alternating(n);
    forall k | 0 < k < n
      ensures LastId(pages[k]) != LastId(pages[k - 1])
    {
      assert k % 2 == 0 <==> (k - 1) % 2 == 1;
    }
    FreshPagesAllAccepted(pages, true, 0);
  }

  /** The loop of `RetrieveProducts`, step by step: it sends one request
      per iteration, and stops on a failed or non-200 response, on an
      empty page, or on a page whose last identifier equals the cursor. */
  method RetrieveProducts(responses: seq<Response>)
    returns (requests: seq<Request>, storage: seq<Page>, fatal: bool)
    ensures Run(requests, storage, fatal) == Harvest(responses)
  {
    var isFirstFetch := true;
    var ongoing := true;
    var lastId := 0;
    requests, storage, fatal := [], [], false;
    ghost var rest := Harvest(responses);
    while ongoing
      invariant |requests| <= |responses| + 1
      invariant isFirstFetch <==> requests == []
      invariant ongoing ==> |requests| <= |responses| && !fatal
      invariant ongoing ==> rest == HarvestFrom(responses[|requests|..], isFirstFetch, lastId)
      invariant ongoing ==> Harvest(responses) == Run(requests + rest.requests, storage + rest.batches, rest.fatal)
      invariant !ongoing ==> Harvest(responses) == Run(requests, storage, fatal)
      decreases |responses| + 1 - |requests|, ongoing
    {
      ghost var wasFirst, cursor, before, sent, done := isFirstFetch, lastId, rest, requests, storage;
      var request;
      if isFirstFetch {
        request := ListFirst;
        isFirstFetch := false;
      } else {
        request := ListSince(lastId);
      }
      var response := Fetch(responses, |requests|);
      requests := requests + [request];
      if response.TransportError? || response.status != 200 {
        ongoing := false;
        StopHere(responses, sent, done, before, wasFirst, cursor);
      }
      if ongoing {
        if response.body.Unreadable? {
          fatal := true;
          ongoing := false;
          StopHere(responses, sent, done, before, wasFirst, cursor);
        } else {
          var page := Decoded(response.body);
          if |page| == 0 {
            ongoing := false;
            StopHere(responses, sent, done, before, wasFirst, cursor);
          } else if lastId != page[|page| - 1].id {
            lastId := page[|page| - 1].id;
            storage := storage + [page];
            rest := HarvestFrom(responses[|requests|..], false, lastId);
            assert Harvest(responses) == Run(requests + rest.requests, storage + rest.batches, rest.fatal) by {
              HarvestAccepts(responses, |sent|, wasFirst, cursor, page);
              AcceptOne(Harvest(responses), sent, done, before, request, page, rest);
            }
          } else {
            ongoing := false;
            StopHere(responses, sent, done, before, wasFirst, cursor);
          }
        }
      }
    }
  }
}
