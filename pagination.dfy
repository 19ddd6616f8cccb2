/** `fetchAllIssues` (parser/IssueParser.kt:74-100): request pages 1, 2, 3, …
    of the issue list, enrich every page, and stop right after the first page
    that comes back empty. */
module Pagination {
  import opened Issues
  import opened Enrichment

  /** Page `b` ends the walk by itself: its pass of the loop body fails (the
      page request or one of its comments requests) or yields an empty page. */
  predicate Stops(pages: PageOracle, comments: CommentOracle, b: nat)
  {
    var f := FetchPage(pages(b), comments, b);
    f.result.Err? || f.result.value == []
  }

  /** One pass of the loop body: request page `p`; on success parse it and
      enrich it; a failed response raises its message. */
  function FetchPage(response: Response<seq<Issue>>, comments: CommentOracle, p: nat)
    : (t: Trace<seq<Issue>>)
    ensures |t.log| >= 1 && t.log[0] == PageRequest(p)
    ensures forall i | 1 <= i < |t.log| :: t.log[i].CommentsRequest?
    ensures t.result.Ok? ==> response.Ok? && |t.result.value| == |response.value|
  {
    match response
    case Err(m) => Trace(Err(m), [PageRequest(p)])
    case Ok(items) =>
      var e := EnrichPage(items, comments);
      Trace(e.result, [PageRequest(p)] + e.log)
  }

  /** The pages `sumResponses` receives from page `p` on, and the requests made
      for them. `bound` is any page that stops the walk; it only serves the
      termination argument. */
  function FetchFrom(pages: PageOracle, comments: CommentOracle, p: nat, bound: nat)
    : Trace<seq<seq<Issue>>>
    requires 1 <= p <= bound && Stops(pages, comments, bound)
    decreases bound - p
  {
    var f := FetchPage(pages(p), comments, p);
    match f.result
    case Err(m) => Trace(Err(m), f.log)
    case Ok(page) =>
      if page == [] then Trace(Ok([page]), f.log)
      else
        var rest := FetchFrom(pages, comments, p + 1, bound);
        Trace(Prepend([page], rest.result), f.log + rest.log)
  }

  function Prepend<T>(done: seq<T>, r: Response<seq<T>>): Response<seq<T>>
  {
    match r
    case Ok(more) => Ok(done + more)
    case Err(m) => Err(m)
  }

  /** `flatten`: the pages one after the other. */
  function Flatten<T>(pages: seq<seq<T>>): (r: seq<T>)
  {
    if pages == [] then [] else Flatten(pages[..|pages| - 1]) + pages[|pages| - 1]
  }

  function ResultFlattened<T>(r: Response<seq<seq<T>>>): Response<seq<T>>
  {
    match r
    case Ok(sum) => Ok(Flatten(sum))
    case Err(m) => Err(m)
  }

  /** The page numbers requested, in request order. */
  function PageNumbers(log: seq<Request>): seq<nat>
  {
    if log == [] then []
    else PageNumbers(log[..|log| - 1])
         + match log[|log| - 1] case PageRequest(p) => [p] case CommentsRequest(_) => []
  }

  /** The number of issues on pages `from` … `from + count - 1`. */
  function TotalSize(pages: PageOracle, from: nat, count: nat): nat
    requires forall i | from <= i < from + count :: pages(i).Ok?
  {
    if count == 0 then 0
    else TotalSize(pages, from, count - 1) + |pages(from + count - 1).value|
  }

  /** The loop: the next page number is always the number of pages received
      plus one, and the loop goes on while the last page received is not empty.
      A failed page or comments request ends the walk with its message and no
      issues. */
  method FetchAllIssues(pages: PageOracle, comments: CommentOracle, ghost bound: nat)
    returns (r: Response<seq<Issue>>, log: seq<Request>)
    requires 1 <= bound && Stops(pages, comments, bound)
    ensures var t := FetchFrom(pages, comments, 1, bound);
      log == t.log && r == ResultFlattened(t.result)
  {
    ghost var spec := FetchFrom(pages, comments, 1, bound);
    var sumResponses: seq<seq<Issue>> := [];
    log := [];
    var more := true;
    PrependNothing(spec);
    while more
      invariant Walking(pages, comments, bound, spec, sumResponses, log, more)
      decreases bound - |sumResponses|
    {
      var nextPage := |sumResponses| + 1;
      LoopStep(pages, comments, bound, spec, sumResponses, log);
      var f := FetchPage(pages(nextPage), comments, nextPage);
      log := log + f.log;
      match f.result
      case Err(m) =>
        return Err(m), log;
      case Ok(pageItems) =>
        sumResponses := sumResponses + [pageItems];
        more := sumResponses[|sumResponses| - 1] != [];
    }
    r := Ok(Flatten(sumResponses));
  }

  /** The loop invariant: while pages remain, the walk is the pages received so
      far followed by the walk from the next page; once the loop stops, the
      pages received are the whole walk. */
  predicate Walking(pages: PageOracle, comments: CommentOracle, bound: nat,
                    spec: Trace<seq<seq<Issue>>>, sum: seq<seq<Issue>>, log: seq<Request>, more: bool)
    requires 1 <= bound && Stops(pages, comments, bound)
  {
    && |sum| <= bound
    && (more ==>
          && |sum| < bound
          && var rest := FetchFrom(pages, comments, |sum| + 1, bound);
             spec == Trace(Prepend(sum, rest.result), log + rest.log))
    && (!more ==> spec == Trace(Ok(sum), log))
  }

  lemma PrependNothing<T>(t: Trace<seq<T>>)
    ensures t == Trace(Prepend([], t.result), [] + t.log)
  {
    match t.result {
      case Ok(v) => assert [] + v == v;
      case Err(_) =>
    }
    assert [] + t.log == t.log;
  }

  /** One pass of the loop body moves page |sum| + 1 from the pending walk
      into the accumulator, or ends the walk with that page's failure. */
  lemma LoopStep(pages: PageOracle, comments: CommentOracle, bound: nat,
                 spec: Trace<seq<seq<Issue>>>, sum: seq<seq<Issue>>, log: seq<Request>)
    requires 1 <= bound && Stops(pages, comments, bound)
    requires Walking(pages, comments, bound, spec, sum, log, true)
    ensures var f := FetchPage(pages(|sum| + 1), comments, |sum| + 1);
      && (f.result.Err? ==> spec == Trace(Err(f.result.message), log + f.log))
      && (f.result.Ok? ==>
            Walking(pages, comments, bound, spec, sum + [f.result.value], log + f.log, f.result.value != []))
  {
    var p := |sum| + 1;
    var f := FetchPage(pages(p), comments, p);
    FetchFromUnfold(pages, comments, p, bound);
    if f.result.Ok? {
      if f.result.value != [] {
        PrependAfter(sum, log, f, FetchFrom(pages, comments, p + 1, bound));
      } else {
        PrependAfter(sum, log, f, Trace(Ok([]), []));
      }
    }
  }

  /** One step of FetchFrom, in the terms of the loop body. */
  lemma FetchFromUnfold(pages: PageOracle, comments: CommentOracle, p: nat, bound: nat)
    requires 1 <= p <= bound && Stops(pages, comments, bound)
    ensures var f := FetchPage(pages(p), comments, p);
      var t := FetchFrom(pages, comments, p, bound);
      && (f.result.Err? ==> t == Trace(Err(f.result.message), f.log))
      && (f.result.Ok? && f.result.value == [] ==> t == Trace(Ok([[]]), f.log))
      && (f.result.Ok? && f.result.value != [] ==>
            p < bound &&
            var rest := FetchFrom(pages, comments, p + 1, bound);
            t == Trace(Prepend([f.result.value], rest.result), f.log + rest.log))
  {
  }

  /** The walk does not depend on which stopping page serves as `bound`. */
  lemma {:induction false} BoundIrrelevant(pages: PageOracle, comments: CommentOracle, p: nat, b1: nat, b2: nat)
    requires 1 <= p <= b1 && Stops(pages, comments, b1)
    requires 1 <= p <= b2 && Stops(pages, comments, b2)
    ensures FetchFrom(pages, comments, p, b1) == FetchFrom(pages, comments, p, b2)
    decreases b1 - p
  {
    var f := FetchPage(pages(p), comments, p);
    FetchFromUnfold(pages, comments, p, b1);
    FetchFromUnfold(pages, comments, p, b2);
    if f.result.Ok? && f.result.value != [] {
      BoundIrrelevant(pages, comments, p + 1, b1, b2);
    }
  }

  /** A failed or empty page stops the walk. */
  lemma PageStops(pages: PageOracle, comments: CommentOracle, b: nat)
    requires pages(b).Err? || pages(b).value == []
    ensures Stops(pages, comments, b)
  {
    if pages(b).Ok? {
      assert EnrichPage([], comments) == Trace(Ok([]), []);
    }
  }

  /** So does a page on which an issue that reports comments cannot get them. */
  lemma CommentsFailureStops(pages: PageOracle, comments: CommentOracle, b: nat, i: nat)
    requires pages(b).Ok? && i < |pages(b).value|
    requires NeedsComments(pages(b).value[i]) && comments(pages(b).value[i].number).Err?
    ensures Stops(pages, comments, b)
  {
    EnrichPageRule(pages(b).value, comments);
  }

  /** The walk from p succeeds iff page p is fetched and enriched and, when
      it is not empty, the walk from p + 1 succeeds. */
  lemma FetchFromSucceeds(pages: PageOracle, comments: CommentOracle, p: nat, bound: nat)
    requires 1 <= p <= bound && Stops(pages, comments, bound)
    ensures var f := FetchPage(pages(p), comments, p);
      FetchFrom(pages, comments, p, bound).result.Ok? <==>
        && f.result.Ok?
        && (f.result.value != [] ==> p < bound && FetchFrom(pages, comments, p + 1, bound).result.Ok?)
  {
    var f := FetchPage(pages(p), comments, p);
    FetchFromUnfold(pages, comments, p, bound);
    if f.result.Ok? && f.result.value != [] {
      var rest := FetchFrom(pages, comments, p + 1, bound);
      assert FetchFrom(pages, comments, p, bound).result == Prepend([f.result.value], rest.result);
    }
  }

  /** Moving one received page from the pending walk into the accumulator. */
  lemma PrependAfter(sum: seq<seq<Issue>>, log: seq<Request>,
                     f: Trace<seq<Issue>>, rest: Trace<seq<seq<Issue>>>)
    requires f.result.Ok?
    ensures Trace(Prepend(sum, Prepend([f.result.value], rest.result)), log + (f.log + rest.log))
         == Trace(Prepend(sum + [f.result.value], rest.result), (log + f.log) + rest.log)
    ensures Prepend(sum, Ok([f.result.value])) == Ok(sum + [f.result.value])
  {
    match rest.result {
      case Ok(v) =>
        assert sum + ([f.result.value] + v) == (sum + [f.result.value]) + v;
      case Err(_) =>
    }
  }

  lemma {:induction false} PageNumbersAppend(a: seq<Request>, b: seq<Request>)
    ensures PageNumbers(a + b) == PageNumbers(a) + PageNumbers(b)
    decreases |b|
  {
    if b == [] {
      assert a + b == a;
    } else {
      assert (a + b)[..|a + b| - 1] == a + b[..|b| - 1];
      PageNumbersAppend(a, b[..|b| - 1]);
    }
  }

  lemma {:induction false} CommentsOnlyHaveNoPageNumbers(log: seq<Request>)
    requires forall i | 0 <= i < |log| :: log[i].CommentsRequest?
    ensures PageNumbers(log) == []
  {
    if log != [] {
      CommentsOnlyHaveNoPageNumbers(log[..|log| - 1]);
    }
  }

  /** The page requests of walk `t` from page p: p, p + 1, p + 2, … in this
      order, never beyond page `bound`, and — on success — one for every page
      received. */
  predicate RequestedInOrder(t: Trace<seq<seq<Issue>>>, p: nat, bound: nat)
  {
    var numbers := PageNumbers(t.log);
    && 1 <= |numbers| <= bound - p + 1
    && (forall i | 0 <= i < |numbers| :: numbers[i] == p + i)
    && (t.result.Ok? ==> |numbers| == |t.result.value|)
  }

  /** Pages are requested as p, p + 1, p + 2, … in this order, never beyond the
      stopping page, and — on success — once for every page received. */
  lemma {:induction false} PageOrder(pages: PageOracle, comments: CommentOracle, p: nat, bound: nat)
    requires 1 <= p <= bound && Stops(pages, comments, bound)
    ensures RequestedInOrder(FetchFrom(pages, comments, p, bound), p, bound)
    decreases bound - p
  {
    var t := FetchFrom(pages, comments, p, bound);
    var f := FetchPage(pages(p), comments, p);
    FetchFromUnfold(pages, comments, p, bound);
    FetchPageNumbers(pages(p), comments, p);
    if f.result.Ok? && f.result.value != [] {
      var rest := FetchFrom(pages, comments, p + 1, bound);
      PageOrder(pages, comments, p + 1, bound);
      OrderStep(t, f.log, rest, [f.result.value], p, bound);
    } else {
      OrderLast(t, p, bound);
    }
  }

  lemma OrderStep(t: Trace<seq<seq<Issue>>>, first: seq<Request>, rest: Trace<seq<seq<Issue>>>,
                  done: seq<seq<Issue>>, p: nat, bound: nat)
    requires RequestedInOrder(rest, p + 1, bound) && PageNumbers(first) == [p] && |done| == 1
    requires t == Trace(Prepend(done, rest.result), first + rest.log)
    ensures RequestedInOrder(t, p, bound)
  {
    PageNumbersAppend(first, rest.log);
    var numbers, later := PageNumbers(t.log), PageNumbers(rest.log);
    assert numbers == [p] + later;
    forall i | 0 <= i < |numbers| ensures numbers[i] == p + i {
      if i > 0 { assert numbers[i] == later[i - 1]; }
    }
  }

  lemma OrderLast(t: Trace<seq<seq<Issue>>>, p: nat, bound: nat)
    requires p <= bound && PageNumbers(t.log) == [p]
    requires t.result.Ok? ==> t.result.value == [[]]
    ensures RequestedInOrder(t, p, bound)
  {
  }

  /** One pass of the loop body requests exactly one page, namely page p. */
  lemma FetchPageNumbers(response: Response<seq<Issue>>, comments: CommentOracle, p: nat)
    ensures PageNumbers(FetchPage(response, comments, p).log) == [p]
  {
    var log := FetchPage(response, comments, p).log;
    var first := [PageRequest(p)];
    assert PageNumbers(first) == [p] by {
      assert first[..0] == [];
    }
    assert log == first + log[1..];
    CommentsOnlyHaveNoPageNumbers(log[1..]);
    PageNumbersAppend(first, log[1..]);
  }

  /** Shape of a successful walk from page p: at least one page was received,
      the last one is empty and the others are not. */
  lemma {:induction false} SuccessShape(pages: PageOracle, comments: CommentOracle, p: nat, bound: nat)
    requires 1 <= p <= bound && Stops(pages, comments, bound)
    requires FetchFrom(pages, comments, p, bound).result.Ok?
    ensures var sum := FetchFrom(pages, comments, p, bound).result.value;
      && |sum| >= 1
      && sum[|sum| - 1] == []
      && (forall i | 0 <= i < |sum| - 1 :: sum[i] != [])
    decreases bound - p
  {
    var page := EnrichPage(pages(p).value, comments).result.value;
    var sum := FetchFrom(pages, comments, p, bound).result.value;
    if page != [] {
      SuccessShape(pages, comments, p + 1, bound);
      var rest := FetchFrom(pages, comments, p + 1, bound).result.value;
      assert sum == [page] + rest;
      forall i | 1 <= i < |sum| - 1 ensures sum[i] != [] {
        assert sum[i] == rest[i - 1];
      }
    }
  }

  /** Every page a successful walk received was requested and answered, and
      its entry is that page enriched, so of the same size. */
  lemma SuccessPages(pages: PageOracle, comments: CommentOracle, p: nat, bound: nat)
    requires 1 <= p <= bound && Stops(pages, comments, bound)
    requires FetchFrom(pages, comments, p, bound).result.Ok?
    ensures var sum := FetchFrom(pages, comments, p, bound).result.value;
      forall q | p <= q < p + |sum| ::
        && pages(q).Ok?
        && EnrichPage(pages(q).value, comments).result == Ok(sum[q - p])
        && |sum[q - p]| == |pages(q).value|
  {
    var sum := FetchFrom(pages, comments, p, bound).result.value;
    forall q | p <= q < p + |sum|
      ensures pages(q).Ok? && EnrichPage(pages(q).value, comments).result == Ok(sum[q - p])
    {
      SuccessPageAt(pages, comments, p, bound, q);
    }
  }

  /** Page q is answered and entry q - p of `sum` is that page enriched. */
  predicate EnrichedAt(pages: PageOracle, comments: CommentOracle, sum: seq<seq<Issue>>, p: nat, q: nat)
  {
    && p <= q < p + |sum|
    && pages(q).Ok?
    && EnrichPage(pages(q).value, comments).result == Ok(sum[q - p])
  }

  lemma {:induction false} SuccessPageAt(pages: PageOracle, comments: CommentOracle, p: nat, bound: nat, q: nat)
    requires 1 <= p <= bound && Stops(pages, comments, bound)
    requires FetchFrom(pages, comments, p, bound).result.Ok?
    requires p <= q < p + |FetchFrom(pages, comments, p, bound).result.value|
    ensures EnrichedAt(pages, comments, FetchFrom(pages, comments, p, bound).result.value, p, q)
    decreases q - p
  {
    FetchFromOk(pages, comments, p, bound);
    var sum := FetchFrom(pages, comments, p, bound).result.value;
    if q > p {
      var rest := FetchFrom(pages, comments, p + 1, bound).result.value;
      SuccessPageAt(pages, comments, p + 1, bound, q);
      EnrichedLater(pages, comments, sum, rest, p, q);
    } else {
      assert EnrichedAt(pages, comments, sum, p, p);
    }
  }

  lemma EnrichedLater(pages: PageOracle, comments: CommentOracle,
                      sum: seq<seq<Issue>>, rest: seq<seq<Issue>>, p: nat, q: nat)
    requires EnrichedAt(pages, comments, rest, p + 1, q)
    requires |sum| >= 1 && sum == [sum[0]] + rest
    ensures EnrichedAt(pages, comments, sum, p, q)
  {
    assert sum[q - p] == rest[q - (p + 1)];
  }

  /** A successful walk from p: page p was answered, its enriched
      version comes first, and the walk goes on exactly when it is not empty. */
  lemma FetchFromOk(pages: PageOracle, comments: CommentOracle, p: nat, bound: nat)
    requires 1 <= p <= bound && Stops(pages, comments, bound)
    requires FetchFrom(pages, comments, p, bound).result.Ok?
    ensures var sum := FetchFrom(pages, comments, p, bound).result.value;
      && pages(p).Ok? && |sum| >= 1
      && EnrichPage(pages(p).value, comments).result == Ok(sum[0])
      && (sum[0] == [] ==> |sum| == 1)
      && (sum[0] != [] ==>
            && p < bound
            && FetchFrom(pages, comments, p + 1, bound).result.Ok?
            && sum == [sum[0]] + FetchFrom(pages, comments, p + 1, bound).result.value)
  {
  }

  /** The result holds as many issues as the pages received, in total. */
  lemma ResultLength(pages: PageOracle, comments: CommentOracle, p: nat, bound: nat)
    requires 1 <= p <= bound && Stops(pages, comments, bound)
    requires FetchFrom(pages, comments, p, bound).result.Ok?
    ensures var sum := FetchFrom(pages, comments, p, bound).result.value;
      && (forall q | p <= q < p + |sum| :: pages(q).Ok?)
      && |Flatten(sum)| == TotalSize(pages, p, |sum|)
  {
    var sum := FetchFrom(pages, comments, p, bound).result.value;
    SuccessPages(pages, comments, p, bound);
    PrefixLength(pages, p, sum);
  }

  lemma {:induction false} PrefixLength(pages: PageOracle, p: nat, sum: seq<seq<Issue>>)
    requires forall q | p <= q < p + |sum| :: pages(q).Ok? && |sum[q - p]| == |pages(q).value|
    ensures |Flatten(sum)| == TotalSize(pages, p, |sum|)
    decreases |sum|
  {
    if sum != [] {
      var n := |sum| - 1;
      assert pages(p + n).Ok? && |sum[n]| == |pages(p + n).value|;
      PrefixLength(pages, p, sum[..n]);
    }
  }

  /** Fail-fast: a failed page or comments request is the last request made,
      and its message is the walk's error; a successful walk saw only
      successful responses. */
  lemma {:induction false} FetchFailFast(pages: PageOracle, comments: CommentOracle, p: nat, bound: nat)
    requires 1 <= p <= bound && Stops(pages, comments, bound)
    ensures FailFast(FetchFrom(pages, comments, p, bound), pages, comments)
    decreases bound - p
  {
    var t := FetchFrom(pages, comments, p, bound);
    var f := FetchPage(pages(p), comments, p);
    FetchPageFailFast(pages, comments, p);
    FetchFromUnfold(pages, comments, p, bound);
    if f.result.Ok? && f.result.value != [] {
      var rest := FetchFrom(pages, comments, p + 1, bound);
      FetchFailFast(pages, comments, p + 1, bound);
      AppendFailFast(f.log, rest, t, pages, comments);
    } else {
      AppendFailFast([], f, t, pages, comments);
    }
  }

  /** One pass of the loop body fails fast. */
  lemma FetchPageFailFast(pages: PageOracle, comments: CommentOracle, p: nat)
    ensures FailFast(FetchPage(pages(p), comments, p), pages, comments)
  {
    var f := FetchPage(pages(p), comments, p);
    if pages(p).Ok? {
      var items := pages(p).value;
      var e := EnrichPage(items, comments);
      EnrichPageFailFast(items, pages, comments);
      assert Answered(PageRequest(p), pages, comments);
      AppendFailFast([PageRequest(p)], e, f, pages, comments);
    }
  }

  lemma AppendFailFast<T, U>(done: seq<Request>, rest: Trace<T>, t: Trace<U>,
                             pages: PageOracle, comments: CommentOracle)
    requires forall i | 0 <= i < |done| :: Answered(done[i], pages, comments)
    requires FailFast(rest, pages, comments)
    requires t.log == done + rest.log && t.result.Ok? == rest.result.Ok?
    requires t.result.Err? ==> t.result.message == rest.result.message
    ensures FailFast(t, pages, comments)
  {
    forall i | 0 <= i < |t.log| && (t.result.Ok? || i < |t.log| - 1)
      ensures Answered(t.log[i], pages, comments)
    {
      if i >= |done| { assert t.log[i] == rest.log[i - |done|]; }
    }
    if t.result.Err? {
      assert t.log[|t.log| - 1] == rest.log[|rest.log| - 1];
    }
  }

  /** A server that returns n non-empty pages of any sizes, then an empty one,
      and answers every comments request: the walk succeeds with n + 1 page
      requests, and the issues returned number as many as the n pages hold. */
  lemma ScriptedServer(pages: PageOracle, comments: CommentOracle, n: nat)
    requires forall i | 1 <= i <= n :: pages(i).Ok? && pages(i).value != []
    requires pages(n + 1) == Ok([])
    requires forall k :: comments(k).Ok?
    ensures var t := FetchFrom(pages, comments, 1, n + 1);
      && t.result.Ok?
      && PageNumbers(t.log) == seq(n + 1, i => i + 1)
      && |Flatten(t.result.value)| == TotalSize(pages, 1, n)
  {
    ScriptedFrom(pages, comments, 1, n);
    ScriptedPageCount(pages, comments, n);
    var t := FetchFrom(pages, comments, 1, n + 1);
    PageOrder(pages, comments, 1, n + 1);
    var numbers := PageNumbers(t.log);
    assert |numbers| == n + 1;
    assert numbers == seq(n + 1, i => i + 1);
    ResultLength(pages, comments, 1, n + 1);
    assert TotalSize(pages, 1, n + 1) == TotalSize(pages, 1, n) + |pages(n + 1).value|;
  }

  /** The scripted walk receives exactly n + 1 pages. */
  lemma ScriptedPageCount(pages: PageOracle, comments: CommentOracle, n: nat)
    requires forall i | 1 <= i <= n :: pages(i).Ok? && pages(i).value != []
    requires pages(n + 1) == Ok([])
    requires FetchFrom(pages, comments, 1, n + 1).result.Ok?
    ensures |FetchFrom(pages, comments, 1, n + 1).result.value| == n + 1
  {
    var t := FetchFrom(pages, comments, 1, n + 1);
    SuccessShape(pages, comments, 1, n + 1);
    SuccessPages(pages, comments, 1, n + 1);
    PageOrder(pages, comments, 1, n + 1);
    var k := |t.result.value|;
    assert |t.result.value[k - 1]| == |pages(k).value|;
    assert pages(k).value == [];
  }

  lemma {:induction false} ScriptedFrom(pages: PageOracle, comments: CommentOracle, p: nat, n: nat)
    requires 1 <= p <= n + 1
    requires forall i | 1 <= i <= n :: pages(i).Ok? && pages(i).value != []
    requires pages(n + 1) == Ok([])
    requires forall k :: comments(k).Ok?
    ensures FetchFrom(pages, comments, p, n + 1).result.Ok?
    decreases n + 1 - p
  {
    if p <= n {
      ScriptedFrom(pages, comments, p + 1, n);
    }
    ScriptedStep(pages, comments, p, n);
  }

  lemma ScriptedStep(pages: PageOracle, comments: CommentOracle, p: nat, n: nat)
    requires 1 <= p <= n + 1
    requires forall i | 1 <= i <= n :: pages(i).Ok? && pages(i).value != []
    requires pages(n + 1) == Ok([])
    requires forall k :: comments(k).Ok?
    requires p <= n ==> FetchFrom(pages, comments, p + 1, n + 1).result.Ok?
    ensures FetchFrom(pages, comments, p, n + 1).result.Ok?
  {
    var f := FetchPage(pages(p), comments, p);
    EnrichPageRule(pages(p).value, comments);
    assert f.result.Ok?;
    FetchFromSucceeds(pages, comments, p, n + 1);
  }

}
