/** Comment enrichment: `fetchComments` and the `map`/`copy` that attaches
    comments to every issue of a page that reports some
    (parser/IssueParser.kt:86-91, 102-114). */
module Enrichment {
  import opened Issues

  /** `issue.comments ?: 0 > 0`: Kotlin's elvis binds tighter than `>`, so a
      null count reads as 0, and only a positive count asks for comments. */
  predicate NeedsComments(issue: Issue)
  {
    (match issue.comments case None => 0 case Some(c) => c) > 0
  }

  /** The fields the renderer and the path builder read, other than `commentsList`. */
  predicate SameShownFields(a: Issue, b: Issue)
  {
    && a.title == b.title
    && a.body == b.body
    && a.createdAt == b.createdAt
    && a.number == b.number
    && a.comments == b.comments
    && a.labels == b.labels
  }

  /** `fetchComments`: one unpaginated request for the issue's comments; a
      failed response raises its message. */
  function FetchComments(issueNumber: int, comments: CommentOracle): (t: Trace<seq<Comment>>)
    ensures t.log == [CommentsRequest(issueNumber)]
    ensures t.result.Ok? == comments(issueNumber).Ok?
    ensures t.result.Err? ==> t.result.message == comments(issueNumber).message
    ensures t.result.Ok? ==> t.result.value == comments(issueNumber).value
  {
    Trace(comments(issueNumber), [CommentsRequest(issueNumber)])
  }

  /** The lambda of the `map`: an issue that reports comments is copied with
      its fetched comments attached; any other issue passes through as it is. */
  function EnrichIssue(issue: Issue, comments: CommentOracle): (t: Trace<Issue>)
    ensures !NeedsComments(issue) ==> t == Trace(Ok(issue), [])
    ensures NeedsComments(issue) ==> t.log == [CommentsRequest(issue.number)]
    ensures t.result.Ok? <==> !NeedsComments(issue) || comments(issue.number).Ok?
    ensures t.result.Err? ==> t.result.message == comments(issue.number).message
    ensures t.result.Ok? ==> SameShownFields(t.result.value, issue)
    ensures t.result.Ok? && NeedsComments(issue) ==>
              t.result.value.commentsList == Some(comments(issue.number).value)
  {
    if NeedsComments(issue) then
      var c := FetchComments(issue.number, comments);
      match c.result
      case Ok(cs) => Trace(Ok(issue.(commentsList := Some(cs))), c.log)
      case Err(m) => Trace(Err(m), c.log)
    else
      Trace(Ok(issue), [])
  }

  /** The comments requests a page's enrichment makes when all of them succeed:
      one per issue that reports comments, in page order. */
  function NeededRequests(items: seq<Issue>): seq<Request>
  {
    if items == [] then []
    else
      (if NeedsComments(items[0]) then [CommentsRequest(items[0].number)] else [])
      + NeededRequests(items[1..])
  }

  /** The `map` over a page: issues are enriched in order, and the first failed
      comments request aborts the whole page. */
  function EnrichPage(items: seq<Issue>, comments: CommentOracle): (t: Trace<seq<Issue>>)
    ensures t.result.Ok? ==> |t.result.value| == |items|
    ensures t.result.Ok? ==>
              forall i | 0 <= i < |items| ::
                EnrichIssue(items[i], comments).result == Ok(t.result.value[i])
    ensures forall i | 0 <= i < |t.log| :: t.log[i].CommentsRequest?
  {
    if items == [] then Trace(Ok([]), [])
    else
      var head := EnrichIssue(items[0], comments);
      match head.result
      case Err(m) => Trace(Err(m), head.log)
      case Ok(issue) =>
        var rest := EnrichPage(items[1..], comments);
        var log := head.log + rest.log;
        match rest.result
        case Err(m) => Trace(Err(m), log)
        case Ok(issues) => Trace(Ok([issue] + issues), log)
  }

  /** A page is enriched iff every issue that reports comments gets them; then
      every issue keeps its shown fields, and only those that report comments
      get a comments list, namely the fetched one. */
  lemma {:induction false} EnrichPageRule(items: seq<Issue>, comments: CommentOracle)
    ensures var t := EnrichPage(items, comments);
      && (t.result.Ok? <==>
            forall i | 0 <= i < |items| ::
              NeedsComments(items[i]) ==> comments(items[i].number).Ok?)
      && (t.result.Ok? ==>
            forall i | 0 <= i < |items| ::
              && SameShownFields(t.result.value[i], items[i])
              && t.result.value[i].commentsList ==
                   if NeedsComments(items[i]) then Some(comments(items[i].number).value)
                   else items[i].commentsList)
  {
    if items != [] {
      EnrichPageRule(items[1..], comments);
      var t := EnrichPage(items, comments);
      if !t.result.Ok? {
        var head := EnrichIssue(items[0], comments);
        if head.result.Ok? {
          var rest := EnrichPage(items[1..], comments);
          var j :| 0 <= j < |items[1..]| &&
                   NeedsComments(items[1..][j]) && !comments(items[1..][j].number).Ok?;
          assert items[1..][j] == items[j + 1];
        }
      } else {
        forall i | 0 <= i < |items|
          ensures NeedsComments(items[i]) ==> comments(items[i].number).Ok?
        {
          assert EnrichIssue(items[i], comments).result.Ok?;
        }
      }
    }
  }

  /** Parsed issues carry no comments list (the field is transient); after
      enrichment an issue has one exactly when it reports comments. */
  lemma CommentsAttachedIffReported(items: seq<Issue>, comments: CommentOracle)
    requires forall i | 0 <= i < |items| :: items[i].commentsList.None?
    requires EnrichPage(items, comments).result.Ok?
    ensures var enriched := EnrichPage(items, comments).result.value;
      forall i | 0 <= i < |enriched| ::
        enriched[i].commentsList.Some? <==> NeedsComments(items[i])
  {
    EnrichPageRule(items, comments);
  }

  /** Exactly one comments request for each issue that reports comments, none
      for the others, in page order; a failed enrichment has made a prefix of
      those requests. */
  lemma {:induction false} EnrichPageRequests(items: seq<Issue>, comments: CommentOracle)
    ensures var t := EnrichPage(items, comments);
      && (t.result.Ok? ==> t.log == NeededRequests(items))
      && t.log <= NeededRequests(items)
  {
    if items != [] {
      var head := EnrichIssue(items[0], comments);
      var rest := EnrichPage(items[1..], comments);
      var mine := if NeedsComments(items[0]) then [CommentsRequest(items[0].number)] else [];
      assert head.log == mine;
      assert NeededRequests(items) == mine + NeededRequests(items[1..]);
      if head.result.Ok? {
        EnrichPageRequests(items[1..], comments);
        PrefixAfter(mine, rest.log, NeededRequests(items[1..]));
      } else {
        PrefixAfter(mine, [], NeededRequests(items[1..]));
      }
    }
  }

  lemma PrefixAfter<T>(h: seq<T>, a: seq<T>, b: seq<T>)
    requires a <= b
    ensures h + a <= h + b
  {
    assert (h + b)[..|h + a|] == h + a;
  }

  /** A failed comments request aborts the page with its message, and no
      request follows it. */
  lemma {:induction false} EnrichPageFailFast(items: seq<Issue>, pages: PageOracle, comments: CommentOracle)
    ensures FailFast(EnrichPage(items, comments), pages, comments)
  {
    if items != [] {
      EnrichPageFailFast(items[1..], pages, comments);
      var head := EnrichIssue(items[0], comments);
      var rest := EnrichPage(items[1..], comments);
      var t := EnrichPage(items, comments);
      if head.result.Ok? {
        assert t.log == head.log + rest.log;
        forall i | 0 <= i < |head.log| ensures Answered(head.log[i], pages, comments) {
        }
      }
    }
  }
}
