/** `main` (parser/IssueParser.kt:13-16): fetch every issue with its
    comments, then write one post per issue. Writing starts only after the
    whole fetch has succeeded. */
module Exporter {
  import opened Issues
  import opened Pagination
  import opened Rendering

  /** The post written for each issue, in order. */
  function Posts(issues: seq<Issue>): (files: seq<PostFile>)
    ensures |files| == |issues|
    ensures forall i | 0 <= i < |issues| ::
      files[i].path == PostPath(issues[i].createdAt, issues[i].number)
  {
    seq(|issues|, i requires 0 <= i < |issues| => PostOf(issues[i]))
  }

  /** A failed page or comments request ends the run with that response's
      message and no posts; otherwise every fetched issue, in fetch order,
      becomes its post. */
  method Export(pages: PageOracle, comments: CommentOracle, ghost bound: nat)
    returns (r: Response<seq<PostFile>>, log: seq<Request>)
    requires 1 <= bound && Stops(pages, comments, bound)
    ensures var t := FetchFrom(pages, comments, 1, bound);
      && log == t.log
      && r.Ok? == t.result.Ok?
      && (r.Ok? ==> r.value == Posts(Flatten(t.result.value)))
    ensures r.Err? ==> |log| > 0 && FailedWith(log[|log| - 1], pages, comments, r.message)
    ensures r.Ok? ==> forall i | 0 <= i < |log| :: Answered(log[i], pages, comments)
  {
    var fetched;
    fetched, log := FetchAllIssues(pages, comments, bound);
    FetchFailFast(pages, comments, 1, bound);
    match fetched
    case Err(m) =>
      r := Err(m);
    case Ok(issues) =>
      var files := WriteFormattedIssues(issues);
      r := Ok(files);
  }
}
