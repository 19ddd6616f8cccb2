/** The records the exporter reads, reduced to the fields its logic consumes,
    and the values that stand for the network: responses, and the log of
    requests made. */
module Issues {

  datatype Option<+T> = None | Some(value: T)

  /** A response of either endpoint: a parsed body, or the failure message that
      the exporter raises as an exception. */
  datatype Response<+T> = Ok(value: T) | Err(message: string)

  datatype Label = Label(name: string)

  /** A comment: the comments endpoint's records, of which only `id` and `body`
      are read. */
  datatype Comment = Comment(id: int, body: string)

  /** The creation instant, already resolved to a calendar day. */
  datatype Date = Date(year: nat, month: nat, day: nat)

  /** `comments` is the count the server reports (absent when null);
      `commentsList` is attached by enrichment and absent otherwise. */
  datatype Issue = Issue(
    title: string,
    body: string,
    createdAt: Date,
    number: int,
    comments: Option<int>,
    labels: seq<Label>,
    commentsList: Option<seq<Comment>>)

  /** One network round trip: a page of the issue list, or the comments of one issue. */
  datatype Request = PageRequest(page: nat) | CommentsRequest(issueNumber: int)

  /** A computation's result together with the requests it made, in order. */
  datatype Trace<+T> = Trace(result: Response<T>, log: seq<Request>)

  /** The list endpoint, as a function from page number to response. */
  type PageOracle = nat -> Response<seq<Issue>>

  /** The comments endpoint, as a function from issue number to response. */
  type CommentOracle = int -> Response<seq<Comment>>

  /** A file the writer produces: its path and its whole content. */
  datatype PostFile = PostFile(path: string, content: string)

  /** Whether the request got a successful response. */
  predicate Answered(req: Request, pages: PageOracle, comments: CommentOracle)
  {
    match req
    case PageRequest(p) => pages(p).Ok?
    case CommentsRequest(n) => comments(n).Ok?
  }

  /** Whether the request failed with message `m`. */
  predicate FailedWith(req: Request, pages: PageOracle, comments: CommentOracle, m: string)
  {
    match req
    case PageRequest(p) => pages(p) == Err(m)
    case CommentsRequest(n) => comments(n) == Err(m)
  }

  /** Fail-fast shape of a trace: a success saw only successful responses; a
      failure carries the message of the last request, which is the first and
      only one that failed. */
  predicate FailFast<T>(t: Trace<T>, pages: PageOracle, comments: CommentOracle)
  {
    match t.result
    case Ok(_) =>
      forall i | 0 <= i < |t.log| :: Answered(t.log[i], pages, comments)
    case Err(m) =>
      && |t.log| > 0
      && FailedWith(t.log[|t.log| - 1], pages, comments, m)
      && forall i | 0 <= i < |t.log| - 1 :: Answered(t.log[i], pages, comments)
  }
}
