/** `writeFormattedIssuesOnDisk` (parser/IssueParser.kt:26-55): every issue
    becomes a front-matter document at a path built from its creation day and
    number. The file system is left out: the writer yields (path, content)
    pairs. */
module Rendering {
  import opened Issues
  import opened Decimal

  /** What `appendLine` calls leave in a `StringBuilder`: every line followed by '\n'. */
  function Unlines(lines: seq<string>): string
  {
    if lines == [] then []
    else Unlines(lines[..|lines| - 1]) + lines[|lines| - 1] + "\n"
  }

  lemma UnlinesSnoc(lines: seq<string>, line: string)
    ensures Unlines(lines + [line]) == Unlines(lines) + line + "\n"
  {
    assert (lines + [line])[..|lines|] == lines;
  }

  lemma {:induction false} UnlinesAppend(a: seq<string>, b: seq<string>)
    ensures Unlines(a + b) == Unlines(a) + Unlines(b)
    decreases |b|
  {
    if b == [] {
      assert a + b == a;
    } else {
      var last := b[|b| - 1];
      assert a + b == (a + b[..|b| - 1]) + [last];
      UnlinesSnoc(a + b[..|b| - 1], last);
      UnlinesAppend(a, b[..|b| - 1]);
      UnlinesSnoc(b[..|b| - 1], last);
      assert b == b[..|b| - 1] + [last];
    }
  }

  /** `labels.joinToString(", ") { it.name!! }`: the names in label order,
      separated by ", ". */
  function JoinNames(labels: seq<Label>): string
  {
    if labels == [] then ""
    else if |labels| == 1 then labels[0].name
    else JoinNames(labels[..|labels| - 1]) + ", " + labels[|labels| - 1].name
  }

  /** Joining splits at any boundary: the two joined halves with one separator between. */
  lemma {:induction false} JoinNamesAppend(a: seq<Label>, b: seq<Label>)
    requires a != [] && b != []
    ensures JoinNames(a + b) == JoinNames(a) + ", " + JoinNames(b)
    decreases |b|
  {
    var ab := a + b;
    var init, last := b[..|b| - 1], b[|b| - 1];
    assert ab[..|ab| - 1] == a + init;
    assert ab[|ab| - 1] == last;
    assert JoinNames(ab) == JoinNames(a + init) + ", " + last.name;
    if |b| == 1 {
      assert a + init == a;
      assert JoinNames(b) == last.name;
    } else {
      JoinNamesAppend(a, init);
      assert JoinNames(b) == JoinNames(init) + ", " + last.name;
    }
  }

  /** Separators add two characters between consecutive names. */
  lemma {:induction false} JoinNamesLength(labels: seq<Label>)
    requires labels != []
    ensures |JoinNames(labels)| == NameLengths(labels) + 2 * (|labels| - 1)
  {
    if |labels| > 1 {
      JoinNamesLength(labels[..|labels| - 1]);
    }
  }

  function NameLengths(labels: seq<Label>): nat
  {
    if labels == [] then 0 else NameLengths(labels[..|labels| - 1]) + |labels[|labels| - 1].name|
  }

  /** The tags line, with `joinToString`'s prefix "[" and postfix "]". */
  function TagsLine(labels: seq<Label>): string
  {
    "tags: [" + JoinNames(labels) + "]"
  }

  lemma TagsLineExample()
    ensures TagsLine([Label("bug")]) == "tags: [bug]"
    ensures TagsLine([Label("bug"), Label("ui")]) == "tags: [bug, ui]"
  {
    assert [Label("bug"), Label("ui")][..1] == [Label("bug")];
  }

  /** The front matter: the fixed lines, the title, the tags line only when
      there are labels, the closing "---" and two empty lines. */
  function HeaderLines(issue: Issue): seq<string>
  {
    ["---", "layout: post", "title: " + issue.title]
    + (if issue.labels != [] then [TagsLine(issue.labels)] else [])
    + ["---", "", ""]
  }

  function Marker(id: int): string
  {
    "<!-- comment #" + IntToDecimal(id) + " -->"
  }

  /** Per comment, in list order, its marker line and then its body. */
  function CommentLines(cs: seq<Comment>): (lines: seq<string>)
    ensures |lines| == 2 * |cs|
  {
    if cs == [] then []
    else CommentLines(cs[..|cs| - 1]) + [Marker(cs[|cs| - 1].id), cs[|cs| - 1].body]
  }

  /** `commentsList?.takeIf { it.isNotEmpty() }`: an absent list emits as an empty one. */
  function CommentsOf(issue: Issue): seq<Comment>
  {
    match issue.commentsList
    case None => []
    case Some(cs) => cs
  }

  /** The lines the `buildString` block appends, in order. */
  function DocumentLines(issue: Issue): seq<string>
  {
    HeaderLines(issue) + [issue.body] + CommentLines(CommentsOf(issue))
  }

  /** The front matter part of the `buildString` block. */
  method RenderFrontMatter(issue: Issue) returns (doc: string, ghost lines: seq<string>)
    ensures lines == HeaderLines(issue) && doc == Unlines(lines)
  {
    doc, lines := AppendLine("", [], "---");
    doc, lines := AppendLine(doc, lines, "layout: post");
    doc, lines := AppendLine(doc, lines, "title: " + issue.title);
    Snoc3("---", "layout: post", "title: " + issue.title);
    ghost var top := lines;
    if |issue.labels| > 0 {
      doc, lines := AppendLine(doc, lines, TagsLine(issue.labels));
    }
    doc, lines := AppendLine(doc, lines, "---");
    doc, lines := AppendLine(doc, lines, "");
    doc, lines := AppendLine(doc, lines, "");
    HeaderSplit(issue, top);
  }

  lemma HeaderSplit(issue: Issue, top: seq<string>)
    requires top == ["---", "layout: post", "title: " + issue.title]
    ensures (if issue.labels != [] then top + [TagsLine(issue.labels)] else top)
            + ["---"] + [""] + [""] == HeaderLines(issue)
  {
  }

  lemma Snoc3<T>(x: T, y: T, z: T)
    ensures [] + [x] + [y] + [z] == [x, y, z]
  {
  }

  /** The `buildString` block, one `appendLine` at a time. */
  method RenderDocument(issue: Issue) returns (doc: string)
    ensures doc == Unlines(DocumentLines(issue))
  {
    ghost var lines;
    doc, lines := RenderFrontMatter(issue);
    doc, lines := AppendLine(doc, lines, issue.body);
    var cs := CommentsOf(issue);
    if |cs| > 0 {
      ghost var front := lines;
      for i := 0 to |cs|
        invariant lines == front + CommentLines(cs[..i])
        invariant doc == Unlines(lines)
      {
        CommentLinesSnoc(cs, i);
        SnocTwice(front, CommentLines(cs[..i]), Marker(cs[i].id), cs[i].body);
        doc, lines := AppendLine(doc, lines, Marker(cs[i].id));
        doc, lines := AppendLine(doc, lines, cs[i].body);
      }
      assert cs[..|cs|] == cs;
    } else {
      assert DocumentLines(issue) == lines;
    }
  }

  /** `appendLine(line)` on a builder holding `doc`, whose lines so far are `lines`. */
  method AppendLine(doc: string, ghost lines: seq<string>, line: string)
    returns (doc': string, ghost lines': seq<string>)
    requires doc == Unlines(lines)
    ensures lines' == lines + [line] && doc' == Unlines(lines')
  {
    UnlinesSnoc(lines, line);
    doc', lines' := doc + line + "\n", lines + [line];
  }

  lemma SnocTwice<T>(p: seq<T>, c: seq<T>, x: T, y: T)
    ensures p + c + [x] + [y] == p + (c + [x, y])
  {
  }

  lemma CommentLinesSnoc(cs: seq<Comment>, i: nat)
    requires i < |cs|
    ensures CommentLines(cs[..i + 1]) == CommentLines(cs[..i]) + [Marker(cs[i].id), cs[i].body]
  {
    assert cs[..i + 1][..i] == cs[..i];
  }

  /** The front matter as text. */
  lemma FrontMatterText(issue: Issue)
    ensures Unlines(HeaderLines(issue)) ==
      "---\n" + "layout: post\n" + ("title: " + issue.title) + "\n"
      + (if issue.labels != [] then TagsLine(issue.labels) + "\n" else "")
      + "---\n" + "\n" + "\n"
  {
    var title := "title: " + issue.title;
    var tags := if issue.labels != [] then TagsLine(issue.labels) + "\n" else "";
    var l: seq<string> := ["---"];
    ghost var text: string := "---\n";
    UnlinesSnoc([], "---");
    assert [] + ["---"] == l;
    assert Unlines(l) == text;
    UnlinesSnoc(l, "layout: post");
    l, text := l + ["layout: post"], text + "layout: post\n";
    assert Unlines(l) == text;
    UnlinesSnoc(l, title);
    l, text := l + [title], text + title + "\n";
    assert Unlines(l) == text;
    if issue.labels != [] {
      UnlinesSnoc(l, TagsLine(issue.labels));
      l := l + [TagsLine(issue.labels)];
    }
    text := text + tags;
    assert Unlines(l) == text;
    UnlinesSnoc(l, "---");
    l, text := l + ["---"], text + "---\n";
    assert Unlines(l) == text;
    UnlinesSnoc(l, "");
    l, text := l + [""], text + "\n";
    assert Unlines(l) == text;
    UnlinesSnoc(l, "");
    l, text := l + [""], text + "\n";
    assert Unlines(l) == text;
    assert l == HeaderLines(issue);
  }

  /** The text each comment leaves, in list order: its marker line, then its body line. */
  function CommentText(cs: seq<Comment>): string
  {
    if cs == [] then ""
    else CommentText(cs[..|cs| - 1]) + Marker(cs[|cs| - 1].id) + "\n" + cs[|cs| - 1].body + "\n"
  }

  lemma {:induction false} CommentLinesText(cs: seq<Comment>)
    ensures Unlines(CommentLines(cs)) == CommentText(cs)
  {
    if cs != [] {
      var init, c := cs[..|cs| - 1], cs[|cs| - 1];
      var pair := [Marker(c.id), c.body];
      assert CommentLines(cs) == CommentLines(init) + pair;
      CommentLinesText(init);
      UnlinesAppend(CommentLines(init), pair);
      UnlinesPair(Marker(c.id), c.body);
      assert CommentText(cs) == CommentText(init) + Marker(c.id) + "\n" + c.body + "\n";
      Reassociate(CommentText(init), Marker(c.id), c.body);
    }
  }

  lemma Reassociate(a: string, x: string, y: string)
    ensures a + x + "\n" + y + "\n" == a + (x + "\n" + y + "\n")
  {
  }

  lemma UnlinesPair(x: string, y: string)
    ensures Unlines([x, y]) == x + "\n" + y + "\n"
  {
    UnlinesSnoc([], x);
    assert [] + [x] == [x];
    UnlinesSnoc([x], y);
    assert [x] + [y] == [x, y];
  }

  /** The whole document as text: the front matter, the body line, then each
      comment's marker line and body line. */
  lemma DocumentText(issue: Issue)
    ensures Unlines(DocumentLines(issue)) ==
      "---\n" + "layout: post\n" + ("title: " + issue.title) + "\n"
      + (if issue.labels != [] then TagsLine(issue.labels) + "\n" else "")
      + "---\n" + "\n" + "\n"
      + issue.body + "\n"
      + CommentText(CommentsOf(issue))
  {
    var header := HeaderLines(issue);
    var cs := CommentsOf(issue);
    FrontMatterText(issue);
    UnlinesAppend(header + [issue.body], CommentLines(cs));
    UnlinesSnoc(header, issue.body);
    CommentLinesText(cs);
  }

  /** Where each part of the document sits: the fixed front-matter lines, the
      tags line at index 3 exactly when there are labels, the body right after
      the front matter, and two lines per comment after it. */
  lemma DocumentShape(issue: Issue)
    ensures var lines := DocumentLines(issue);
      var h := |HeaderLines(issue)|;
      && h == (if issue.labels == [] then 6 else 7)
      && |lines| == h + 1 + 2 * |CommentsOf(issue)|
      && lines[0] == "---" && lines[1] == "layout: post"
      && lines[2] == "title: " + issue.title
      && lines[3] == (if issue.labels != [] then TagsLine(issue.labels) else "---")
      && lines[h - 3] == "---" && lines[h - 2] == "" && lines[h - 1] == ""
      && lines[h] == issue.body
  {
  }

  predicate IsTagsLine(line: string)
  {
    |line| >= 6 && line[..6] == "tags: "
  }

  /** The front matter holds a tags line if and only if the issue has labels,
      and then it is the one built from the labels. */
  lemma TagsLineIffLabels(issue: Issue)
    ensures var header := HeaderLines(issue);
      && ((exists i | 0 <= i < |header| :: IsTagsLine(header[i])) <==> issue.labels != [])
      && (forall i | 0 <= i < |header| && IsTagsLine(header[i]) :: header[i] == TagsLine(issue.labels))
  {
    var header := HeaderLines(issue);
    var title := "title: " + issue.title;
    assert title[..6] == "title:";
    assert !IsTagsLine(title);
    assert !IsTagsLine("---") && !IsTagsLine("");
    assert "layout: post"[..6] == "layout";
    assert !IsTagsLine("layout: post");
    if issue.labels != [] {
      assert header == ["---", "layout: post", title, TagsLine(issue.labels), "---", "", ""];
      assert TagsLine(issue.labels)[..6] == "tags: ";
      assert IsTagsLine(header[3]);
    } else {
      assert header == ["---", "layout: post", title, "---", "", ""];
    }
  }

  lemma {:induction false} CommentLinesAt(cs: seq<Comment>, k: nat)
    requires k < |cs|
    ensures CommentLines(cs)[2 * k] == Marker(cs[k].id)
    ensures CommentLines(cs)[2 * k + 1] == cs[k].body
  {
    if k < |cs| - 1 {
      assert cs[..|cs| - 1][k] == cs[k];
      CommentLinesAt(cs[..|cs| - 1], k);
    }
  }

  /** After the body come the comments, in list order, each as its marker and
      then its body; an absent or empty comments list emits nothing. */
  lemma CommentSection(issue: Issue)
    ensures var lines := DocumentLines(issue);
      var h := |HeaderLines(issue)|;
      var cs := CommentsOf(issue);
      && |lines| == h + 1 + 2 * |cs|
      && (forall k | 0 <= k < |cs| ::
            lines[h + 1 + 2 * k] == Marker(cs[k].id) && lines[h + 2 + 2 * k] == cs[k].body)
      && (issue.commentsList.None? || issue.commentsList == Some([]) ==>
            lines == HeaderLines(issue) + [issue.body])
  {
    var cs := CommentsOf(issue);
    var front := HeaderLines(issue) + [issue.body];
    var lines := DocumentLines(issue);
    assert lines == front + CommentLines(cs);
    forall k | 0 <= k < |cs|
      ensures lines[|front| + 2 * k] == Marker(cs[k].id)
      ensures lines[|front| + 2 * k + 1] == cs[k].body
    {
      CommentAt(front, cs, k);
    }
    if cs == [] {
      assert lines == front + [];
    }
  }

  /** The comment lines sit after everything before them, two per comment. */
  lemma CommentAt(front: seq<string>, cs: seq<Comment>, k: nat)
    requires k < |cs|
    ensures (front + CommentLines(cs))[|front| + 2 * k] == Marker(cs[k].id)
    ensures (front + CommentLines(cs))[|front| + 2 * k + 1] == cs[k].body
  {
    CommentLinesAt(cs, k);
    AtOffset(front, CommentLines(cs), 2 * k);
    AtOffset(front, CommentLines(cs), 2 * k + 1);
  }

  lemma AtOffset<T>(front: seq<T>, tail: seq<T>, j: nat)
    requires j < |tail|
    ensures (front + tail)[|front| + j] == tail[j]
  {
  }

  /** `SimpleDateFormat("yyyy-MM-dd")` on an already-resolved day: the year in
      at least four digits, month and day in at least two. */
  function FormatDate(d: Date): string
  {
    ZeroPad(d.year, 4) + "-" + ZeroPad(d.month, 2) + "-" + ZeroPad(d.day, 2)
  }

  /** The file name without directory and extension: `${date}-${issue.number}`. */
  function PostName(created: Date, number: int): string
  {
    FormatDate(created) + "-" + IntToDecimal(number)
  }

  /** `"_posts/${date}-${issue.number}.html"`. */
  function PostPath(created: Date, number: int): (path: string)
    ensures |path| > 12 && path[..7] == "_posts/" && path[|path| - 5..] == ".html"
  {
    "_posts/" + PostName(created, number) + ".html"
  }

  /** Issue #42 created on 2023-03-05. */
  lemma PostPathExample()
    ensures PostPath(Date(2023, 3, 5), 42) == "_posts/2023-03-05-42.html"
  {
    DateExample();
    DigitsExample();
    assert IntToDecimal(42) == "42";
    assert PostName(Date(2023, 3, 5), 42) == "2023-03-05-42";
  }

  lemma DateExample()
    ensures FormatDate(Date(2023, 3, 5)) == "2023-03-05"
  {
    DigitsExample();
    assert ZeroPad(2023, 4) == "2023";
    assert Zeros(1) == "0";
    assert ZeroPad(3, 2) == "03";
    assert ZeroPad(5, 2) == "05";
  }

  lemma DigitsExample()
    ensures NatToDecimal(2023) == "2023" && NatToDecimal(42) == "42"
    ensures NatToDecimal(3) == "3" && NatToDecimal(5) == "5"
  {
    assert NatToDecimal(2) == "2";
    assert NatToDecimal(20) == "20";
    assert NatToDecimal(202) == "202";
    assert NatToDecimal(4) == "4";
  }

  /** In a digit string followed by '-', the first dash is right after the digits. */
  lemma FirstDash(a: string, r: string)
    requires AllDigits(a)
    ensures (a + "-" + r)[|a|] == '-'
    ensures forall i | 0 <= i < |a| :: (a + "-" + r)[i] != '-'
  {
    forall i | 0 <= i < |a| ensures (a + "-" + r)[i] != '-' {
      assert (a + "-" + r)[i] == a[i];
    }
  }

  /** Two digit strings followed by '-' agree up to the dash. */
  lemma SplitAtDash(a1: string, r1: string, a2: string, r2: string)
    requires AllDigits(a1) && AllDigits(a2)
    requires a1 + "-" + r1 == a2 + "-" + r2
    ensures a1 == a2 && r1 == r2
  {
    var s := a1 + "-" + r1;
    FirstDash(a1, r1);
    FirstDash(a2, r2);
    assert |a1| == |a2|;
    assert a1 == s[..|a1|] && a2 == s[..|a2|];
    assert r1 == s[|a1| + 1..] && r2 == s[|a2| + 1..];
  }

  lemma StripFrame(x1: string, x2: string)
    requires "_posts/" + x1 + ".html" == "_posts/" + x2 + ".html"
    ensures x1 == x2
  {
    var s := "_posts/" + x1 + ".html";
    assert x1 == s[7..|s| - 5];
    var t := "_posts/" + x2 + ".html";
    assert x2 == t[7..|t| - 5];
  }

  lemma ZeroPadInjective(a: nat, b: nat, width: nat)
    requires ZeroPad(a, width) == ZeroPad(b, width)
    ensures a == b
  {
  }

  /** A path determines the day and the number it was built from: the year,
      month and day fields hold no dash, so the first three dashes of the
      file name delimit them. */
  lemma PostPathInjective(d1: Date, n1: int, d2: Date, n2: int)
    requires PostPath(d1, n1) == PostPath(d2, n2)
    ensures d1 == d2 && n1 == n2
  {
    var y1, m1, dd1, i1 := ZeroPad(d1.year, 4), ZeroPad(d1.month, 2), ZeroPad(d1.day, 2), IntToDecimal(n1);
    var y2, m2, dd2, i2 := ZeroPad(d2.year, 4), ZeroPad(d2.month, 2), ZeroPad(d2.day, 2), IntToDecimal(n2);
    StripFrame(PostName(d1, n1), PostName(d2, n2));
    Regroup(y1, m1, dd1, i1);
    Regroup(y2, m2, dd2, i2);
    SplitAtDash(y1, m1 + "-" + (dd1 + "-" + i1), y2, m2 + "-" + (dd2 + "-" + i2));
    SplitAtDash(m1, dd1 + "-" + i1, m2, dd2 + "-" + i2);
    SplitAtDash(dd1, i1, dd2, i2);
    ZeroPadInjective(d1.year, d2.year, 4);
    ZeroPadInjective(d1.month, d2.month, 2);
    ZeroPadInjective(d1.day, d2.day, 2);
    IntToDecimalInjective(n1, n2);
  }

  lemma Regroup(y: string, m: string, d: string, n: string)
    ensures y + "-" + m + "-" + d + "-" + n == y + "-" + (m + "-" + (d + "-" + n))
  {
  }

  /** The file written for one issue. */
  function PostOf(issue: Issue): PostFile
  {
    PostFile(PostPath(issue.createdAt, issue.number), Unlines(DocumentLines(issue)))
  }

  /** The writer's `forEach`: one file per issue, in list order. */
  method WriteFormattedIssues(issues: seq<Issue>) returns (files: seq<PostFile>)
    ensures |files| == |issues|
    ensures forall i | 0 <= i < |issues| :: files[i] == PostOf(issues[i])
  {
    files := [];
    for i := 0 to |issues|
      invariant |files| == i && WrittenFor(files, issues)
    {
      var content := RenderDocument(issues[i]);
      var path := PostPath(issues[i].createdAt, issues[i].number);
      var file := PostFile(path, content);
      WrittenSnoc(files, issues, file);
      files := files + [file];
    }
  }

  /** `files` are the posts of the first issues, in order. */
  predicate WrittenFor(files: seq<PostFile>, issues: seq<Issue>)
  {
    && |files| <= |issues|
    && forall j | 0 <= j < |files| :: files[j] == PostOf(issues[j])
  }

  lemma WrittenSnoc(files: seq<PostFile>, issues: seq<Issue>, file: PostFile)
    requires WrittenFor(files, issues) && |files| < |issues|
    requires file == PostOf(issues[|files|])
    ensures WrittenFor(files + [file], issues)
  {
    var more := files + [file];
    forall j | 0 <= j < |more| ensures more[j] == PostOf(issues[j]) {
      if j < |files| { assert more[j] == files[j]; }
    }
  }

  /** Issues with distinct numbers are written to distinct paths, so no file
      overwrites another within a run. */
  lemma DistinctPaths(issues: seq<Issue>)
    requires forall i, j | 0 <= i < j < |issues| :: issues[i].number != issues[j].number
    ensures forall i, j | 0 <= i < j < |issues| ::
      PostPath(issues[i].createdAt, issues[i].number) != PostPath(issues[j].createdAt, issues[j].number)
  {
    forall i, j | 0 <= i < j < |issues|
      ensures PostPath(issues[i].createdAt, issues[i].number) != PostPath(issues[j].createdAt, issues[j].number)
    {
      if PostPath(issues[i].createdAt, issues[i].number) == PostPath(issues[j].createdAt, issues[j].number) {
        PostPathInjective(issues[i].createdAt, issues[i].number, issues[j].createdAt, issues[j].number);
      }
    }
  }

}
