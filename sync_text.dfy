/** The text-level helpers of the sync engine: provenance marker lines, the
    bodies of mirrored comments, marker detection and Jira status categories. */
module SyncText {
  import opened Wrappers
  import opened Strings
  import opened Adf
  import opened Remote

  // ---------------------------------------------------------------------
  // Marker lines

  /** `${k}:${v}` for each entry, in insertion order. */
  function Entries(params: seq<(string, string)>): (r: seq<string>)
    ensures |r| == |params|
    ensures forall k :: 0 <= k < |params| ==> r[k] == params[k].0 + ":" + params[k].1
  {
    if params == [] then [] else [params[0].0 + ":" + params[0].1] + Entries(params[1..])
  }

  lemma JoinStartsWithFirst(parts: seq<string>, sep: string)
    requires parts != []
    ensures IsPrefix(parts[0], Join(parts, sep))
  {
    if |parts| > 1 {
      assert Join(parts, sep) == parts[0] + (sep + Join(parts[1..], sep));
    }
  }

  /** `buildMarkerLine`: `PREFIX k1:v1 k2:v2 ... -->`. The line starts with
      the prefix and the first entry and ends in `>`, which is not
      whitespace. */
  function BuildMarkerLine(prefix: string, params: seq<(string, string)>): (r: string)
    ensures IsPrefix(prefix + " ", r)
    ensures params != [] ==> IsPrefix(prefix + " " + params[0].0 + ":" + params[0].1, r)
    ensures r[|r| - 1] == '>' && !IsJsWhitespace(r[|r| - 1])
  {
    var joined := Join(Entries(params), " ");
    var r := prefix + " " + joined + " -->";
    if params != [] then
      JoinStartsWithFirst(Entries(params), " ");
      assert joined == Entries(params)[0] + joined[|Entries(params)[0]|..];
      assert r == (prefix + " " + params[0].0 + ":" + params[0].1) + joined[|Entries(params)[0]|..] + " -->";
      r
    else
      r
  }

  /** `hasMarker`: a non-empty body that contains the needle. */
  function HasMarker(body: string, needle: string): (r: bool)
    ensures r <==> body != "" && exists i :: HasAt(body, i, needle)
  {
    body != "" && Contains(body, needle)
  }

  // ---------------------------------------------------------------------
  // Status categories

  datatype Category = New | Indeterminate | Done

  function CategoryName(c: Category): string {
    match c
    case New => "new"
    case Indeterminate => "indeterminate"
    case Done => "done"
  }

  /** `statusCategoryKey`: one of the three known category keys, or nothing
      for a missing or unknown key. */
  function StatusCategoryKey(raw: Option<string>): (r: Option<Category>)
    ensures r.Some? <==> raw == Some("new") || raw == Some("indeterminate") || raw == Some("done")
    ensures r.Some? ==> raw == Some(CategoryName(r.value))
  {
    match raw
    case Some("new") => Some(New)
    case Some("indeterminate") => Some(Indeterminate)
    case Some("done") => Some(Done)
    case _ => None
  }

  /** Every category reads back from its own key. */
  lemma CategoryKeyRoundTrip(c: Category)
    ensures StatusCategoryKey(Some(CategoryName(c))) == Some(c)
  {
  }

  // ---------------------------------------------------------------------
  // Mirrored comment bodies

  function JiraMarker(prefix: string, jiraKey: string, commentId: string): string {
    BuildMarkerLine(prefix, [("source", "jira"), ("key", jiraKey), ("comment", commentId)])
  }

  function LinearMarker(prefix: string, issueId: string, commentId: string): string {
    BuildMarkerLine(prefix, [("source", "linear"), ("issue", issueId), ("comment", commentId)])
  }

  /** The body a Jira comment gets on Linear: marker line, heading, author
      (`unknown` when Jira names none), creation time, a blank line and the
      comment's plain text. */
  function JiraToLinearBody(prefix: string, jiraKey: string, c: JiraComment, text: string): string {
    Join([JiraMarker(prefix, jiraKey, c.id),
          "### Jira Comment (" + jiraKey + ")",
          "- **Author**: " + c.authorName.GetOr("unknown"),
          "- **Created**: " + c.created,
          "",
          text], "\n")
  }

  /** `lc.user?.name ?? lc.user?.id ?? "unknown"`. */
  function LinearAuthor(user: Option<LinearUser>): string {
    match user
    case None => "unknown"
    case Some(u) => u.name.GetOr(u.id)
  }

  /** The text a Linear comment gets on Jira: marker line, origin (the issue's
      URL, else its id), author, creation time, a blank line and the comment's
      body. */
  function LinearToJiraBody(prefix: string, issue: LinearIssue, c: LinearComment): string {
    Join([LinearMarker(prefix, issue.id, c.id),
          "[Linear] Mirrored comment from " + issue.url.GetOr(issue.id),
          "Author: " + LinearAuthor(c.user),
          "Created: " + c.createdAt,
          "",
          c.body], "\n")
  }

  /** A six-line join starts with its first line and a line feed. */
  lemma JoinSixLines(lines: seq<string>)
    requires |lines| == 6
    ensures Join(lines, "\n") == lines[0] + "\n" + Join(lines[1..], "\n")
  {
  }

  /** A Jira-to-Linear body starts with its marker line, which names the
      source `jira`; the Linear-to-Jira loop therefore always skips it. */
  lemma JiraBodyCarriesJiraMarker(prefix: string, jiraKey: string, c: JiraComment, text: string)
    ensures var body := JiraToLinearBody(prefix, jiraKey, c, text);
      && IsPrefix(JiraMarker(prefix, jiraKey, c.id) + "\n", body)
      && HasMarker(body, prefix + " source:jira")
  {
    var marker := JiraMarker(prefix, jiraKey, c.id);
    var lines := [marker, "### Jira Comment (" + jiraKey + ")", "- **Author**: " + c.authorName.GetOr("unknown"),
                  "- **Created**: " + c.created, "", text];
    JoinSixLines(lines);
    var body := JiraToLinearBody(prefix, jiraKey, c, text);
    var needle := prefix + " source:jira";
    assert needle == prefix + " " + "source" + ":" + "jira";
    assert marker == needle + marker[|needle|..];
    ContainsAtStart(needle, marker[|needle|..]);
    ContainsPrefix(marker, "\n" + Join(lines[1..], "\n"), needle);
    assert body == marker + ("\n" + Join(lines[1..], "\n"));
    assert (marker + "\n") + Join(lines[1..], "\n") == body;
  }

  /** A Linear-to-Jira text starts with its marker line, which names the
      source `linear`. */
  lemma LinearBodyStartsWithMarker(prefix: string, issue: LinearIssue, c: LinearComment)
    ensures var marker := LinearMarker(prefix, issue.id, c.id);
      && IsPrefix(marker + "\n", LinearToJiraBody(prefix, issue, c))
      && Contains(marker, prefix + " source:linear")
  {
    var marker := LinearMarker(prefix, issue.id, c.id);
    var lines := [marker, "[Linear] Mirrored comment from " + issue.url.GetOr(issue.id), "Author: " + LinearAuthor(c.user),
                  "Created: " + c.createdAt, "", c.body];
    JoinSixLines(lines);
    var needle := prefix + " source:linear";
    assert needle == prefix + " " + "source" + ":" + "linear";
    assert marker == needle + marker[|needle|..];
    ContainsAtStart(needle, marker[|needle|..]);
  }

  /** A Linear-to-Jira text ends with a line feed and the comment's body, so
      its last character is the body's last one, or the line feed when the
      body is empty. */
  lemma LinearBodyEndsWithComment(prefix: string, issue: LinearIssue, c: LinearComment)
    ensures var text := LinearToJiraBody(prefix, issue, c);
      && |text| > |c.body|
      && text[|text| - |c.body|..] == c.body
      && text[|text| - |c.body| - 1] == '\n'
  {
    var lines := [LinearMarker(prefix, issue.id, c.id), "[Linear] Mirrored comment from " + issue.url.GetOr(issue.id),
                  "Author: " + LinearAuthor(c.user), "Created: " + c.createdAt, "", c.body];
    JoinLast(lines, "\n");
    var head := Join(lines[..5], "\n") + "\n";
    assert LinearToJiraBody(prefix, issue, c) == head + c.body;
  }

  /** The marker of a Linear-to-Jira text survives the trip through Jira: the
      plain text of the comment Jira stores (`textToAdf` of the text) still
      contains `PREFIX source:linear`, so the Jira-to-Linear loop skips it. */
  lemma LinearBodySurvivesJira(prefix: string, issue: LinearIssue, c: LinearComment)
    ensures Contains(PlainText(DocOf(LinearToJiraBody(prefix, issue, c))), prefix + " source:linear")
  {
    var marker := LinearMarker(prefix, issue.id, c.id);
    var body := LinearToJiraBody(prefix, issue, c);
    LinearBodyStartsWithMarker(prefix, issue, c);
    assert body == marker + body[|marker|..];
    RoundTrip(body);
    TrimEndKeepsPrefix(marker, body[|marker|..]);
    var plain := PlainText(DocOf(body));
    assert plain == marker + plain[|marker|..];
    ContainsPrefix(marker, plain[|marker|..], prefix + " source:linear");
  }
}
