/** `resolveJiraKeyForLinearIssue`: the Jira key of a Linear issue, from the
    store when it has one, otherwise from the first candidate key in the
    issue's own text that Jira confirms. */
module Resolver {
  import opened Wrappers
  import opened Strings
  import opened JiraKeys
  import opened MappingStore
  import opened Remote

  function OptSeq(o: Option<string>): seq<string> {
    if o.Some? then [o.value] else []
  }

  /** Step 1: the first key at or after the first `PREFIX jira:` marker of the
      description. */
  function MarkerCandidate(prefix: string, desc: string): Option<string> {
    match IndexOf(desc, prefix + " jira:")
    case None => None
    case Some(idx) => ExtractJiraIssueKeyFromText(desc[idx..])
  }

  /** Step 2, one attachment: its URL's key, when it has a non-empty URL. */
  function AttachmentKey(a: Attachment): seq<string> {
    if a.url.Some? && a.url.value != "" then OptSeq(ExtractJiraIssueKeyFromUrl(a.url.value)) else []
  }

  function AttachmentCandidates(atts: seq<Attachment>): seq<string> {
    if atts == [] then [] else AttachmentKey(atts[0]) + AttachmentCandidates(atts[1..])
  }

  /** Step 3: the key of each text source in turn. */
  function TextCandidates(sources: seq<string>): seq<string> {
    if sources == [] then [] else OptSeq(ExtractJiraIssueKeyFromText(sources[0])) + TextCandidates(sources[1..])
  }

  /** The keys the resolver tries, in order: the marker key, then each
      attachment's key in list order, then the title's key, then the
      description's key. */
  function Candidates(prefix: string, issue: LinearIssue): seq<string> {
    var desc := issue.description.GetOr("");
    OptSeq(MarkerCandidate(prefix, desc)) + AttachmentCandidates(issue.attachments) + TextCandidates([issue.title, desc])
  }

  /** Every candidate is shaped like a Jira key. */
  lemma {:induction false} CandidatesAreKeys(prefix: string, issue: LinearIssue)
    ensures forall k :: 0 <= k < |Candidates(prefix, issue)| ==> KeyShape(Candidates(prefix, issue)[k])
  {
    var desc := issue.description.GetOr("");
    AttachmentKeys(issue.attachments);
    TextKeys([issue.title, desc]);
    var m := OptSeq(MarkerCandidate(prefix, desc));
    assert forall k :: 0 <= k < |m| ==> KeyShape(m[k]) by {
      var idx := IndexOf(desc, prefix + " jira:");
      if idx.Some? {
        var key := ExtractJiraIssueKeyFromText(desc[idx.value..]);
        if key.Some? {
          assert m == [key.value];
        }
      }
    }
  }

  lemma {:induction false} AttachmentKeys(atts: seq<Attachment>)
    ensures forall k :: 0 <= k < |AttachmentCandidates(atts)| ==> KeyShape(AttachmentCandidates(atts)[k])
  {
    if atts != [] {
      AttachmentKeys(atts[1..]);
      var a := atts[0];
      if a.url.Some? && a.url.value != "" {
        var key := ExtractJiraIssueKeyFromUrl(a.url.value);
        if key.Some? {
          assert AttachmentKey(a) == [key.value];
        }
      }
    }
  }

  lemma {:induction false} TextKeys(sources: seq<string>)
    ensures forall k :: 0 <= k < |TextCandidates(sources)| ==> KeyShape(TextCandidates(sources)[k])
  {
    if sources != [] {
      TextKeys(sources[1..]);
    }
  }

  /** The first candidate Jira knows. */
  function FirstKnown(cands: seq<string>, valid: set<string>): (r: Option<string>)
    ensures r.Some? ==> r.value in cands && r.value in valid
    ensures r.None? <==> forall i :: 0 <= i < |cands| ==> cands[i] !in valid
  {
    if cands == [] then None
    else if cands[0] in valid then Some(cands[0])
    else FirstKnown(cands[1..], valid)
  }

  /** The candidates validated: all of them up to and including the first one
      Jira knows. */
  function Tried(cands: seq<string>, valid: set<string>): (r: seq<string>)
    ensures |r| <= |cands| && r == cands[..|r|]
    ensures FirstKnown(cands, valid).None? ==> r == cands
    ensures FirstKnown(cands, valid).Some? ==> r != [] && r[|r| - 1] == FirstKnown(cands, valid).value
  {
    if cands == [] then []
    else if cands[0] in valid then [cands[0]]
    else [cands[0]] + Tried(cands[1..], valid)
  }

  /** The first known candidate of `a + b` is that of `a`, or, when Jira
      knows none of `a`, that of `b`. */
  lemma {:induction false} FirstKnownAppend(a: seq<string>, b: seq<string>, valid: set<string>)
    ensures FirstKnown(a + b, valid) == if FirstKnown(a, valid).Some? then FirstKnown(a, valid) else FirstKnown(b, valid)
  {
    if a == [] {
      assert a + b == b;
    } else {
      assert (a + b)[0] == a[0];
      assert (a + b)[1..] == a[1..] + b;
      FirstKnownAppend(a[1..], b, valid);
    }
  }

  /** Trying `a + b` stops inside `a` when Jira knows one of it, and
      otherwise goes through all of `a` and on into `b`. */
  lemma {:induction false} TriedAppend(a: seq<string>, b: seq<string>, valid: set<string>)
    ensures Tried(a + b, valid) == if FirstKnown(a, valid).Some? then Tried(a, valid) else a + Tried(b, valid)
  {
    if a == [] {
      assert a + b == b;
    } else {
      assert (a + b)[0] == a[0];
      assert (a + b)[1..] == a[1..] + b;
      TriedAppend(a[1..], b, valid);
      if a[0] !in valid {
        AppendAssoc([a[0]], a[1..], Tried(b, valid));
        assert [a[0]] + a[1..] == a;
      }
    }
  }

  lemma NoneKnown(tried: seq<string>, valid: set<string>)
    requires forall i :: 0 <= i < |tried| ==> tried[i] !in valid
    ensures FirstKnown(tried, valid) == None && Tried(tried, valid) == tried
  {
  }

  /** A known key right after unknown ones is the first known one. */
  lemma FoundAfter(tried: seq<string>, key: string, rest: seq<string>, valid: set<string>)
    requires forall i :: 0 <= i < |tried| ==> tried[i] !in valid
    requires key in valid
    ensures FirstKnown(tried + [key] + rest, valid) == Some(key)
    ensures Tried(tried + [key] + rest, valid) == tried + [key]
  {
    FirstKnownAppend(tried, [key] + rest, valid);
    TriedAppend(tried, [key] + rest, valid);
    AppendAssoc(tried, [key], rest);
    assert ([key] + rest)[0] == key;
  }

  /** The store content after `setIssuePair(linearIssueId, jiraKey)`. */
  function Paired(t: Tables, linearIssueId: string, jiraKey: string): Tables {
    t.(linearToJira := t.linearToJira[linearIssueId := jiraKey], jiraToLinear := t.jiraToLinear[jiraKey := linearIssueId])
  }

  /** What trying `cands` in order does: the result is the first candidate
      Jira knows, the lookups are exactly the candidates up to it, and the
      store gains that one pair (or nothing when no candidate is known). */
  ghost predicate Attempted(cands: seq<string>, valid: set<string>, found: Option<string>,
                            lookups0: seq<string>, lookups: seq<string>, store0: Tables, store: Tables,
                            linearIssueId: string) {
    && found == FirstKnown(cands, valid)
    && lookups == lookups0 + Tried(cands, valid)
    && store == (if found.Some? then Paired(store0, linearIssueId, found.value) else store0)
  }

  /** Trying `a` and then, when nothing in `a` was known, `b`, is trying
      `a + b`. */
  lemma AttemptedThen(a: seq<string>, b: seq<string>, valid: set<string>, found: Option<string>,
                      l0: seq<string>, l1: seq<string>, l2: seq<string>, s0: Tables, s2: Tables, id: string)
    requires Attempted(a, valid, None, l0, l1, s0, s0, id)
    requires Attempted(b, valid, found, l1, l2, s0, s2, id)
    ensures Attempted(a + b, valid, found, l0, l2, s0, s2, id)
  {
    FirstKnownAppend(a, b, valid);
    TriedAppend(a, b, valid);
    AppendAssoc(l0, a, Tried(b, valid));
  }

  /** A known candidate in `a` decides, whatever follows. */
  lemma AttemptedFound(a: seq<string>, b: seq<string>, valid: set<string>, key: string,
                       l0: seq<string>, l1: seq<string>, s0: Tables, s1: Tables, id: string)
    requires Attempted(a, valid, Some(key), l0, l1, s0, s1, id)
    ensures Attempted(a + b, valid, Some(key), l0, l1, s0, s1, id)
  {
    FirstKnownAppend(a, b, valid);
    TriedAppend(a, b, valid);
  }

  /** One validation: `getIssue(key)`, and on success `setIssuePair`. */
  method ValidateAndPair(key: string, linearIssueId: string, store: JiraLinearMappingStore, jira: JiraServer)
    returns (ok: bool)
    modifies store, jira`lookups
    ensures ok <==> key in jira.records
    ensures jira.lookups == old(jira.lookups) + [key]
    ensures ok ==> store.Content() == Paired(old(store.Content()), linearIssueId, key)
    ensures !ok ==> store.Content() == old(store.Content())
  {
    var found := jira.GetIssue(key);
    ok := found.Ok?;
    if ok {
      store.SetIssuePair(linearIssueId, key);
    }
  }

  /** One step of the resolver: validate the candidates in order and stop at
      the first one Jira knows, pairing it with the issue. */
  method TryCandidates(cands: seq<string>, linearIssueId: string, store: JiraLinearMappingStore, jira: JiraServer)
    returns (found: Option<string>)
    modifies store, jira`lookups
    ensures Attempted(cands, jira.records.Keys, found,
                      old(jira.lookups), jira.lookups, old(store.Content()), store.Content(), linearIssueId)
  {
    ghost var valid := jira.records.Keys;
    for i := 0 to |cands|
      invariant forall k :: 0 <= k < i ==> cands[k] !in valid
      invariant jira.lookups == old(jira.lookups) + cands[..i]
      invariant store.Content() == old(store.Content())
    {
      var ok := ValidateAndPair(cands[i], linearIssueId, store, jira);
      TakeNext(cands, i);
      if ok {
        assert cands == cands[..i] + [cands[i]] + cands[i + 1..];
        FoundAfter(cands[..i], cands[i], cands[i + 1..], valid);
        return Some(cands[i]);
      }
    }
    assert cands[..|cands|] == cands;
    NoneKnown(cands, valid);
    found := None;
  }

  /** Steps 1 to 3 of the resolver, one after the other: the marker
      candidate, the attachment candidates, the text candidates. */
  method TryInOrder(m: seq<string>, ac: seq<string>, tc: seq<string>, linearIssueId: string,
                    store: JiraLinearMappingStore, jira: JiraServer)
    returns (found: Option<string>)
    modifies store, jira`lookups
    ensures Attempted(m + ac + tc, jira.records.Keys, found,
                      old(jira.lookups), jira.lookups, old(store.Content()), store.Content(), linearIssueId)
  {
    ghost var valid := jira.records.Keys;
    ghost var s0 := store.Content();
    ghost var l0 := jira.lookups;
    found := TryCandidates(m, linearIssueId, store, jira);
    if found.Some? {
      AttemptedFound(m, ac + tc, valid, found.value, l0, jira.lookups, s0, store.Content(), linearIssueId);
      assert m + ac + tc == m + (ac + tc);
      return;
    }
    ghost var l1 := jira.lookups;
    found := TryCandidates(ac, linearIssueId, store, jira);
    if found.Some? {
      AttemptedFound(ac, tc, valid, found.value, l1, jira.lookups, s0, store.Content(), linearIssueId);
      AttemptedThen(m, ac + tc, valid, found, l0, l1, jira.lookups, s0, store.Content(), linearIssueId);
      assert m + ac + tc == m + (ac + tc);
      return;
    }
    ghost var l2 := jira.lookups;
    AttemptedThen(m, ac, valid, None, l0, l1, l2, s0, s0, linearIssueId);
    found := TryCandidates(tc, linearIssueId, store, jira);
    AttemptedThen(m + ac, tc, valid, found, l0, l2, jira.lookups, s0, store.Content(), linearIssueId);
  }

  /** Where the resolver ends, from the store's tables, the Linear issues
      and the keys Jira knows: a stored non-empty key with the store as it
      was, or else the first candidate Jira knows, paired with the issue in
      the store (no key and no change when none is known). A missing issue
      has no key. */
  function Resolution(prefix: string, t: Tables, issues: map<string, LinearIssue>, valid: set<string>,
                      issueId: string): (Option<string>, Tables)
  {
    if Mirrored(t.linearToJira, issueId) then (Some(t.linearToJira[issueId]), t)
    else if issueId !in issues then (None, t)
    else
      var found := FirstKnown(Candidates(prefix, issues[issueId]), valid);
      (found, if found.Some? then Paired(t, issueId, found.value) else t)
  }

  /** `resolveJiraKeyForLinearIssue`. A stored non-empty key is returned at
      once, with nothing fetched or validated. Otherwise the issue is fetched
      (a missing issue aborts) and its candidates are tried in order: the first
      one Jira knows is paired with the issue in the store and returned, each
      one Jira does not know falls through to the next, and when none is known
      the result is `None` and the store is unchanged. */
  method ResolveJiraKeyForLinearIssue(prefix: string, issueId: string, store: JiraLinearMappingStore,
                                      jira: JiraServer, linear: LinearServer)
    returns (r: Result<Option<string>>)
    requires linear.Valid()
    modifies store, jira`lookups, linear`viewFetches
    ensures Mirrored(old(store.linearToJira), issueId) ==>
      && r == Ok(Some(old(store.linearToJira)[issueId]))
      && store.Content() == old(store.Content())
      && jira.lookups == old(jira.lookups) && linear.viewFetches == old(linear.viewFetches)
    ensures !Mirrored(old(store.linearToJira), issueId) ==>
      && linear.viewFetches == old(linear.viewFetches) + [issueId]
      && (issueId !in linear.issues ==>
           r.Failure? && store.Content() == old(store.Content()) && jira.lookups == old(jira.lookups))
      && (issueId in linear.issues ==>
           r.Ok? && Attempted(Candidates(prefix, linear.issues[issueId]), jira.records.Keys, r.value,
                              old(jira.lookups), jira.lookups, old(store.Content()), store.Content(), issueId))
    ensures store.jiraCommentToLinearComment == old(store.jiraCommentToLinearComment)
    ensures store.linearCommentToJiraComment == old(store.linearCommentToJiraComment)
    ensures r.Ok? && r.value.None? ==> store.Content() == old(store.Content())
    ensures r.Ok? ==>
      (r.value, store.Content()) == Resolution(prefix, old(store.Content()), linear.issues, jira.records.Keys, issueId)
  {
    var existing := store.GetJiraKey(issueId);
    if existing.Some? && existing.value != "" {
      return Ok(existing);
    }
    var fetched := linear.FetchIssueSyncView(issueId);
    if fetched.Failure? {
      return Failure(fetched.reason);
    }
    var issue := fetched.value;
    var desc := issue.description.GetOr("");
    // 1) the marker in the description, 2) the attachments' URLs,
    // 3) the title, then the description
    var found := TryInOrder(OptSeq(MarkerCandidate(prefix, desc)), AttachmentCandidates(issue.attachments),
                            TextCandidates([issue.title, desc]), issue.id, store, jira);
    r := Ok(found);
  }
}
