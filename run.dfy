/** `runJiraLinearSync`: one pass over the issues of a Linear project. Each
    issue is resolved to its Jira key; a mapped issue then gets the status
    routines the mode asks for and both comment-mirror loops. The first
    failing call aborts the run. */
module SyncRun {
  import opened Wrappers
  import opened MappingStore
  import opened Remote
  import opened SyncText
  import opened Resolver
  import opened StatusSync
  import opened CommentSync

  datatype StatusMode = JiraToLinear | Bidirectional | Off

  datatype SyncConfig = SyncConfig(
    projectId: string,
    dryRun: bool,
    statusMode: StatusMode,
    categoryStates: map<Category, string>,
    overrides: Option<map<string, string>>,
    statusForState: map<string, string>)

  datatype RunSummary = RunSummary(
    scanned: nat,
    mapped: nat,
    statusChanges: nat,
    commentsJiraToLinear: nat,
    commentsLinearToJira: nat,
    skippedNoJiraKey: nat)

  /** What one issue contributes to the summary; a mapped issue also names
      the Jira key it resolved to. */
  datatype IssueOutcome =
    | Skipped
    | Mapped(jiraKey: string, statusChanges: nat, jiraToLinear: nat, linearToJira: nat)

  /** How many status routines a mapped issue goes through. */
  function StatusRoutines(mode: StatusMode): (n: nat)
    ensures n <= 2
    ensures n == 0 <==> mode == Off
  {
    match mode
    case JiraToLinear => 1
    case Bidirectional => 2
    case Off => 0
  }

  /** The store's two comment tables. */
  ghost function CommentTables(t: Tables): (map<string, string>, map<string, string>) {
    (t.jiraCommentToLinearComment, t.linearCommentToJiraComment)
  }

  /** The store's tables and the issues on both trackers, as one issue's
      turn in the run finds or leaves them. */
  datatype SyncState = SyncState(
    store: Tables,
    records: map<string, JiraRecord>,
    issues: map<string, LinearIssue>)

  /** The states around the two comment loops on one issue: before the
      Jira-to-Linear loop (`store0`, `records0`, `issues0`), the store between
      the loops (`mid`), and everything after the Linear-to-Jira loop. The
      first loop changes no Jira record and the second no Linear issue. */
  datatype CommentPass = CommentPass(
    store0: Tables, records0: map<string, JiraRecord>, issues0: map<string, LinearIssue>,
    mid: Tables,
    store: Tables, records: map<string, JiraRecord>, issues: map<string, LinearIssue>)

  ghost function PassStart(p: CommentPass): SyncState {
    SyncState(p.store0, p.records0, p.issues0)
  }

  ghost function PassEnd(p: CommentPass): SyncState {
    SyncState(p.store, p.records, p.issues)
  }

  /** The Jira comments a pass's first loop selects: those of the Jira
      issue as the pass found it, against the store and the Linear issue's
      bodies as the pass found them. */
  ghost function JiraToLinearSelection(prefix: string, jiraKey: string, issueId: string, dryRun: bool, p: CommentPass): seq<JiraComment>
    requires jiraKey in p.records0 && issueId in p.issues0
  {
    SelectJiraToLinear(prefix, jiraKey, p.records0[jiraKey].comments, p.store0.jiraCommentToLinearComment,
                       LinearBodies(p.issues0[issueId].comments), dryRun)
  }

  /** The Linear comments a pass's second loop selects: those of the Linear
      issue as the first loop left it, against the store between the loops
      and the plain texts of the Jira comments as the pass found them. */
  ghost function LinearToJiraSelection(prefix: string, jiraKey: string, issueId: string, dryRun: bool, p: CommentPass): seq<LinearComment>
    requires jiraKey in p.records0 && issueId in p.issues
  {
    var issue := p.issues[issueId];
    SelectLinearToJira(prefix, issue, issue.comments, p.mid.linearCommentToJiraComment,
                       JiraPlainTexts(p.records0[jiraKey].comments), dryRun)
  }

  /** The Jira-to-Linear loop of a pass: it mirrored the comments selected
      from the Jira issue against the store and the Linear issue's bodies,
      and `count` is how many. */
  ghost predicate JiraToLinearRan(prefix: string, jiraKey: string, issueId: string, dryRun: bool, p: CommentPass, count: nat)
    requires jiraKey in p.records0 && issueId in p.issues0
  {
    var sel := JiraToLinearSelection(prefix, jiraKey, issueId, dryRun, p);
    && count == |sel|
    && JiraToLinearState(p.mid, p.store0, p.issues, p.issues0, issueId, prefix, jiraKey, sel, dryRun)
  }

  /** The Linear-to-Jira loop of a pass: it mirrored the comments selected
      from the Linear issue, as the first loop left it, against the store
      between the loops and the Jira comments' plain texts, and `count` is
      how many. */
  ghost predicate LinearToJiraRan(prefix: string, jiraKey: string, issueId: string, dryRun: bool, p: CommentPass, count: nat)
    requires jiraKey in p.records0 && issueId in p.issues
  {
    var issue := p.issues[issueId];
    var sel := LinearToJiraSelection(prefix, jiraKey, issueId, dryRun, p);
    && count == |sel|
    && LinearToJiraState(p.store, p.mid, p.records, p.records0, jiraKey, prefix, issue, sel, dryRun)
  }

  /** Both comment loops ran on the pair (`jiraKey`, `issueId`), with the
      given counts. */
  ghost predicate CommentsSynced(prefix: string, jiraKey: string, issueId: string, dryRun: bool, p: CommentPass,
                                 counts: (nat, nat))
  {
    && jiraKey in p.records0 && issueId in p.issues0 && issueId in p.issues
    && JiraToLinearRan(prefix, jiraKey, issueId, dryRun, p, counts.0)
    && LinearToJiraRan(prefix, jiraKey, issueId, dryRun, p, counts.1)
  }

  /** `CommentsSynced` for one issue pair, as a test on a pass and its
      counts. */
  ghost function Synced(prefix: string, jiraKey: string, issueId: string, dryRun: bool): (CommentPass, (nat, nat)) -> bool
  {
    (p: CommentPass, c: (nat, nat)) => CommentsSynced(prefix, jiraKey, issueId, dryRun, p, c)
  }

  /** A second pass over an issue right after one that wrote: the
      Jira-to-Linear loop finds every earlier Jira comment paired and every
      Jira comment the first pass added marked as copied from Linear. */
  lemma FirstLoopSecondPass(prefix: string, jiraKey: string, issueId: string, p1: CommentPass, c1: (nat, nat),
                            p2: CommentPass, n: nat)
    requires jiraKey in p1.records0 && issueId in p1.issues0 && issueId in p1.issues
    requires JiraToLinearRan(prefix, jiraKey, issueId, false, p1, c1.0)
    requires LinearToJiraRan(prefix, jiraKey, issueId, false, p1, c1.1)
    requires PassStart(p2) == PassEnd(p1) && jiraKey in p2.records0 && issueId in p2.issues0
    requires JiraToLinearRan(prefix, jiraKey, issueId, false, p2, n)
    ensures n == 0
  {
    var cs0 := p1.records0[jiraKey].comments;
    var m0 := p1.store0.jiraCommentToLinearComment;
    var m1 := p1.store.jiraCommentToLinearComment;
    var b0 := LinearBodies(p1.issues0[issueId].comments);
    var b1 := LinearBodies(p1.issues[issueId].comments);
    var sel1 := SelectJiraToLinear(prefix, jiraKey, cs0, m0, b0, false);
    var issue := p1.issues[issueId];
    var sel2 := SelectLinearToJira(prefix, issue, issue.comments, p1.mid.linearCommentToJiraComment,
                                   JiraPlainTexts(cs0), false);
    assert MirroredIds(m0) <= MirroredIds(m1) && Ids(sel1, JiraId) <= MirroredIds(m1);
    MirroredIdsGrow(m0, m1);
    forall id | id in Ids(sel1, JiraId) ensures Mirrored(m1, id) {
      MirroredIdsHas(m1, id);
    }
    LinearBodiesGrow(p1.issues, p1.issues0, issueId, JiraMirrorBodies(prefix, jiraKey, sel1));
    JiraToLinearIdempotent(prefix, jiraKey, cs0, m0, b0, m1, b1);
    var echoes := JiraAdded(p1.records, p1.records0, jiraKey);
    JiraPlainTextsGrow(p1.records, p1.records0, jiraKey, LinearMirrorDocs(prefix, issue, sel2));
    JiraSelectSkipsEchoes(prefix, jiraKey, cs0, echoes, m1, b1, false, issue, sel2);
    assert p2.store0.jiraCommentToLinearComment == m1 by {
      assert CommentTables(p2.store0) == CommentTables(p1.store);
    }
  }

  /** Once the second pass's first loop has mirrored nothing, its
      Linear-to-Jira loop sees the same Linear issue as the first pass's did,
      with every comment mirrored then now paired, and mirrors nothing. */
  lemma SecondLoopSecondPass(prefix: string, jiraKey: string, issueId: string, p1: CommentPass, n1: nat,
                             p2: CommentPass, n: nat)
    requires jiraKey in p1.records0 && issueId in p1.issues
    requires LinearToJiraRan(prefix, jiraKey, issueId, false, p1, n1)
    requires PassStart(p2) == PassEnd(p1) && jiraKey in p2.records0 && issueId in p2.issues0 && issueId in p2.issues
    requires JiraToLinearRan(prefix, jiraKey, issueId, false, p2, 0)
    requires LinearToJiraRan(prefix, jiraKey, issueId, false, p2, n)
    ensures n == 0
  {
    var issue := p1.issues[issueId];
    var cs0 := p1.records0[jiraKey].comments;
    var t0 := p1.mid.linearCommentToJiraComment;
    var t1 := p2.mid.linearCommentToJiraComment;
    var j0 := JiraPlainTexts(cs0);
    var j1 := JiraPlainTexts(p2.records0[jiraKey].comments);
    var sel2 := SelectLinearToJira(prefix, issue, issue.comments, t0, j0, false);
    LinearBodiesGrow(p2.issues, p2.issues0, issueId, []);
    assert p2.issues[issueId] == issue;
    assert CommentTables(p2.store0) == CommentTables(p1.store);
    assert MirroredIds(t0) <= MirroredIds(t1) && Ids(sel2, LinearId) <= MirroredIds(t1);
    MirroredIdsGrow(t0, t1);
    forall id | id in Ids(sel2, LinearId) ensures Mirrored(t1, id) {
      MirroredIdsHas(t1, id);
    }
    JiraPlainTextsGrow(p1.records, p1.records0, jiraKey, LinearMirrorDocs(prefix, issue, sel2));
    LinearToJiraIdempotent(prefix, issue, issue.comments, t0, j0, t1, j1);
  }

  /** Running both comment loops again on an issue, right after a pass that
      wrote, mirrors nothing in either direction. */
  lemma SecondPassMirrorsNothing(prefix: string, jiraKey: string, issueId: string, p1: CommentPass, c1: (nat, nat),
                                 p2: CommentPass, c2: (nat, nat))
    requires CommentsSynced(prefix, jiraKey, issueId, false, p1, c1)
    requires CommentsSynced(prefix, jiraKey, issueId, false, p2, c2)
    requires PassStart(p2) == PassEnd(p1)
    ensures c2 == (0, 0)
  {
    FirstLoopSecondPass(prefix, jiraKey, issueId, p1, c1, p2, c2.0);
    SecondLoopSecondPass(prefix, jiraKey, issueId, p1, c1.1, p2, c2.1);
  }

  /** `after` is `before` or `before` with one team appended that was not
      cached and, when the call succeeded, is cached now. */
  ghost predicate FetchedAtMostOnce(before: seq<string>, after: seq<string>, cached: set<string>, cachedAfter: set<string>, ok: bool) {
    || after == before
    || (&& |after| == |before| + 1
        && after[..|before|] == before
        && after[|before|] !in cached
        && (ok ==> after[|before|] in cachedAfter))
  }

  ghost predicate NoDuplicates(s: seq<string>) {
    forall i, j :: 0 <= i < j < |s| ==> s[i] != s[j]
  }

  /** One more call keeps the run's team log free of repeats: a newly
      fetched team was not cached, and every team fetched before is. */
  lemma TeamLogStep(fetches0: seq<string>, before: seq<string>, after: seq<string>,
                    cached: set<string>, cachedAfter: set<string>, ok: bool)
    requires |fetches0| <= |before| && before[..|fetches0|] == fetches0
    requires NoDuplicates(before[|fetches0|..])
    requires forall k :: |fetches0| <= k < |before| ==> before[k] in cached
    requires cached <= cachedAfter
    requires FetchedAtMostOnce(before, after, cached, cachedAfter, ok)
    ensures |fetches0| <= |after| && after[..|fetches0|] == fetches0
    ensures NoDuplicates(after[|fetches0|..])
    ensures ok ==> forall k :: |fetches0| <= k < |after| ==> after[k] in cachedAfter
  {
    if after != before {
      assert after[..|fetches0|] == before[..|fetches0|];
      var tail := after[|fetches0|..];
      assert tail == before[|fetches0|..] + [after[|before|]];
      forall i, j | 0 <= i < j < |tail| ensures tail[i] != tail[j] {
        if j == |tail| - 1 {
          assert tail[i] == before[|fetches0| + i];
        }
      }
    }
  }

  // ---------------------------------------------------------------------
  // Status routines

  /** What the status routines make of a mapped issue. */
  datatype StatusEffect = StatusEffect(changes: nat, records: map<string, JiraRecord>, issues: map<string, LinearIssue>)

  /** The Jira-to-Linear routine on the Jira issue `jiraKey` and the Linear
      issue `issueId`: one change or none, and the Linear issues after it,
      the issue moved to the desired state for a change outside a dry run;
      `None` when the routine aborts (a missing issue, or a missing team
      whose states are needed). */
  function LinearRoutine(config: SyncConfig, teams: map<string, seq<WorkflowState>>, records: map<string, JiraRecord>,
                         issues: map<string, LinearIssue>, jiraKey: string, issueId: string)
    : (r: Option<(nat, map<string, LinearIssue>)>)
    ensures r.Some? ==> jiraKey in records && issueId in issues && r.value.0 <= 1 && r.value.1.Keys == issues.Keys
    ensures r.Some? && (config.dryRun || r.value.0 == 0) ==> r.value.1 == issues
  {
    if jiraKey !in records || issueId !in issues then None
    else
      match LinearStatePlan(config.categoryStates, config.overrides, records[jiraKey].issue, issues[issueId], teams)
      case Failure(_) => None
      case Ok(plan) =>
        if plan.Some? && plan.value.changed then
          Some((1, if config.dryRun then issues
                   else issues[issueId := issues[issueId].(stateName := plan.value.desiredStateName)]))
        else Some((0, issues))
  }

  /** The Linear-to-Jira routine on the same pair: one change or none, and
      the Jira records after it, the matched transition applied for a
      change outside a dry run. */
  function JiraRoutine(config: SyncConfig, records: map<string, JiraRecord>, issues: map<string, LinearIssue>,
                       jiraKey: string, issueId: string)
    : (r: (nat, map<string, JiraRecord>))
    requires jiraKey in records && issueId in issues
    ensures r.0 <= 1 && r.1.Keys == records.Keys
    ensures config.dryRun || r.0 == 0 ==> r.1 == records
  {
    var rec := records[jiraKey];
    var plan := JiraStatusPlan(config.statusForState, rec, issues[issueId]);
    if plan.Some? && plan.value.changed then
      (1, if config.dryRun then records
          else match Transitioned(rec, MatchTransition(rec.transitions, plan.value.desiredStatusName).value.id)
            case Some(next) => records[jiraKey := next]
            case None => records)
    else (0, records)
  }

  /** The status routines the mode asks for, on a mapped issue: the changes
      they report and the issues after them, or `None` when the run aborts.
      The Jira-to-Linear routine runs first; the Linear-to-Jira one, in the
      bidirectional mode, reads the Linear issue as the first one left
      it. */
  function StatusPass(config: SyncConfig, teams: map<string, seq<WorkflowState>>, records: map<string, JiraRecord>,
                      issues: map<string, LinearIssue>, jiraKey: string, issueId: string): (r: Option<StatusEffect>)
    ensures config.statusMode == Off ==> r == Some(StatusEffect(0, records, issues))
    ensures config.statusMode != Off && r.Some? ==> jiraKey in records && issueId in issues
    ensures r.Some? ==> r.value.changes <= StatusRoutines(config.statusMode)
    ensures r.Some? ==> r.value.records.Keys == records.Keys && r.value.issues.Keys == issues.Keys
    ensures r.Some? && config.statusMode != Bidirectional ==> r.value.records == records
    ensures r.Some? && config.dryRun ==> (r.value.records, r.value.issues) == (records, issues)
  {
    if config.statusMode == Off then Some(StatusEffect(0, records, issues))
    else
      match LinearRoutine(config, teams, records, issues, jiraKey, issueId)
      case None => None
      case Some((n, issues1)) =>
        if config.statusMode == JiraToLinear then Some(StatusEffect(n, records, issues1))
        else
          var (m, records1) := JiraRoutine(config, records, issues1, jiraKey, issueId);
          Some(StatusEffect(n + m, records1, issues1))
  }

  /** With the Jira-to-Linear mode and outside a dry run, the routine run
      again on what it left changes nothing: the Linear issue is in the
      state the Jira status asks for. */
  lemma JiraToLinearSettles(config: SyncConfig, teams: map<string, seq<WorkflowState>>,
                            records: map<string, JiraRecord>, issues: map<string, LinearIssue>,
                            jiraKey: string, issueId: string)
    requires config.statusMode == JiraToLinear && !config.dryRun
    requires StatusPass(config, teams, records, issues, jiraKey, issueId).Some?
    ensures var e := StatusPass(config, teams, records, issues, jiraKey, issueId).value;
      StatusPass(config, teams, e.records, e.issues, jiraKey, issueId) == Some(StatusEffect(0, e.records, e.issues))
  {
    LinearStatePlanSound(config.categoryStates, config.overrides, records[jiraKey].issue, issues[issueId], teams);
  }

  /** A Jira issue done, its Linear issue still to do, both routines on:
      the Linear issue is moved to "Done", the Jira routine reads that state,
      finds Jira already in the status it maps to and applies nothing, so
      one change is reported. */
  lemma BidirectionalReadsMovedState()
    ensures var config := SyncConfig("P", false, Bidirectional, map[Done := "Done"], None,
                                     map["Todo" := "To Do", "Done" := "Done"]);
      var records := map["ENG-1" := JiraRecord(JiraIssue("Done", Some("done")), [], [Transition("11", "Reopen", Some("To Do"))])];
      var issues := map["L1" := LinearIssue("L1", "t", None, None, "T", "Todo", [], [])];
      var teams := map["T" := [WorkflowState("s1", "Todo"), WorkflowState("s2", "Done")]];
      StatusPass(config, teams, records, issues, "ENG-1", "L1")
        == Some(StatusEffect(1, records, issues["L1" := issues["L1"].(stateName := "Done")]))
  {
  }

  /** `ensureLinearStateFromJira` with its change counted, as the loop body
      counts it. */
  method LinearStatus(jiraKey: string, issueId: string, config: SyncConfig, jira: JiraServer, linear: LinearServer,
                      cache: TeamStateCache)
    returns (r: Result<nat>)
    requires linear.Valid() && cache.Agrees(linear)
    modifies jira`lookups, linear`issues, linear`viewFetches, linear`teamFetches, linear`stateUpdates, cache
    ensures linear.Valid() && cache.Agrees(linear)
    ensures old(cache.tables).Keys <= cache.tables.Keys
    ensures FetchedAtMostOnce(old(linear.teamFetches), linear.teamFetches, old(cache.tables).Keys, cache.tables.Keys, r.Ok?)
    ensures var step := LinearRoutine(config, linear.teams, jira.records, old(linear.issues), jiraKey, issueId);
      (r.Ok? <==> step.Some?) && (r.Ok? ==> step.value == (r.value, linear.issues))
    ensures config.dryRun ==> linear.stateUpdates == old(linear.stateUpdates) && linear.issues == old(linear.issues)
  {
    var res := EnsureLinearStateFromJira(jiraKey, issueId, linear, jira, config.dryRun, config.categoryStates,
                                         config.overrides, cache);
    if res.Failure? {
      return Failure(res.reason);
    }
    r := Ok(if res.value.Some? && res.value.value.changed then 1 else 0);
  }

  /** `ensureJiraStatusFromLinear` with its change counted; both issues
      exist, so it cannot fail. */
  method JiraStatus(jiraKey: string, issueId: string, config: SyncConfig, jira: JiraServer, linear: LinearServer)
    returns (n: nat)
    requires jiraKey in jira.records && issueId in linear.issues
    modifies jira`lookups, jira`records, jira`applied, linear`viewFetches
    ensures JiraRoutine(config, old(jira.records), linear.issues, jiraKey, issueId) == (n, jira.records)
    ensures config.dryRun ==> jira.applied == old(jira.applied)
  {
    var res := EnsureJiraStatusFromLinear(jiraKey, issueId, linear, jira, config.dryRun, config.statusForState);
    n := if res.value.Some? && res.value.value.changed then 1 else 0;
  }

  /** The status routines the mode asks for, on a mapped issue: what they
      report and leave is the status pass over the issues as they stood.
      With the mode off no team is fetched, with the Jira-to-Linear mode no
      Jira transition is applied, and a dry run updates nothing either
      way. */
  method SyncStatuses(jiraKey: string, issueId: string, config: SyncConfig, jira: JiraServer, linear: LinearServer,
                      cache: TeamStateCache)
    returns (r: Result<nat>)
    requires linear.Valid() && cache.Agrees(linear)
    modifies jira`lookups, jira`records, jira`applied
    modifies linear`issues, linear`viewFetches, linear`teamFetches, linear`stateUpdates, cache
    ensures linear.Valid() && cache.Agrees(linear)
    ensures old(cache.tables).Keys <= cache.tables.Keys
    ensures FetchedAtMostOnce(old(linear.teamFetches), linear.teamFetches, old(cache.tables).Keys, cache.tables.Keys, r.Ok?)
    ensures var status := StatusPass(config, linear.teams, old(jira.records), old(linear.issues), jiraKey, issueId);
      && (r.Ok? <==> status.Some?)
      && (r.Ok? ==> status.value == StatusEffect(r.value, jira.records, linear.issues))
    ensures config.statusMode == Off ==>
      (linear.stateUpdates, jira.applied, linear.teamFetches, cache.tables)
      == (old(linear.stateUpdates), old(jira.applied), old(linear.teamFetches), old(cache.tables))
    ensures config.statusMode != Bidirectional ==> jira.applied == old(jira.applied)
    ensures config.dryRun ==>
      (linear.stateUpdates, jira.applied, jira.records, linear.issues)
      == (old(linear.stateUpdates), old(jira.applied), old(jira.records), old(linear.issues))
  {
    if config.statusMode == Off {
      return Ok(0);
    }
    r := LinearStatus(jiraKey, issueId, config, jira, linear, cache);
    if r.Failure? || config.statusMode == JiraToLinear {
      return;
    }
    var n := JiraStatus(jiraKey, issueId, config, jira, linear);
    r := Ok(r.value + n);
  }

  // ---------------------------------------------------------------------
  // One issue

  /** Both comment-mirror loops on a mapped issue, Jira to Linear first. A dry
      run changes neither tracker and no comment table. */
  method SyncComments(prefix: string, jiraKey: string, issueId: string, dryRun: bool, store: JiraLinearMappingStore,
                      jira: JiraServer, linear: LinearServer)
    returns (r: Result<(nat, nat)>, ghost pass: CommentPass)
    requires linear.Valid()
    modifies store, jira`records, jira`nextCommentNumber, linear`issues, linear`nextCommentNumber, linear`viewFetches
    ensures linear.Valid()
    ensures (pass.store0, pass.records0, pass.issues0) == (old(store.Content()), old(jira.records), old(linear.issues))
    ensures (pass.store, pass.records, pass.issues) == (store.Content(), jira.records, linear.issues)
    ensures r.Ok? ==> Synced(prefix, jiraKey, issueId, dryRun)(pass, r.value)
    ensures dryRun ==>
      && jira.records == old(jira.records) && linear.issues == old(linear.issues)
      && store.Content() == old(store.Content())
  {
    ghost var store0, records0, issues0 := store.Content(), jira.records, linear.issues;
    var toLinear := SyncCommentsJiraToLinear(prefix, jiraKey, issueId, linear, jira, store, dryRun);
    ghost var mid := store.Content();
    pass := CommentPass(store0, records0, issues0, mid, mid, jira.records, linear.issues);
    if toLinear.Failure? {
      r := Failure(toLinear.reason);
      return;
    }
    // Both issues exist once the first loop has succeeded.
    var toJira := SyncCommentsLinearToJira(prefix, jiraKey, issueId, linear, jira, store, dryRun);
    pass := pass.(store := store.Content(), records := jira.records);
    r := Ok((toLinear.value, toJira.value));
    assert CommentsSynced(prefix, jiraKey, issueId, dryRun, pass, r.value);
  }

  /** The body of the run's loop once the issue has a Jira key: the status
      routines the mode asks for, then both comment loops on the issues as
      the routines left them. */
  method SyncMappedIssue(prefix: string, jiraKey: string, issueId: string, config: SyncConfig,
                         store: JiraLinearMappingStore, jira: JiraServer, linear: LinearServer, cache: TeamStateCache)
    returns (r: Result<IssueOutcome>, ghost pass: CommentPass)
    requires linear.Valid() && cache.Agrees(linear)
    modifies store, jira`lookups, jira`applied, jira`records, jira`nextCommentNumber
    modifies linear`issues, linear`nextCommentNumber, linear`viewFetches, linear`teamFetches, linear`stateUpdates, cache
    ensures linear.Valid() && cache.Agrees(linear)
    ensures old(cache.tables).Keys <= cache.tables.Keys
    ensures FetchedAtMostOnce(old(linear.teamFetches), linear.teamFetches, old(cache.tables).Keys, cache.tables.Keys, r.Ok?)
    ensures r.Ok? ==>
      && r.value.Mapped? && r.value.jiraKey == jiraKey
      && var status := StatusPass(config, linear.teams, old(jira.records), old(linear.issues), jiraKey, issueId);
      && status.Some?
      && (r.value.statusChanges, PassStart(pass), PassEnd(pass))
         == (status.value.changes, SyncState(old(store.Content()), status.value.records, status.value.issues),
             SyncState(store.Content(), jira.records, linear.issues))
      && Synced(prefix, jiraKey, issueId, config.dryRun)(pass, (r.value.jiraToLinear, r.value.linearToJira))
    ensures config.statusMode == Off ==>
      (linear.stateUpdates, jira.applied, linear.teamFetches, cache.tables)
      == old((linear.stateUpdates, jira.applied, linear.teamFetches, cache.tables))
    ensures config.statusMode == JiraToLinear ==> jira.applied == old(jira.applied)
    ensures config.dryRun ==>
      (linear.stateUpdates, jira.applied, jira.records, linear.issues, CommentTables(store.Content()))
      == old((linear.stateUpdates, jira.applied, jira.records, linear.issues, CommentTables(store.Content())))
  {
    ghost var store0 := store.Content();
    pass := CommentPass(store0, jira.records, linear.issues, store0, store0, jira.records, linear.issues);
    var changes := SyncStatuses(jiraKey, issueId, config, jira, linear, cache);
    if changes.Failure? {
      r := Failure(changes.reason);
    } else {
      var counts;
      counts, pass := SyncComments(prefix, jiraKey, issueId, config.dryRun, store, jira, linear);
      r := if counts.Failure? then Failure(counts.reason)
           else Ok(Mapped(jiraKey, changes.value, counts.value.0, counts.value.1));
    }
  }

  /** One issue's turn in the run: the state it found, its outcome, its
      comment pass and the state it left. */
  datatype IssueStep = IssueStep(start: SyncState, outcome: IssueOutcome, pass: CommentPass, end: SyncState)

  /** One issue's turn as the loop body takes it. The issue is skipped
      exactly when the resolver finds no key for it, and then nothing
      changes. A mapped issue carries the key the resolver settles on; its
      status changes are those of the status pass from the state it found,
      and its comment pass starts from the store the resolver left and the
      issues the status routines left, and ends in the state the turn
      leaves. */
  ghost predicate IssueTraced(prefix: string, config: SyncConfig, teams: map<string, seq<WorkflowState>>,
                              issueId: string, st: IssueStep)
  {
    var (key, paired) := Resolution(prefix, st.start.store, st.start.issues, st.start.records.Keys, issueId);
    match st.outcome
    case Skipped => issueId in st.start.issues && key.None? && st.end == st.start
    case Mapped(jiraKey, changes, toLinear, toJira) =>
      && key == Some(jiraKey)
      && var status := StatusPass(config, teams, st.start.records, st.start.issues, jiraKey, issueId);
      && status.Some? && changes == status.value.changes
      && PassStart(st.pass) == SyncState(paired, status.value.records, status.value.issues)
      && Synced(prefix, jiraKey, issueId, config.dryRun)(st.pass, (toLinear, toJira))
      && st.end == PassEnd(st.pass)
  }

  /** The body of the run's loop for one issue: resolve its Jira key, skip
      it without one, and otherwise sync its statuses and comments. With the
      mode off no status is touched and no team is fetched, with the
      Jira-to-Linear mode no Jira transition is applied, and a dry run
      changes neither tracker and no comment table. */
  method SyncIssue(prefix: string, issueId: string, config: SyncConfig, store: JiraLinearMappingStore,
                   jira: JiraServer, linear: LinearServer, cache: TeamStateCache)
    returns (r: Result<IssueOutcome>, ghost step: IssueStep)
    requires linear.Valid() && cache.Agrees(linear)
    modifies store, jira`lookups, jira`applied, jira`records, jira`nextCommentNumber
    modifies linear`issues, linear`nextCommentNumber, linear`viewFetches, linear`teamFetches, linear`stateUpdates, cache
    ensures linear.Valid() && cache.Agrees(linear)
    ensures old(cache.tables).Keys <= cache.tables.Keys
    ensures FetchedAtMostOnce(old(linear.teamFetches), linear.teamFetches, old(cache.tables).Keys, cache.tables.Keys, r.Ok?)
    ensures step.start == SyncState(old(store.Content()), old(jira.records), old(linear.issues))
    ensures step.end == SyncState(store.Content(), jira.records, linear.issues)
    ensures r.Ok? ==> step.outcome == r.value && IssueTraced(prefix, config, linear.teams, issueId, step)
    ensures r.Ok? && r.value.Skipped? ==> (jira.applied, linear.stateUpdates) == old((jira.applied, linear.stateUpdates))
    ensures config.statusMode == Off ==>
      (linear.stateUpdates, jira.applied, linear.teamFetches, cache.tables)
      == old((linear.stateUpdates, jira.applied, linear.teamFetches, cache.tables))
    ensures config.statusMode == JiraToLinear ==> jira.applied == old(jira.applied)
    ensures config.dryRun ==>
      (linear.stateUpdates, jira.applied, jira.records, linear.issues, CommentTables(store.Content()))
      == old((linear.stateUpdates, jira.applied, jira.records, linear.issues, CommentTables(store.Content())))
  {
    ghost var start := SyncState(store.Content(), jira.records, linear.issues);
    ghost var pass := CommentPass(start.store, start.records, start.issues, start.store, start.store,
                                  start.records, start.issues);
    var resolved := ResolveJiraKeyForLinearIssue(prefix, issueId, store, jira, linear);
    if resolved.Failure? {
      r := Failure(resolved.reason);
    } else if resolved.value.None? {
      // A resolved key is never empty, so `!jiraKey` is the missing-key test.
      r := Ok(Skipped);
    } else {
      r, pass := SyncMappedIssue(prefix, resolved.value.value, issueId, config, store, jira, linear, cache);
    }
    step := IssueStep(start, if r.Ok? then r.value else Skipped, pass,
                      SyncState(store.Content(), jira.records, linear.issues));
  }

  // ---------------------------------------------------------------------
  // The run

  /** `IssueTraced` for one run, as a test on an issue id and its step. */
  ghost function Traced(prefix: string, config: SyncConfig, teams: map<string, seq<WorkflowState>>)
    : (string, IssueStep) -> bool
  {
    (issueId, st) => IssueTraced(prefix, config, teams, issueId, st)
  }

  /** `ok` holds of each of the first `|steps|` ids and its step. */
  ghost predicate AllSteps<X, Y>(ids: seq<X>, steps: seq<Y>, ok: (X, Y) -> bool) {
    |steps| <= |ids| && forall k :: 0 <= k < |steps| ==> ok(ids[k], steps[k])
  }

  lemma AllStepsSnoc<X, Y>(ids: seq<X>, steps: seq<Y>, st: Y, ok: (X, Y) -> bool)
    requires AllSteps(ids, steps, ok) && |steps| < |ids| && ok(ids[|steps|], st)
    ensures AllSteps(ids, steps + [st], ok)
  {
  }

  /** The run's loop over the first `|steps|` of `issueIds`: one step per
      issue, in order, each taken as `IssueTraced` says, the first starting
      in `start`, each starting where the one before it ended, and the last
      ending in `end`. */
  ghost predicate RunTrace(prefix: string, config: SyncConfig, teams: map<string, seq<WorkflowState>>,
                           issueIds: seq<string>, steps: seq<IssueStep>, start: SyncState, end: SyncState)
  {
    && (if steps == [] then end == start else steps[0].start == start && steps[|steps| - 1].end == end)
    && (forall k :: 0 <= k < |steps| - 1 ==> steps[k].end == steps[k + 1].start)
    && AllSteps(issueIds, steps, Traced(prefix, config, teams))
  }

  /** The trace after one more issue. */
  lemma RunTraceSnoc(prefix: string, config: SyncConfig, teams: map<string, seq<WorkflowState>>,
                     issueIds: seq<string>, steps: seq<IssueStep>, start: SyncState, st: IssueStep)
    requires RunTrace(prefix, config, teams, issueIds, steps, start, st.start)
    requires |steps| < |issueIds|
    requires IssueTraced(prefix, config, teams, issueIds[|steps|], st)
    ensures RunTrace(prefix, config, teams, issueIds, steps + [st], start, st.end)
  {
    AllStepsSnoc(issueIds, steps, st, Traced(prefix, config, teams));
  }

  /** The summary after one more issue: the counters the loop body bumps. */
  function Tally(summary: RunSummary, outcome: IssueOutcome): RunSummary {
    match outcome
    case Skipped =>
      summary.(scanned := summary.scanned + 1, skippedNoJiraKey := summary.skippedNoJiraKey + 1)
    case Mapped(_, changes, toLinear, toJira) =>
      summary.(
        scanned := summary.scanned + 1,
        mapped := summary.mapped + 1,
        statusChanges := summary.statusChanges + changes,
        commentsJiraToLinear := summary.commentsJiraToLinear + toLinear,
        commentsLinearToJira := summary.commentsLinearToJira + toJira)
  }

  /** The summary the loop builds from a zero summary over the steps. */
  function Summarize(steps: seq<IssueStep>): RunSummary {
    if steps == [] then RunSummary(0, 0, 0, 0, 0, 0)
    else Tally(Summarize(steps[..|steps| - 1]), steps[|steps| - 1].outcome)
  }

  lemma SummarizeSnoc(steps: seq<IssueStep>, st: IssueStep)
    ensures Summarize(steps + [st]) == Tally(Summarize(steps), st.outcome)
  {
    assert (steps + [st])[..|steps|] == steps;
  }

  /** Every step is scanned once and counted as mapped or skipped, and when
      no outcome reports more than `routines` status changes, the summary
      has at most that many per mapped issue. */
  lemma {:induction false} SummarizeCounts(steps: seq<IssueStep>, routines: nat)
    requires forall k :: 0 <= k < |steps| && steps[k].outcome.Mapped? ==> steps[k].outcome.statusChanges <= routines
    ensures var s := Summarize(steps);
      && s.scanned == |steps| && s.mapped + s.skippedNoJiraKey == s.scanned
      && s.statusChanges <= routines * s.mapped
  {
    if steps != [] {
      var init := steps[..|steps| - 1];
      assert forall k :: 0 <= k < |init| ==> init[k] == steps[k];
      SummarizeCounts(init, routines);
      var m := Summarize(init).mapped;
      assert routines * (m + 1) == routines * m + routines;
    }
  }

  /** A traced run is summarized with every issue scanned once, each mapped
      or skipped, and at most one status change per routine the mode runs on
      each mapped issue. */
  lemma TraceCounts(prefix: string, config: SyncConfig, teams: map<string, seq<WorkflowState>>,
                    issueIds: seq<string>, steps: seq<IssueStep>, start: SyncState, end: SyncState)
    requires RunTrace(prefix, config, teams, issueIds, steps, start, end)
    ensures var s := Summarize(steps);
      && s.scanned == |steps| && s.mapped + s.skippedNoJiraKey == s.scanned
      && s.statusChanges <= StatusRoutines(config.statusMode) * s.mapped
  {
    var routines := StatusRoutines(config.statusMode);
    forall k | 0 <= k < |steps| && steps[k].outcome.Mapped?
      ensures steps[k].outcome.statusChanges <= routines
    {
      StepCounts(prefix, config, teams, issueIds[k], steps[k]);
    }
    SummarizeCounts(steps, routines);
  }

  /** A mapped step reports at most one status change per routine the mode
      runs. */
  lemma StepCounts(prefix: string, config: SyncConfig, teams: map<string, seq<WorkflowState>>, issueId: string,
                   st: IssueStep)
    requires Traced(prefix, config, teams)(issueId, st) && st.outcome.Mapped?
    ensures st.outcome.statusChanges <= StatusRoutines(config.statusMode)
  {
  }

  /** The loop of `runJiraLinearSync` over the listed issue ids, from a
      zero summary. The first failing issue aborts it. On success there is
      one traced step per issue, from the state before the loop to the state
      after it, and the summary is theirs. Whatever the outcome: with the
      mode off no status is touched and no team is fetched, with the
      Jira-to-Linear mode no Jira transition is applied, a dry run changes
      neither tracker and no comment table, and no team's states are fetched
      twice. */
  method SyncIssues(prefix: string, config: SyncConfig, issueIds: seq<string>, store: JiraLinearMappingStore,
                    jira: JiraServer, linear: LinearServer, cache: TeamStateCache)
    returns (r: Result<RunSummary>, ghost steps: seq<IssueStep>)
    requires linear.Valid() && cache.Agrees(linear)
    modifies store, jira`lookups, jira`applied, jira`records, jira`nextCommentNumber
    modifies linear`issues, linear`nextCommentNumber, linear`viewFetches, linear`teamFetches, linear`stateUpdates, cache
    ensures r.Ok? ==>
      && |steps| == |issueIds|
      && RunTrace(prefix, config, linear.teams, issueIds, steps,
                  SyncState(old(store.Content()), old(jira.records), old(linear.issues)),
                  SyncState(store.Content(), jira.records, linear.issues))
      && r.value == Summarize(steps)
      && r.value.scanned == |issueIds| && r.value.mapped + r.value.skippedNoJiraKey == r.value.scanned
      && r.value.statusChanges <= StatusRoutines(config.statusMode) * r.value.mapped
    ensures config.statusMode == Off ==>
      (linear.stateUpdates, jira.applied, linear.teamFetches)
      == (old(linear.stateUpdates), old(jira.applied), old(linear.teamFetches))
    ensures config.statusMode == JiraToLinear ==> jira.applied == old(jira.applied)
    ensures config.dryRun ==>
      (linear.stateUpdates, jira.applied, CommentTables(store.Content()), jira.records, linear.issues)
      == (old(linear.stateUpdates), old(jira.applied), CommentTables(old(store.Content())), old(jira.records),
          old(linear.issues))
    ensures |old(linear.teamFetches)| <= |linear.teamFetches|
    ensures linear.teamFetches[..|old(linear.teamFetches)|] == old(linear.teamFetches)
    ensures NoDuplicates(linear.teamFetches[|old(linear.teamFetches)|..])
  {
    ghost var start := SyncState(store.Content(), jira.records, linear.issues);
    steps := [];
    ghost var fetches0 := linear.teamFetches;
    var summary := RunSummary(0, 0, 0, 0, 0, 0);
    for i := 0 to |issueIds|
      invariant |steps| == i
      invariant linear.Valid() && cache.Agrees(linear)
      invariant RunTrace(prefix, config, linear.teams, issueIds, steps, start,
                         SyncState(store.Content(), jira.records, linear.issues))
      invariant summary == Summarize(steps)
      invariant config.statusMode == Off ==>
        (linear.stateUpdates, jira.applied, linear.teamFetches)
        == (old(linear.stateUpdates), old(jira.applied), old(linear.teamFetches))
      invariant config.statusMode == JiraToLinear ==> jira.applied == old(jira.applied)
      invariant config.dryRun ==>
        (linear.stateUpdates, jira.applied, CommentTables(store.Content()), jira.records, linear.issues)
        == (old(linear.stateUpdates), old(jira.applied), CommentTables(start.store), start.records, start.issues)
      invariant |fetches0| <= |linear.teamFetches| && linear.teamFetches[..|fetches0|] == fetches0
      invariant NoDuplicates(linear.teamFetches[|fetches0|..])
      invariant forall k :: |fetches0| <= k < |linear.teamFetches| ==> linear.teamFetches[k] in cache.tables
    {
      ghost var before := linear.teamFetches;
      ghost var cached := cache.tables.Keys;
      var outcome;
      ghost var step;
      outcome, step := SyncIssue(prefix, issueIds[i], config, store, jira, linear, cache);
      TeamLogStep(fetches0, before, linear.teamFetches, cached, cache.tables.Keys, outcome.Ok?);
      if outcome.Failure? {
        r := Failure(outcome.reason);
        return;
      }
      RunTraceSnoc(prefix, config, linear.teams, issueIds, steps, start, step);
      SummarizeSnoc(steps, step);
      summary := Tally(summary, outcome.value);
      steps := steps + [step];
    }
    TraceCounts(prefix, config, linear.teams, issueIds, steps, start, SyncState(store.Content(), jira.records, linear.issues));
    r := Ok(summary);
  }

  /** `runJiraLinearSync`. A missing project fails the run; otherwise the
      run is the loop over the project's issue ids, with a fresh team-state
      cache. */
  method RunJiraLinearSync(prefix: string, config: SyncConfig, store: JiraLinearMappingStore,
                           jira: JiraServer, linear: LinearServer)
    returns (r: Result<RunSummary>, ghost steps: seq<IssueStep>)
    requires linear.Valid()
    modifies store, jira`lookups, jira`applied, jira`records, jira`nextCommentNumber
    modifies linear`issues, linear`nextCommentNumber, linear`viewFetches, linear`teamFetches, linear`stateUpdates
    ensures config.projectId !in linear.projects ==> r.Failure?
    ensures r.Ok? ==>
      && config.projectId in linear.projects
      && var issueIds := linear.projects[config.projectId];
      && |steps| == |issueIds|
      && RunTrace(prefix, config, linear.teams, issueIds, steps,
                  SyncState(old(store.Content()), old(jira.records), old(linear.issues)),
                  SyncState(store.Content(), jira.records, linear.issues))
      && r.value == Summarize(steps)
      && r.value.scanned == |issueIds| && r.value.mapped + r.value.skippedNoJiraKey == r.value.scanned
      && r.value.statusChanges <= StatusRoutines(config.statusMode) * r.value.mapped
    ensures config.statusMode == Off ==>
      && linear.stateUpdates == old(linear.stateUpdates) && jira.applied == old(jira.applied)
      && linear.teamFetches == old(linear.teamFetches)
    ensures config.statusMode == JiraToLinear ==> jira.applied == old(jira.applied)
    ensures config.dryRun ==>
      && linear.stateUpdates == old(linear.stateUpdates) && jira.applied == old(jira.applied)
      && jira.records == old(jira.records) && linear.issues == old(linear.issues)
      && CommentTables(store.Content()) == CommentTables(old(store.Content()))
    ensures |old(linear.teamFetches)| <= |linear.teamFetches|
    ensures linear.teamFetches[..|old(linear.teamFetches)|] == old(linear.teamFetches)
    ensures NoDuplicates(linear.teamFetches[|old(linear.teamFetches)|..])
  {
    var listed := linear.FetchProjectIssueIds(config.projectId);
    if listed.Failure? {
      r, steps := Failure(listed.reason), [];
      return;
    }
    var cache := new TeamStateCache();
    r, steps := SyncIssues(prefix, config, listed.value, store, jira, linear, cache);
  }
}
