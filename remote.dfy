/** The two trackers as the engine sees them: in-memory stand-ins for the Jira
    REST client and the Linear GraphQL client, each operation a small method
    over the remote state. A call on a missing issue, team or project fails
    (the source throws); the ghost fields log calls in order. */
module Remote {
  import opened Wrappers
  import opened Strings
  import opened Adf

  /** Decimal digits of `n`, used to mint comment ids. */
  function NatToString(n: nat): (s: string)
    ensures |s| > 0
  {
    var d := "0123456789"[n % 10];
    if n < 10 then [d] else NatToString(n / 10) + [d]
  }

  // ---------------------------------------------------------------------
  // Jira

  /** The fields of `getIssue`: the status name and the status category key
      (absent when Jira gives none). */
  datatype JiraIssue = JiraIssue(statusName: string, categoryKey: Option<string>)

  /** A Jira comment; a missing id is the empty string and the body is the
      comment's ADF document. */
  datatype JiraComment = JiraComment(id: string, created: string, authorName: Option<string>, body: Adf)

  /** A workflow transition; `toName` is the name of its target status when
      Jira reports one. */
  datatype Transition = Transition(id: string, name: string, toName: Option<string>)

  datatype JiraRecord = JiraRecord(issue: JiraIssue, comments: seq<JiraComment>, transitions: seq<Transition>)

  /** The index of the first element whose id (as `idOf` reads it) is
      `id`. */
  function FirstWithId<T>(xs: seq<T>, idOf: T -> string, id: string): (r: Option<nat>)
    ensures r.Some? ==> r.value < |xs| && idOf(xs[r.value]) == id
    ensures forall k :: 0 <= k < |xs| && (r.Some? ==> k < r.value) ==> idOf(xs[k]) != id
  {
    if xs == [] then None
    else if idOf(xs[0]) == id then Some(0)
    else match FirstWithId(xs[1..], idOf, id)
      case None => None
      case Some(i) => Some(i + 1)
  }

  function TransitionId(t: Transition): string { t.id }

  /** The record once the transition with the given id is applied (`None`
      when the issue offers no such transition): the issue takes the
      transition's target status when Jira names it. Comments and offered
      transitions stay as they are. */
  function Transitioned(rec: JiraRecord, transitionId: string): (r: Option<JiraRecord>)
    ensures r.Some? <==> exists k :: 0 <= k < |rec.transitions| && rec.transitions[k].id == transitionId
    ensures r.Some? ==> r.value.comments == rec.comments && r.value.transitions == rec.transitions
  {
    match FirstWithId(rec.transitions, TransitionId, transitionId)
    case None => None
    case Some(i) =>
      match rec.transitions[i].toName
      case None => Some(rec)
      case Some(name) => Some(rec.(issue := rec.issue.(statusName := name)))
  }

  class JiraServer {
    var records: map<string, JiraRecord>
    var nextCommentNumber: nat
    /** Keys passed to `getIssue`, in call order. */
    ghost var lookups: seq<string>
    /** `(key, transition id)` for every transition applied, in order. */
    ghost var applied: seq<(string, string)>

    constructor (records: map<string, JiraRecord>)
      ensures this.records == records && nextCommentNumber == 0
      ensures lookups == [] && applied == []
    {
      this.records := records;
      nextCommentNumber := 0;
      lookups := [];
      applied := [];
    }

    /** `getIssue`: succeeds exactly for an existing key. */
    method GetIssue(key: string) returns (r: Result<JiraIssue>)
      modifies this`lookups
      ensures r.Ok? <==> key in records
      ensures r.Ok? ==> r.value == records[key].issue
      ensures lookups == old(lookups) + [key]
    {
      lookups := lookups + [key];
      if key in records {
        r := Ok(records[key].issue);
      } else {
        r := Failure("Jira API HTTP 404");
      }
    }

    /** `listComments`, with every page followed: the complete list. */
    method ListComments(key: string) returns (r: Result<seq<JiraComment>>)
      ensures r.Ok? <==> key in records
      ensures r.Ok? ==> r.value == records[key].comments
    {
      if key in records {
        r := Ok(records[key].comments);
      } else {
        r := Failure("Jira API HTTP 404");
      }
    }

    /** `addComment`: the text is sent as `textToAdf(text)` and Jira answers
        with the new comment's id. */
    method AddComment(key: string, text: string) returns (r: Result<string>)
      modifies this`records, this`nextCommentNumber
      ensures r.Ok? <==> key in old(records)
      ensures r.Ok? ==> r.value != ""
      ensures r.Ok? ==> records == old(records)[key := old(records)[key].(comments :=
        old(records)[key].comments + [JiraComment(r.value, "", None, DocOf(text))])]
      ensures r.Failure? ==> records == old(records)
    {
      if key in records {
        var body := TextToAdf(text);
        var id := NatToString(nextCommentNumber);
        nextCommentNumber := nextCommentNumber + 1;
        var rec := records[key];
        records := records[key := rec.(comments := rec.comments + [JiraComment(id, "", None, body)])];
        r := Ok(id);
      } else {
        r := Failure("Jira API HTTP 404");
      }
    }

    /** `listTransitions`. */
    method ListTransitions(key: string) returns (r: Result<seq<Transition>>)
      ensures r.Ok? <==> key in records
      ensures r.Ok? ==> r.value == records[key].transitions
    {
      if key in records {
        r := Ok(records[key].transitions);
      } else {
        r := Failure("Jira API HTTP 404");
      }
    }

    /** `transitionIssue`: Jira refuses a transition the issue does not
        offer; otherwise the issue moves to the transition's target status. */
    method TransitionIssue(key: string, transitionId: string) returns (r: Result<()>)
      modifies this`records, this`applied
      ensures r.Ok? <==> key in old(records) && Transitioned(old(records)[key], transitionId).Some?
      ensures r.Ok? ==>
        && records == old(records)[key := Transitioned(old(records)[key], transitionId).value]
        && applied == old(applied) + [(key, transitionId)]
      ensures r.Failure? ==> records == old(records) && applied == old(applied)
    {
      if key !in records {
        return Failure("Jira API HTTP 404");
      }
      var next := Transitioned(records[key], transitionId);
      if next.None? {
        return Failure("Jira API HTTP 400");
      }
      records := records[key := next.value];
      applied := applied + [(key, transitionId)];
      r := Ok(());
    }
  }

  // ---------------------------------------------------------------------
  // Linear

  datatype Attachment = Attachment(url: Option<string>)
  datatype LinearUser = LinearUser(id: string, name: Option<string>)
  datatype LinearComment = LinearComment(id: string, body: string, createdAt: string, user: Option<LinearUser>)
  datatype WorkflowState = WorkflowState(id: string, name: string)

  /** The fields of `fetchIssueSyncView`. */
  datatype LinearIssue = LinearIssue(
    id: string,
    title: string,
    description: Option<string>,
    url: Option<string>,
    teamId: string,
    stateName: string,
    attachments: seq<Attachment>,
    comments: seq<LinearComment>)

  /** The name-to-id table `fetchTeamStatesByName` builds: one entry per state
      name, where a later state of the same name wins. */
  function StatesByName(states: seq<WorkflowState>): map<string, string> {
    if states == [] then map[]
    else StatesByName(states[..|states| - 1])[states[|states| - 1].name := states[|states| - 1].id]
  }

  /** The table has one entry per state name, and the entry for a name is the
      id of the last state carrying that name. */
  lemma {:induction false} StatesByNameLastWins(states: seq<WorkflowState>)
    ensures forall name :: name in StatesByName(states) <==> exists k :: 0 <= k < |states| && states[k].name == name
    ensures forall k :: (0 <= k < |states| && (forall j :: k < j < |states| ==> states[j].name != states[k].name)
      ==> StatesByName(states)[states[k].name] == states[k].id)
    ensures forall name :: name in StatesByName(states) ==>
      exists k :: 0 <= k < |states| && states[k].name == name && states[k].id == StatesByName(states)[name]
  {
    if states != [] {
      var init := states[..|states| - 1];
      StatesByNameLastWins(init);
      assert forall k :: 0 <= k < |init| ==> init[k] == states[k];
    }
  }

  lemma StatesByNameSnoc(states: seq<WorkflowState>, s: WorkflowState)
    ensures StatesByName(states + [s]) == StatesByName(states)[s.name := s.id]
  {
    assert (states + [s])[..|states|] == states;
  }

  /** The loop of `fetchTeamStatesByName`: `map.set(s.name, s.id)` for each
      state in order. */
  method BuildStatesByName(states: seq<WorkflowState>) returns (m: map<string, string>)
    ensures m == StatesByName(states)
  {
    m := map[];
    for k := 0 to |states|
      invariant m == StatesByName(states[..k])
    {
      StatesByNameSnoc(states[..k], states[k]);
      TakeNext(states, k);
      m := m[states[k].name := states[k].id];
    }
    assert states[..|states|] == states;
  }

  predicate DistinctIds(states: seq<WorkflowState>) {
    forall i, j :: 0 <= i < j < |states| ==> states[i].id != states[j].id
  }

  function StateId(st: WorkflowState): string { st.id }

  /** The issue moved to the state of its team with the given id (`None`
      when the team has no such state). */
  function MovedTo(issue: LinearIssue, teams: map<string, seq<WorkflowState>>, stateId: string): (r: Option<LinearIssue>)
    ensures r.Some? <==> issue.teamId in teams
                         && exists k :: 0 <= k < |teams[issue.teamId]| && teams[issue.teamId][k].id == stateId
    ensures r.Some? ==> r.value == issue.(stateName := r.value.stateName)
  {
    if issue.teamId !in teams then None
    else
      match FirstWithId(teams[issue.teamId], StateId, stateId)
      case None => None
      case Some(k) => Some(issue.(stateName := teams[issue.teamId][k].name))
  }

  /** With distinct ids, a state's id leads back to that state. */
  lemma FirstWithStateId(states: seq<WorkflowState>, k: nat)
    requires DistinctIds(states) && k < |states|
    ensures FirstWithId(states, StateId, states[k].id) == Some(k)
  {
    var i := FirstWithId(states, StateId, states[k].id);
    assert i.Some? && i.value <= k;
  }

  /** With distinct state ids, the id the name-to-id table gives for a name
      moves the issue to the state of that name. */
  lemma MovedToNamed(issue: LinearIssue, teams: map<string, seq<WorkflowState>>, name: string)
    requires issue.teamId in teams && DistinctIds(teams[issue.teamId])
    requires name in StatesByName(teams[issue.teamId])
    ensures MovedTo(issue, teams, StatesByName(teams[issue.teamId])[name]) == Some(issue.(stateName := name))
  {
    var states := teams[issue.teamId];
    StatesByNameLastWins(states);
    var k :| 0 <= k < |states| && states[k].name == name && states[k].id == StatesByName(states)[name];
    FirstWithStateId(states, k);
  }

  class LinearServer {
    var issues: map<string, LinearIssue>
    var teams: map<string, seq<WorkflowState>>
    var projects: map<string, seq<string>>
    var nextCommentNumber: nat
    /** Issue ids passed to `fetchIssueSyncView`, in call order. */
    ghost var viewFetches: seq<string>
    /** Team ids passed to `fetchTeamStatesByName`, in call order. */
    ghost var teamFetches: seq<string>
    /** `(issue id, state id)` for every issue update, in order. */
    ghost var stateUpdates: seq<(string, string)>

    /** Fetching an issue by id yields that issue: every issue record carries
        the id it is filed under; and no team has two states with one id. */
    ghost predicate Valid()
      reads this
    {
      && (forall id :: id in issues ==> issues[id].id == id)
      && (forall t :: t in teams ==> DistinctIds(teams[t]))
    }

    constructor (issues: map<string, LinearIssue>, teams: map<string, seq<WorkflowState>>, projects: map<string, seq<string>>)
      ensures this.issues == issues && this.teams == teams && this.projects == projects
      ensures nextCommentNumber == 0 && viewFetches == [] && teamFetches == [] && stateUpdates == []
    {
      this.issues := issues;
      this.teams := teams;
      this.projects := projects;
      nextCommentNumber := 0;
      viewFetches := [];
      teamFetches := [];
      stateUpdates := [];
    }

    /** `fetchIssueSyncView`: fails with "Issue not found" for an unknown id. */
    method FetchIssueSyncView(issueId: string) returns (r: Result<LinearIssue>)
      modifies this`viewFetches
      ensures r.Ok? <==> issueId in issues
      ensures r.Ok? ==> r.value == issues[issueId]
      ensures viewFetches == old(viewFetches) + [issueId]
    {
      viewFetches := viewFetches + [issueId];
      if issueId in issues {
        r := Ok(issues[issueId]);
      } else {
        r := Failure("Issue not found");
      }
    }

    /** `fetchProjectIssueIds`, with every page followed. */
    method FetchProjectIssueIds(projectId: string) returns (r: Result<seq<string>>)
      ensures r.Ok? <==> projectId in projects
      ensures r.Ok? ==> r.value == projects[projectId]
    {
      if projectId in projects {
        r := Ok(projects[projectId]);
      } else {
        r := Failure("Project not found");
      }
    }

    /** `fetchTeamStatesByName`. */
    method FetchTeamStatesByName(teamId: string) returns (r: Result<map<string, string>>)
      modifies this`teamFetches
      ensures r.Ok? <==> teamId in teams
      ensures r.Ok? ==> r.value == StatesByName(teams[teamId])
      ensures teamFetches == old(teamFetches) + [teamId]
    {
      teamFetches := teamFetches + [teamId];
      if teamId !in teams {
        return Failure("Team not found");
      }
      var m := BuildStatesByName(teams[teamId]);
      r := Ok(m);
    }

    /** `updateIssue` with a new state: Linear refuses an unknown issue or a
        state its team does not have; otherwise the issue moves to that
        state. */
    method UpdateIssue(issueId: string, stateId: string) returns (r: Result<()>)
      requires Valid()
      modifies this`issues, this`stateUpdates
      ensures Valid()
      ensures r.Ok? <==> issueId in old(issues) && MovedTo(old(issues)[issueId], teams, stateId).Some?
      ensures r.Ok? ==>
        && issues == old(issues)[issueId := MovedTo(old(issues)[issueId], teams, stateId).value]
        && stateUpdates == old(stateUpdates) + [(issueId, stateId)]
      ensures r.Failure? ==> issues == old(issues) && stateUpdates == old(stateUpdates)
    {
      if issueId !in issues || MovedTo(issues[issueId], teams, stateId).None? {
        return Failure("issueUpdate failed");
      }
      issues := issues[issueId := MovedTo(issues[issueId], teams, stateId).value];
      stateUpdates := stateUpdates + [(issueId, stateId)];
      r := Ok(());
    }

    /** `createComment`: Linear answers with the new comment's id. */
    method CreateComment(issueId: string, body: string) returns (r: Result<string>)
      modifies this`issues, this`nextCommentNumber
      ensures r.Ok? <==> issueId in old(issues)
      ensures r.Ok? ==> r.value != ""
      ensures r.Ok? ==> issues == old(issues)[issueId := old(issues)[issueId].(comments :=
        old(issues)[issueId].comments + [LinearComment(r.value, body, "", None)])]
      ensures r.Failure? ==> issues == old(issues)
    {
      if issueId in issues {
        var id := NatToString(nextCommentNumber);
        nextCommentNumber := nextCommentNumber + 1;
        var issue := issues[issueId];
        issues := issues[issueId := issue.(comments := issue.comments + [LinearComment(id, body, "", None)])];
        r := Ok(id);
      } else {
        r := Failure("commentCreate failed");
      }
    }
  }
}
