/** The two status routines: `ensureLinearStateFromJira`, with the per-run
    cache of team workflow states, and `ensureJiraStatusFromLinear`. Each is
    specified by a plan computed from the remote state alone. */
module StatusSync {
  import opened Wrappers
  import opened MappingStore
  import opened Remote
  import opened SyncText

  // ---------------------------------------------------------------------
  // Jira to Linear

  /** The override for the Jira status name when one is configured (kept
      even when it is the empty string, as `??` keeps it), otherwise the
      state configured for the status category, an unknown category counting
      as `indeterminate`. */
  function DesiredLinearStateName(categoryStates: map<Category, string>, overrides: Option<map<string, string>>,
                                  issue: JiraIssue): (r: Option<string>)
    ensures overrides.Some? && issue.statusName in overrides.value ==> r == Some(overrides.value[issue.statusName])
    ensures !(overrides.Some? && issue.statusName in overrides.value) ==>
      var cat := if StatusCategoryKey(issue.categoryKey).Some? then StatusCategoryKey(issue.categoryKey).value else Indeterminate;
      (r.Some? <==> cat in categoryStates) && (r.Some? ==> r.value == categoryStates[cat])
  {
    if overrides.Some? && issue.statusName in overrides.value then Some(overrides.value[issue.statusName])
    else
      var cat := StatusCategoryKey(issue.categoryKey).GetOr(Indeterminate);
      if cat in categoryStates then Some(categoryStates[cat]) else None
  }

  datatype LinearStateChange = LinearStateChange(changed: bool, desiredStateName: string, desiredStateId: Option<string>)

  /** Whether the routine has to look the desired state up in the team's
      workflow states: a non-empty desired name the issue is not in yet. */
  predicate NeedsTeamStates(desired: Option<string>, current: string) {
    desired.Some? && desired.value != "" && desired.value != current
  }

  /** The outcome once the team's states are known (they are consulted only
      when `NeedsTeamStates`). */
  function LinearStateOutcome(desired: Option<string>, current: string, states: map<string, string>): (r: Option<LinearStateChange>)
    ensures desired.None? || desired.value == "" ==> r.None?
    ensures desired.Some? && desired.value != "" && desired.value == current ==> r == Some(LinearStateChange(false, current, None))
    ensures NeedsTeamStates(desired, current) ==>
      (r.Some? <==> Mirrored(states, desired.value))
      && (r.Some? ==> r.value == LinearStateChange(true, desired.value, Some(states[desired.value])))
  {
    if desired.None? || desired.value == "" then None
    else if desired.value == current then Some(LinearStateChange(false, desired.value, None))
    else if desired.value !in states || states[desired.value] == "" then None
    else Some(LinearStateChange(true, desired.value, Some(states[desired.value])))
  }

  /** What `ensureLinearStateFromJira` decides for a Jira issue and a Linear
      issue view, given the teams' workflow states; the only failure is a
      missing team when its states are needed. */
  function LinearStatePlan(categoryStates: map<Category, string>, overrides: Option<map<string, string>>,
                           issue: JiraIssue, view: LinearIssue, teams: map<string, seq<WorkflowState>>)
    : Result<Option<LinearStateChange>>
  {
    var desired := DesiredLinearStateName(categoryStates, overrides, issue);
    if !NeedsTeamStates(desired, view.stateName) then Ok(LinearStateOutcome(desired, view.stateName, map[]))
    else if view.teamId !in teams then Failure("Team not found")
    else Ok(LinearStateOutcome(desired, view.stateName, StatesByName(teams[view.teamId])))
  }

  /** A change is reported only for a state the team has, by a non-empty id
      and under the desired name; a name the issue already has is never a
      change. */
  lemma LinearStatePlanSound(categoryStates: map<Category, string>, overrides: Option<map<string, string>>,
                             issue: JiraIssue, view: LinearIssue, teams: map<string, seq<WorkflowState>>)
    requires LinearStatePlan(categoryStates, overrides, issue, view, teams).Ok?
    ensures var p := LinearStatePlan(categoryStates, overrides, issue, view, teams).value;
      var desired := DesiredLinearStateName(categoryStates, overrides, issue);
      && (p.Some? ==> desired == Some(p.value.desiredStateName) && p.value.desiredStateName != "")
      && (p.Some? && p.value.changed ==>
            && p.value.desiredStateName != view.stateName
            && view.teamId in teams
            && p.value.desiredStateId.Some? && p.value.desiredStateId.value != ""
            && exists k :: 0 <= k < |teams[view.teamId]| && teams[view.teamId][k].name == p.value.desiredStateName
                           && teams[view.teamId][k].id == p.value.desiredStateId.value)
      && (p.Some? && !p.value.changed ==> p.value.desiredStateName == view.stateName)
  {
    var desired := DesiredLinearStateName(categoryStates, overrides, issue);
    if NeedsTeamStates(desired, view.stateName) {
      if view.teamId in teams {
        StatesByNameLastWins(teams[view.teamId]);
      }
    }
  }

  /** The per-run `teamStateCache`: team id to that team's name-to-id table. */
  class TeamStateCache {
    var tables: map<string, map<string, string>>

    constructor ()
      ensures tables == map[]
    {
      tables := map[];
    }

    /** Every cached table is what fetching that team's states gives. */
    ghost predicate Agrees(linear: LinearServer)
      reads this, linear
    {
      forall t :: t in tables ==> t in linear.teams && tables[t] == StatesByName(linear.teams[t])
    }
  }

  /** The team's states, from the cache or, on a miss, fetched once and
      cached. */
  method TeamStates(teamId: string, linear: LinearServer, cache: TeamStateCache) returns (r: Result<map<string, string>>)
    requires cache.Agrees(linear)
    modifies cache, linear`teamFetches
    ensures cache.Agrees(linear)
    ensures r.Ok? <==> teamId in linear.teams
    ensures r.Ok? ==> r.value == StatesByName(linear.teams[teamId]) && teamId in cache.tables
    ensures old(cache.tables).Keys <= cache.tables.Keys
    ensures teamId in old(cache.tables) ==> linear.teamFetches == old(linear.teamFetches) && cache.tables == old(cache.tables)
    ensures teamId !in old(cache.tables) ==>
      && linear.teamFetches == old(linear.teamFetches) + [teamId]
      && cache.tables.Keys == old(cache.tables).Keys + (if r.Ok? then {teamId} else {})
  {
    if teamId in cache.tables {
      return Ok(cache.tables[teamId]);
    }
    r := linear.FetchTeamStatesByName(teamId);
    if r.Ok? {
      cache.tables := cache.tables[teamId := r.value];
    }
  }

  /** `ensureLinearStateFromJira`. Both issues are fetched (a missing one
      aborts); the result is the plan, the team's states are fetched only on
      a cache miss when the plan needs them, and the Linear issue is moved to
      the desired state only for a change outside a dry run. */
  method EnsureLinearStateFromJira(jiraKey: string, issueId: string, linear: LinearServer, jira: JiraServer,
                                   dryRun: bool, categoryStates: map<Category, string>,
                                   overrides: Option<map<string, string>>, cache: TeamStateCache)
    returns (r: Result<Option<LinearStateChange>>)
    requires linear.Valid() && cache.Agrees(linear)
    modifies jira`lookups, linear`issues, linear`viewFetches, linear`teamFetches, linear`stateUpdates, cache
    ensures linear.Valid() && cache.Agrees(linear)
    ensures jira.lookups == old(jira.lookups) + [jiraKey]
    ensures linear.viewFetches == old(linear.viewFetches) + [issueId]
    ensures jiraKey !in jira.records || issueId !in old(linear.issues) ==> r.Failure?
    ensures jiraKey in jira.records && issueId in old(linear.issues) ==>
      var plan := LinearStatePlan(categoryStates, overrides, jira.records[jiraKey].issue, old(linear.issues)[issueId],
                                  linear.teams);
      (r.Ok? <==> plan.Ok?) && (r.Ok? ==> r.value == plan.value)
    ensures r.Ok? && r.value.Some? && r.value.value.changed && !dryRun ==>
      && linear.issues == old(linear.issues)[issueId := old(linear.issues)[issueId].(stateName := r.value.value.desiredStateName)]
      && linear.stateUpdates == old(linear.stateUpdates) + [(issueId, r.value.value.desiredStateId.value)]
    ensures !(r.Ok? && r.value.Some? && r.value.value.changed && !dryRun) ==>
      linear.issues == old(linear.issues) && linear.stateUpdates == old(linear.stateUpdates)
    ensures old(cache.tables).Keys <= cache.tables.Keys
    ensures linear.teamFetches == old(linear.teamFetches)
      || (&& issueId in old(linear.issues)
          && var teamId := old(linear.issues)[issueId].teamId;
          && linear.teamFetches == old(linear.teamFetches) + [teamId]
          && teamId !in old(cache.tables)
          && (teamId in linear.teams ==> teamId in cache.tables)
          && (r.Ok? ==> teamId in cache.tables))
  {
    var jiraIssue := jira.GetIssue(jiraKey);
    var fetched := linear.FetchIssueSyncView(issueId);
    if jiraIssue.Failure? {
      return Failure(jiraIssue.reason);
    }
    if fetched.Failure? {
      return Failure(fetched.reason);
    }
    var view := fetched.value;
    var desired := DesiredLinearStateName(categoryStates, overrides, jiraIssue.value);
    if desired.None? || desired.value == "" {
      return Ok(None);
    }
    if view.stateName == desired.value {
      return Ok(Some(LinearStateChange(false, desired.value, None)));
    }
    var states := TeamStates(view.teamId, linear, cache);
    if states.Failure? {
      return Failure(states.reason);
    }
    var table := states.value;
    if desired.value !in table || table[desired.value] == "" {
      return Ok(None);
    }
    var stateId := table[desired.value];
    if !dryRun {
      // The id comes from the team's own states, so Linear accepts it.
      MovedToNamed(view, linear.teams, desired.value);
      var updated := linear.UpdateIssue(view.id, stateId);
      assert updated.Ok?;
    }
    r := Ok(Some(LinearStateChange(true, desired.value, Some(stateId))));
  }

  // ---------------------------------------------------------------------
  // Linear to Jira

  datatype JiraStatusChange = JiraStatusChange(changed: bool, desiredStatusName: string)

  /** `transitions.find(t => t.to?.name === name)`: the first transition
      into the named status. */
  function FirstByTarget(ts: seq<Transition>, name: string): (r: Option<nat>)
    ensures r.Some? ==> r.value < |ts| && ts[r.value].toName == Some(name)
    ensures forall k :: 0 <= k < |ts| && (r.Some? ==> k < r.value) ==> ts[k].toName != Some(name)
  {
    if ts == [] then None
    else if ts[0].toName == Some(name) then Some(0)
    else match FirstByTarget(ts[1..], name)
      case None => None
      case Some(i) => Some(i + 1)
  }

  /** `transitions.find(t => t.name === name)`: the first transition
      carrying the name itself. */
  function FirstByName(ts: seq<Transition>, name: string): (r: Option<nat>)
    ensures r.Some? ==> r.value < |ts| && ts[r.value].name == name
    ensures forall k :: 0 <= k < |ts| && (r.Some? ==> k < r.value) ==> ts[k].name != name
  {
    if ts == [] then None
    else if ts[0].name == name then Some(0)
    else match FirstByName(ts[1..], name)
      case None => None
      case Some(i) => Some(i + 1)
  }

  /** The transition `ensureJiraStatusFromLinear` applies: the first one into
      the desired status, and only when there is none, the first one named
      like it. */
  function MatchTransition(ts: seq<Transition>, name: string): (r: Option<Transition>)
    ensures r.None? <==> forall k :: 0 <= k < |ts| ==> ts[k].toName != Some(name) && ts[k].name != name
    ensures FirstByTarget(ts, name).Some? ==> r == Some(ts[FirstByTarget(ts, name).value])
    ensures FirstByTarget(ts, name).None? && r.Some? ==> r == Some(ts[FirstByName(ts, name).value])
    ensures r.Some? ==> r.value in ts && (r.value.toName == Some(name) || r.value.name == name)
  {
    match FirstByTarget(ts, name)
    case Some(i) => Some(ts[i])
    case None =>
      match FirstByName(ts, name)
      case Some(j) => Some(ts[j])
      case None => None
  }

  /** What `ensureJiraStatusFromLinear` decides: nothing without a non-empty
      mapped status, no change when Jira already has it, nothing when no
      transition leads there, and otherwise a change. */
  function JiraStatusPlan(statusForState: map<string, string>, issue: JiraRecord, view: LinearIssue): (r: Option<JiraStatusChange>)
    ensures r.Some? ==> view.stateName in statusForState && r.value.desiredStatusName == statusForState[view.stateName]
                        && r.value.desiredStatusName != ""
    ensures r.Some? && !r.value.changed ==> issue.issue.statusName == r.value.desiredStatusName
    ensures r.Some? && r.value.changed ==> issue.issue.statusName != r.value.desiredStatusName
                                           && MatchTransition(issue.transitions, r.value.desiredStatusName).Some?
    ensures r.None? ==> (!Mirrored(statusForState, view.stateName)
      || (issue.issue.statusName != statusForState[view.stateName]
          && MatchTransition(issue.transitions, statusForState[view.stateName]).None?))
  {
    if view.stateName !in statusForState || statusForState[view.stateName] == "" then None
    else
      var desired := statusForState[view.stateName];
      if issue.issue.statusName == desired then Some(JiraStatusChange(false, desired))
      else if MatchTransition(issue.transitions, desired).None? then None
      else Some(JiraStatusChange(true, desired))
  }

  /** `ensureJiraStatusFromLinear`. Both issues are fetched (a missing one
      aborts); the result is the plan, and the matched transition is applied
      only for a change outside a dry run. */
  method EnsureJiraStatusFromLinear(jiraKey: string, issueId: string, linear: LinearServer, jira: JiraServer,
                                    dryRun: bool, statusForState: map<string, string>)
    returns (r: Result<Option<JiraStatusChange>>)
    modifies jira`lookups, jira`records, jira`applied, linear`viewFetches
    ensures jira.lookups == old(jira.lookups) + [jiraKey]
    ensures linear.viewFetches == old(linear.viewFetches) + [issueId]
    ensures r.Ok? <==> jiraKey in old(jira.records) && issueId in linear.issues
    ensures r.Ok? ==> r.value == JiraStatusPlan(statusForState, old(jira.records)[jiraKey], linear.issues[issueId])
    ensures r.Ok? && r.value.Some? && r.value.value.changed && !dryRun ==>
      var rec := old(jira.records)[jiraKey];
      var id := MatchTransition(rec.transitions, r.value.value.desiredStatusName).value.id;
      && Transitioned(rec, id).Some?
      && jira.records == old(jira.records)[jiraKey := Transitioned(rec, id).value]
      && jira.applied == old(jira.applied) + [(jiraKey, id)]
    ensures !(r.Ok? && r.value.Some? && r.value.value.changed && !dryRun) ==>
      jira.records == old(jira.records) && jira.applied == old(jira.applied)
  {
    var jiraIssue := jira.GetIssue(jiraKey);
    var fetched := linear.FetchIssueSyncView(issueId);
    if jiraIssue.Failure? {
      return Failure(jiraIssue.reason);
    }
    if fetched.Failure? {
      return Failure(fetched.reason);
    }
    var view := fetched.value;
    if view.stateName !in statusForState || statusForState[view.stateName] == "" {
      return Ok(None);
    }
    var desired := statusForState[view.stateName];
    if jiraIssue.value.statusName == desired {
      return Ok(Some(JiraStatusChange(false, desired)));
    }
    var transitions := jira.ListTransitions(jiraKey);
    var m := MatchTransition(transitions.value, desired);
    if m.None? {
      return Ok(None);
    }
    if !dryRun {
      // The transition is one the issue offers, so Jira accepts it.
      assert m.value in transitions.value;
      var applied := jira.TransitionIssue(jiraKey, m.value.id);
      assert applied.Ok?;
    }
    r := Ok(Some(JiraStatusChange(true, desired)));
  }
}
