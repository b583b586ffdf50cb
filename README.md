# Jira ↔ Linear sync engine, modelled in Dafny

This project models the reconciliation engine of the `jira-linear-sync`
service. It is one run over the issues of a Linear project:

- **Resolve** each Linear issue to a Jira issue key. The sources are the mapping
  store, the issue's own marker line, its attachments' URLs, and its title and
  description. A candidate key is accepted only after Jira confirms that the
  issue exists.
- **Sync status** in one or both directions:
  - the Jira status category, or a per-status override, decides the Linear
    workflow state;
  - the Linear state decides the Jira transition (bidirectional mode only).
- **Mirror comments** both ways. Each mirrored comment carries a marker line
  (`<prefix> source:jira …` or `<prefix> source:linear …`). Three checks keep a
  comment from being mirrored twice or echoed back:
  - the store's comment tables;
  - the markers;
  - a body-identity check.

Two behaviours of the source are kept as they are:
- In a dry run, the resolver still stores the issue pairs it discovers.
- In a dry run, a repeated Jira comment id is counted again, since no pair is
  recorded between the two.

Plain text and Jira's ADF document format are converted both ways: each line
becomes a text node, and hard breaks separate the lines.

The modules follow the source files:

| module | file | source |
|---|---|---|
| `Wrappers` | `wrappers.dfy` | `Option` / `Result` |
| `Strings` | `strings.dfy` | the JavaScript string operations the engine uses (`trimEnd`, `includes`, `split`, `join`) |
| `Adf` | `adf.dfy` | `textToAdf`, `adfToPlainText`, `normalizeBaseUrl` of `jiraClient.ts` |
| `MappingStore` | `mapping_store.dfy` | `jiraLinearMappingStore.ts`: a class over the JSON file's four tables |
| `Remote` | `remote.dfy` | the Jira REST client and the Linear GraphQL client, as classes over in-memory tracker state |
| `JiraKeys` | `jira_keys.dfy` | the three Jira-key regular expressions of `jiraLinearSync.ts` |
| `SyncText` | `sync_text.dfy` | marker lines, status categories and the mirrored comment bodies |
| `Resolver` | `resolver.dfy` | `resolveJiraKeyForLinearIssue` |
| `StatusSync` | `status.dfy` | `ensureLinearStateFromJira`, `ensureJiraStatusFromLinear` |
| `CommentSync` | `comments.dfy` | `syncCommentsJiraToLinear`, `syncCommentsLinearToJira` |
| `SyncRun` | `run.dfy` | `runJiraLinearSync` |
| `JiraKeysExamples` | `jira_keys_examples.dfy` | all seven parsing expectations of the service's test file |

**State is modelled imperatively.**

- The mapping store is a class whose fields are the four tables of the JSON
  file. `File()` is the file as last written and `Content()` is what it reads
  back as. Every method reads the tables, changes them, and writes all four
  back, as the source's read-modify-write of the file does.
- The Jira and Linear clients are classes over maps of issue records.
- Ghost fields log the calls a run makes (lookups, issue fetches, team
  fetches, transitions, state updates). A transition or a state update also
  changes the issue it is applied to, so a later read sees the new status or
  state.
- The mirroring loops are methods with loop invariants. Each is proved against
  a selection function on sequences (`SelectJiraToLinear`,
  `SelectLinearToJira`). The lemmas about the selection functions state what is
  mirrored, what is skipped, and that a second pass of a comment loop mirrors
  nothing once the first pass's copies are recorded.

## Model

| member | source | states |
|---|---|---|
| Strings.TrimEnd | vaults/work/projects/jira-linear-sync/service/src/jiraClient.ts:74 | the result is a prefix of the input, does not end in JavaScript whitespace, and everything cut off is whitespace |
| Strings.TrimEndIdempotent | vaults/work/projects/jira-linear-sync/service/src/jiraClient.ts:74 | trimming twice is trimming once |
| Strings.Contains | vaults/work/projects/jira-linear-sync/service/src/jiraLinearSync.ts:37 | `includes` holds exactly when the needle occurs at some index |
| Strings.IndexOf | vaults/work/projects/jira-linear-sync/service/src/jiraLinearSync.ts:37 | the reported index is an occurrence and no earlier index is one |
| Strings.Split | vaults/work/projects/jira-linear-sync/service/src/jiraClient.ts:42 | `split` gives one more piece than there are separators, and no piece holds the separator |
| Strings.JoinSplit | vaults/work/projects/jira-linear-sync/service/src/jiraClient.ts:42 | joining the pieces of a split with the separator gives back the text |
| Adf.TextToAdf | vaults/work/projects/jira-linear-sync/service/src/jiraClient.ts:41-54 | the loop over the lines builds exactly the document `DocOf(text)` |
| Adf.DocOfShape | vaults/work/projects/jira-linear-sync/service/src/jiraClient.ts:41-54 | the document is one doc of version 1 with one paragraph; the paragraph has one hard break per newline, and its text nodes are the non-empty lines in order |
| Adf.AdfToPlainText | vaults/work/projects/jira-linear-sync/service/src/jiraClient.ts:56-75 | the recursive walk with an accumulator computes `PlainText(adf)` |
| Adf.PlainText | vaults/work/projects/jira-linear-sync/service/src/jiraClient.ts:74 | the plain text never ends in whitespace |
| Adf.WalkItems | vaults/work/projects/jira-linear-sync/service/src/jiraClient.ts:59-73 | walking the paragraph of a text's lines gives the lines joined by newlines |
| Adf.RoundTrip | vaults/work/projects/jira-linear-sync/service/src/jiraClient.ts:41-75 | `adfToPlainText(textToAdf(t))` is `t.trimEnd()`, which is `t` itself when `t` does not end in whitespace |
| Adf.NormalizeBaseUrl | vaults/work/projects/jira-linear-sync/service/src/jiraClient.ts:31-33 | the result is the URL with all trailing slashes removed |
| Adf.NormalizeBaseUrlIdempotent | vaults/work/projects/jira-linear-sync/service/src/jiraClient.ts:31-33 | normalising twice is normalising once |
| MappingStore.ReadFile | vaults/work/projects/jira-linear-sync/service/src/jiraLinearMappingStore.ts:29-44 | a missing or unparseable file reads as four empty tables; a parsed file keeps each table it has and reads a missing one as empty |
| MappingStore.ReadPersisted | vaults/work/projects/jira-linear-sync/service/src/jiraLinearMappingStore.ts:29-49 | reading back what was written gives the same tables |
| MappingStore.Lookup | vaults/work/projects/jira-linear-sync/service/src/jiraLinearMappingStore.ts:51-57 | a lookup finds a value exactly when the key is in the table |
| MappingStore.PairWritePreservesAgreement | vaults/work/projects/jira-linear-sync/service/src/jiraLinearMappingStore.ts:59-64 | writing a pair into both directions keeps the two tables inverse to each other, provided neither side is already paired elsewhere |
| MappingStore.PairWriteCanBreakAgreement | vaults/work/projects/jira-linear-sync/service/src/jiraLinearMappingStore.ts:59-64 | without that proviso the tables stop agreeing: pairing a second Linear issue with a key leaves the first issue's forward entry on a key whose reverse entry names the second |
| MappingStore.JiraLinearMappingStore.Open | vaults/work/projects/jira-linear-sync/service/src/jiraLinearMappingStore.ts:21-44 | a store opened over a file on disk holds what `readFile` makes of that file |
| MappingStore.JiraLinearMappingStore.Read | vaults/work/projects/jira-linear-sync/service/src/jiraLinearMappingStore.ts:29-44 | returns the file's tables |
| MappingStore.JiraLinearMappingStore.Write | vaults/work/projects/jira-linear-sync/service/src/jiraLinearMappingStore.ts:46-49 | afterwards the file reads as the given tables |
| MappingStore.JiraLinearMappingStore.GetJiraKey | vaults/work/projects/jira-linear-sync/service/src/jiraLinearMappingStore.ts:51-53 | gives the stored Jira key exactly when the Linear issue has an entry |
| MappingStore.JiraLinearMappingStore.GetLinearIssueId | vaults/work/projects/jira-linear-sync/service/src/jiraLinearMappingStore.ts:55-57 | gives the stored Linear id exactly when the Jira key has an entry |
| MappingStore.JiraLinearMappingStore.SetIssuePair | vaults/work/projects/jira-linear-sync/service/src/jiraLinearMappingStore.ts:59-64 | the pair is written in both directions and the comment tables are unchanged |
| MappingStore.JiraLinearMappingStore.HasJiraCommentMirrored | vaults/work/projects/jira-linear-sync/service/src/jiraLinearMappingStore.ts:66-68 | true exactly when the Jira comment has an entry with a non-empty Linear id |
| MappingStore.JiraLinearMappingStore.HasLinearCommentMirrored | vaults/work/projects/jira-linear-sync/service/src/jiraLinearMappingStore.ts:70-72 | true exactly when the Linear comment has an entry with a non-empty Jira id |
| MappingStore.JiraLinearMappingStore.SetCommentPair | vaults/work/projects/jira-linear-sync/service/src/jiraLinearMappingStore.ts:74-79 | the comment pair is written in both directions and the issue tables are unchanged |
| MappingStore.PairingRoundTrip | vaults/work/projects/jira-linear-sync/service/src/jiraLinearMappingStore.ts:51-79 | after both setters, both getters return the pair and both comments count as mirrored |
| MappingStore.ReadFileSharingDefaults | vaults/work/projects/jira-linear-sync/service/src/jiraLinearMappingStore.ts:11-16 | the reader as written: a file that is missing or does not parse hands out the shared default tables |
| MappingStore.SetIssuePairSharingDefaults | vaults/work/projects/jira-linear-sync/service/src/jiraLinearMappingStore.ts:59-64 | the setter as written, over the shared defaults: the file written reads back as the tables read with the pair added in both directions; on a missing or unparseable file the defaults' two issue tables gain the pair as well and their comment tables stay; on a parsed file the defaults are untouched |
| MappingStore.DefaultsLeakAsWritten | vaults/work/projects/jira-linear-sync/service/src/jiraLinearMappingStore.ts:31 | after one pairing on a missing file, the shared defaults are no longer empty |
| Remote.NatToString | vaults/work/projects/jira-linear-sync/service/src/linearClient.ts:147-162 | minted comment ids are non-empty |
| Remote.JiraServer.constructor | vaults/work/projects/jira-linear-sync/service/src/jiraClient.ts:107-147 | the tracker starts from the given records with empty call logs |
| Remote.JiraServer.GetIssue | vaults/work/projects/jira-linear-sync/service/src/jiraClient.ts:107-109 | succeeds exactly for an existing key, returns its fields, and logs the lookup |
| Remote.JiraServer.ListComments | vaults/work/projects/jira-linear-sync/service/src/jiraClient.ts:111-129 | succeeds exactly for an existing key and returns all its comments |
| Remote.JiraServer.AddComment | vaults/work/projects/jira-linear-sync/service/src/jiraClient.ts:131-135 | succeeds exactly for an existing key; the comment, with body `textToAdf(text)` and a non-empty id, is appended to that issue and nothing else changes |
| Remote.JiraServer.ListTransitions | vaults/work/projects/jira-linear-sync/service/src/jiraClient.ts:137-143 | succeeds exactly for an existing key and returns its transitions |
| Remote.JiraServer.TransitionIssue | vaults/work/projects/jira-linear-sync/service/src/jiraClient.ts:145-147 | succeeds exactly for an existing key with a transition of that id; the issue then becomes `Transitioned(record, id)` and the transition is logged; a failure changes nothing |
| Remote.Transitioned | vaults/work/projects/jira-linear-sync/service/src/jiraClient.ts:145-147 | defined exactly when the issue offers a transition with that id; only the status can change (to the target status Jira names), the comments and offered transitions stay |
| Remote.StatesByNameLastWins | vaults/work/projects/jira-linear-sync/service/src/linearClient.ts:126-129 | the name table holds exactly the names that occur; the id for a name is the id of its last state |
| Remote.BuildStatesByName | vaults/work/projects/jira-linear-sync/service/src/linearClient.ts:126-129 | the loop of `map.set` calls builds `StatesByName(states)` |
| Remote.LinearServer.constructor | vaults/work/projects/jira-linear-sync/service/src/linearClient.ts:57-162 | the tracker starts from the given issues, teams and projects with empty call logs |
| Remote.LinearServer.FetchIssueSyncView | vaults/work/projects/jira-linear-sync/service/src/linearClient.ts:57-77 | succeeds exactly for an existing issue, returns it, and logs the fetch |
| Remote.LinearServer.FetchProjectIssueIds | vaults/work/projects/jira-linear-sync/service/src/linearClient.ts:79-113 | succeeds exactly for an existing project and returns all its issue ids in order |
| Remote.LinearServer.FetchTeamStatesByName | vaults/work/projects/jira-linear-sync/service/src/linearClient.ts:115-130 | succeeds exactly for an existing team, returns `StatesByName` of its states, and logs the fetch |
| Remote.LinearServer.UpdateIssue | vaults/work/projects/jira-linear-sync/service/src/linearClient.ts:132-145 | succeeds exactly for an existing issue whose team has a state with that id; the issue then takes that state's name and the update is logged; a failure changes nothing |
| Remote.MovedTo | vaults/work/projects/jira-linear-sync/service/src/linearClient.ts:132-145 | defined exactly when the issue's team has a state with that id; only the state name changes |
| Remote.MovedToNamed | vaults/work/projects/jira-linear-sync/service/src/linearClient.ts:115-145 | with distinct state ids, the id the name-to-id table gives for a name moves the issue to the state of that name |
| Remote.LinearServer.CreateComment | vaults/work/projects/jira-linear-sync/service/src/linearClient.ts:147-162 | succeeds exactly for an existing issue; the comment, with a non-empty id, is appended to that issue and nothing else changes |
| JiraKeys.UpperDigitRun | vaults/work/projects/jira-linear-sync/service/src/jiraLinearSync.ts:19 | the run of `[A-Z0-9]` starting at an index is maximal |
| JiraKeys.DigitRun | vaults/work/projects/jira-linear-sync/service/src/jiraLinearSync.ts:19 | the run of `\d` starting at an index is maximal |
| JiraKeys.KeyLenAt | vaults/work/projects/jira-linear-sync/service/src/jiraLinearSync.ts:19 | gives the length `n` exactly when a key `[A-Z][A-Z0-9]{1,15}-\d{1,10}` followed by a word boundary starts at that index |
| JiraKeys.KeyPinned | vaults/work/projects/jira-linear-sync/service/src/jiraLinearSync.ts:19 | a key found at an index has its maximal letter run and its maximal digit run, so the regex cannot match there in two ways |
| JiraKeys.KeyStart | vaults/work/projects/jira-linear-sync/service/src/jiraLinearSync.ts:19-26 | every match of a pattern at a start position puts its key at the one place the function gives |
| JiraKeys.QueryNamesExclusive | vaults/work/projects/jira-linear-sync/service/src/jiraLinearSync.ts:26 | `selectedIssue=` and `issueKey=` cannot both follow the same `?` or `&` |
| JiraKeys.MatchAtPos | vaults/work/projects/jira-linear-sync/service/src/jiraLinearSync.ts:19-26 | gives a match at a given start exactly when the pattern matches there |
| JiraKeys.FirstMatchFrom | vaults/work/projects/jira-linear-sync/service/src/jiraLinearSync.ts:19-26 | the match found is the leftmost one from the given index |
| JiraKeys.Search | vaults/work/projects/jira-linear-sync/service/src/jiraLinearSync.ts:19-30 | `match` finds a key exactly when the pattern matches somewhere, and what it finds has the key shape |
| JiraKeys.SearchLeftmost | vaults/work/projects/jira-linear-sync/service/src/jiraLinearSync.ts:19-30 | the key returned is that of the leftmost match |
| JiraKeys.ExtractJiraIssueKeyFromText | vaults/work/projects/jira-linear-sync/service/src/jiraLinearSync.ts:18-21 | a found key has the key shape and occurs in the text; nothing is found exactly when no key with word boundaries occurs |
| JiraKeys.FirstPatternKey | vaults/work/projects/jira-linear-sync/service/src/jiraLinearSync.ts:28-32 | the key comes from the first pattern that matches; nothing is found when no pattern matches |
| JiraKeys.ExtractJiraIssueKeyFromUrl | vaults/work/projects/jira-linear-sync/service/src/jiraLinearSync.ts:23-33 | a `/browse/KEY` match decides; otherwise a `?selectedIssue=` / `&issueKey=` match does |
| JiraKeys.MatchAtUnique | vaults/work/projects/jira-linear-sync/service/src/jiraLinearSync.ts:19-26 | a pattern matches at a given start in at most one way: its key start and length are fixed |
| JiraKeys.SearchFindsFirstMatch | vaults/work/projects/jira-linear-sync/service/src/jiraLinearSync.ts:19-30 | a match with none before it is the one `match` reports, and its key is what is returned |
| JiraKeys.NoUpperNoKey | vaults/work/projects/jira-linear-sync/service/src/jiraLinearSync.ts:18-21 | text without an upper-case letter yields no key |
| JiraKeys.NoUpperNoUrlKey | vaults/work/projects/jira-linear-sync/service/src/jiraLinearSync.ts:23-33 | a URL without an upper-case letter yields no key |
| JiraKeysExamples.LettersBeforeHyphen | examples/jira-linear-sync/service/tests/jiraLinearSync.test.ts:8 | in the test sentence, the letter run after `A` has length 2 |
| JiraKeysExamples.DigitsAfterHyphen | examples/jira-linear-sync/service/tests/jiraLinearSync.test.ts:8 | in the test sentence, the digit run after the hyphen has length 3 |
| JiraKeysExamples.MatchAtSeven | examples/jira-linear-sync/service/tests/jiraLinearSync.test.ts:8 | the key pattern matches at index 7 with length 7 |
| JiraKeysExamples.NoMatchAtStart | examples/jira-linear-sync/service/tests/jiraLinearSync.test.ts:8 | there is no match at index 0 (`Ticket` is not a key) |
| JiraKeysExamples.NoMatchInFirstWord | examples/jira-linear-sync/service/tests/jiraLinearSync.test.ts:8 | there is no match inside the first word, because no word boundary precedes it |
| JiraKeysExamples.FirstMatchIsAtSeven | examples/jira-linear-sync/service/tests/jiraLinearSync.test.ts:8 | the leftmost match from any index up to 7 is the one at 7 |
| JiraKeysExamples.KeyFromTicketText | examples/jira-linear-sync/service/tests/jiraLinearSync.test.ts:8 | `"Ticket ABC-123 needs attention"` yields `ABC-123` |
| JiraKeysExamples.NoKeyInLowerCase | examples/jira-linear-sync/service/tests/jiraLinearSync.test.ts:9 | `"abc-123 lower"` yields no key |
| JiraKeysExamples.NoKeyInPlainSentence | examples/jira-linear-sync/service/tests/jiraLinearSync.test.ts:10 | `"No key here"` yields no key: its one capital is followed by a lower-case letter |
| JiraKeysExamples.BrowseUrlMatchAt | examples/jira-linear-sync/service/tests/jiraLinearSync.test.ts:14 | the browse pattern matches at the link's `/browse/`, capturing `ABC-123`'s 7 characters, and nowhere before it |
| JiraKeysExamples.KeyFromBrowseUrl | examples/jira-linear-sync/service/tests/jiraLinearSync.test.ts:14 | `https://my.atlassian.net/browse/ABC-123` yields `ABC-123` |
| JiraKeysExamples.BoardUrlNotBrowse | examples/jira-linear-sync/service/tests/jiraLinearSync.test.ts:15 | the board link holds no `/browse/` |
| JiraKeysExamples.BoardUrlQueryAt | examples/jira-linear-sync/service/tests/jiraLinearSync.test.ts:15 | the query pattern matches at the board link's `?`, capturing the 7 characters after `selectedIssue=`, and nowhere before it |
| JiraKeysExamples.KeyFromSelectedIssueUrl | examples/jira-linear-sync/service/tests/jiraLinearSync.test.ts:15-17 | the board link with `?selectedIssue=ABC-999` yields `ABC-999` |
| JiraKeysExamples.NoKeyInForeignUrl | examples/jira-linear-sync/service/tests/jiraLinearSync.test.ts:18 | `https://example.com/not-jira` yields no key |
| JiraKeysExamples.MarkedTextRoundTrips | examples/jira-linear-sync/service/tests/jiraLinearSync.test.ts:21-25 | a marker line followed by `Hello` and `World` survives `textToAdf` then `adfToPlainText` unchanged |
| SyncText.Entries | vaults/work/projects/jira-linear-sync/service/src/jiraLinearSync.ts:41 | one `key:value` entry per parameter, in order |
| SyncText.JoinStartsWithFirst | vaults/work/projects/jira-linear-sync/service/src/jiraLinearSync.ts:41-42 | a join begins with its first part |
| SyncText.BuildMarkerLine | vaults/work/projects/jira-linear-sync/service/src/jiraLinearSync.ts:40-43 | the line starts with the prefix and the first `key:value`, and ends in `>` |
| SyncText.HasMarker | vaults/work/projects/jira-linear-sync/service/src/jiraLinearSync.ts:35-38 | true exactly when the body is non-empty and contains the needle |
| SyncText.StatusCategoryKey | vaults/work/projects/jira-linear-sync/service/src/jiraLinearSync.ts:45-49 | a category exactly for `new`, `indeterminate` or `done`, and it is the one named |
| SyncText.CategoryKeyRoundTrip | vaults/work/projects/jira-linear-sync/service/src/jiraLinearSync.ts:45-49 | each category's key reads back as that category |
| SyncText.JiraBodyCarriesJiraMarker | vaults/work/projects/jira-linear-sync/service/src/jiraLinearSync.ts:198-206 | a body mirrored to Linear starts with its `source:jira` marker line and contains the `source:jira` needle |
| SyncText.LinearBodyStartsWithMarker | vaults/work/projects/jira-linear-sync/service/src/jiraLinearSync.ts:240-250 | a body mirrored to Jira starts with its `source:linear` marker line |
| SyncText.LinearBodyEndsWithComment | vaults/work/projects/jira-linear-sync/service/src/jiraLinearSync.ts:240-250 | a body mirrored to Jira ends with a newline followed by the Linear comment's body |
| SyncText.LinearBodySurvivesJira | vaults/work/projects/jira-linear-sync/service/src/jiraLinearSync.ts:240-250 | after the trip through ADF, the Jira copy's plain text still contains the `source:linear` needle |
| Resolver.CandidatesAreKeys | vaults/work/projects/jira-linear-sync/service/src/jiraLinearSync.ts:62-105 | every candidate from the marker, the attachments, the title or the description has the key shape |
| Resolver.FirstKnown | vaults/work/projects/jira-linear-sync/service/src/jiraLinearSync.ts:62-107 | the accepted key is a candidate Jira knows; none is accepted exactly when Jira knows none of them |
| Resolver.Tried | vaults/work/projects/jira-linear-sync/service/src/jiraLinearSync.ts:62-107 | the candidates looked up are those up to and including the first known one, or all of them when none is known |
| Resolver.FirstKnownAppend | vaults/work/projects/jira-linear-sync/service/src/jiraLinearSync.ts:62-107 | the first known key of one candidate list followed by another is that of the first list, or of the second when Jira knows none of the first |
| Resolver.TriedAppend | vaults/work/projects/jira-linear-sync/service/src/jiraLinearSync.ts:62-107 | the later list is looked up only when the earlier one has no known key, and then after all of the earlier list |
| Resolver.ValidateAndPair | vaults/work/projects/jira-linear-sync/service/src/jiraLinearSync.ts:66-76 | looks the key up in Jira; exactly when it exists, the pair is stored in both directions |
| Resolver.TryCandidates | vaults/work/projects/jira-linear-sync/service/src/jiraLinearSync.ts:80-105 | looks up candidates in order until one is known, pairs that one, and logs exactly the lookups made |
| Resolver.ResolveJiraKeyForLinearIssue | vaults/work/projects/jira-linear-sync/service/src/jiraLinearSync.ts:51-108 | a stored key is returned without any call; otherwise the marker, the attachments, the title and the description are tried in order, and the first key Jira knows is returned and paired; the comment tables are untouched |
| StatusSync.DesiredLinearStateName | vaults/work/projects/jira-linear-sync/service/src/jiraLinearSync.ts:125-127 | a per-status override wins; otherwise the state configured for the issue's status category |
| StatusSync.LinearStateOutcome | vaults/work/projects/jira-linear-sync/service/src/jiraLinearSync.ts:128-141 | no outcome when no non-empty state is wanted; unchanged when the issue is already there; otherwise the state's id from the team table, or no outcome when the team has no such state |
| StatusSync.LinearStatePlanSound | vaults/work/projects/jira-linear-sync/service/src/jiraLinearSync.ts:110-142 | a planned change moves the issue to a state of its own team whose name is the desired one, and that name differs from the current one |
| StatusSync.TeamStateCache.constructor | vaults/work/projects/jira-linear-sync/service/src/jiraLinearSync.ts:279 | the per-run cache starts empty |
| StatusSync.TeamStates | vaults/work/projects/jira-linear-sync/service/src/jiraLinearSync.ts:131-134 | a cached team costs no fetch; an uncached one is fetched once and cached; the result is the team's name table |
| StatusSync.EnsureLinearStateFromJira | vaults/work/projects/jira-linear-sync/service/src/jiraLinearSync.ts:110-142 | fails when the Jira issue or the Linear issue is missing, or when the team whose states are needed is missing; otherwise the outcome is the plan, and for a real change outside a dry run the issue moves to the desired state (and only then); a team is fetched at most once, and only when not cached |
| StatusSync.FirstByTarget | vaults/work/projects/jira-linear-sync/service/src/jiraLinearSync.ts:160-162 | the first transition whose target status has the name |
| StatusSync.FirstByName | vaults/work/projects/jira-linear-sync/service/src/jiraLinearSync.ts:163-165 | the first transition with the name |
| StatusSync.MatchTransition | vaults/work/projects/jira-linear-sync/service/src/jiraLinearSync.ts:160-165 | a transition to a status of that name is preferred; else one named so; none exactly when no transition has either |
| StatusSync.JiraStatusPlan | vaults/work/projects/jira-linear-sync/service/src/jiraLinearSync.ts:144-171 | plans the configured Jira status for the Linear state; `changed` exactly when the issue is not already in that status |
| StatusSync.EnsureJiraStatusFromLinear | vaults/work/projects/jira-linear-sync/service/src/jiraLinearSync.ts:144-171 | fails exactly when either issue is missing; otherwise the outcome is the plan, and a transition is applied only for a real change outside a dry run |
| CommentSync.SelectJiraToLinear | vaults/work/projects/jira-linear-sync/service/src/jiraLinearSync.ts:188-216 | the Jira comments the loop mirrors are no more than there are comments |
| CommentSync.JiraSelectsOnlyEligible | vaults/work/projects/jira-linear-sync/service/src/jiraLinearSync.ts:189-208 | only comments are mirrored that have an id, are not mirrored yet, have text, carry no `source:linear` marker, and whose mirrored body is not already on the Linear issue |
| CommentSync.JiraDryRunSelectsEligible | vaults/work/projects/jira-linear-sync/service/src/jiraLinearSync.ts:189-214 | in a dry run, every such comment is counted |
| CommentSync.JiraSelectsEveryEligibleId | vaults/work/projects/jira-linear-sync/service/src/jiraLinearSync.ts:188-216 | outside a dry run too, the id of every such comment is among the ids mirrored: only a later comment repeating an id mirrored before it is passed over |
| CommentSync.JiraToLinearIdempotent | vaults/work/projects/jira-linear-sync/service/src/jiraLinearSync.ts:188-216 | a second pass of the Jira-to-Linear loop mirrors nothing, provided every comment the first pass selected is now paired, the pair table only grew and the Linear issue's bodies only grew |
| CommentSync.JiraToLinearStateSnoc | vaults/work/projects/jira-linear-sync/service/src/jiraLinearSync.ts:210-213 | one created Linear comment, paired with its Jira comment in both directions, extends the recorded ids by that Jira id, the issue's comment bodies by exactly the built body, and the comment pairs by that Jira id with the new comment's id |
| CommentSync.CopiesPairedSnoc | vaults/work/projects/jira-linear-sync/service/src/jiraLinearSync.ts:210-213 | pairing a comment whose id the loop has not taken yet with its new copy extends both comment tables by exactly that write, in both directions |
| CommentSync.WrittenOutside | vaults/work/projects/jira-linear-sync/service/src/jiraLinearMappingStore.ts:74-79 | after a run of `setCommentPair` calls, an id none of them wrote keeps its old entry (or its absence) |
| CommentSync.WrittenLast | vaults/work/projects/jira-linear-sync/service/src/jiraLinearMappingStore.ts:74-79 | after a run of `setCommentPair` calls, a written id holds the value of the last call that wrote it |
| CommentSync.CopiesPairedAt | vaults/work/projects/jira-linear-sync/service/src/jiraLinearSync.ts:210-213 | in the loop's tables, the k-th selected id maps to the k-th copy's id, and that copy's id has a non-empty partner |
| CommentSync.MirrorToLinear | vaults/work/projects/jira-linear-sync/service/src/jiraLinearSync.ts:210-213 | creating the comment and recording the pair moves the loop state from the selection so far to the selection with this comment: the forward table gains `jc.id` mapped to the new Linear comment's id, the reverse table that id mapped to `jc.id`, and nothing else changes |
| CommentSync.JiraToLinearStep | vaults/work/projects/jira-linear-sync/service/src/jiraLinearSync.ts:189-214 | one iteration extends the mirrored list exactly as the selection does, and keeps the loop invariant |
| CommentSync.JiraToLinearLoop | vaults/work/projects/jira-linear-sync/service/src/jiraLinearSync.ts:188-216 | the loop mirrors exactly the selected comments and appends their bodies to the Linear issue in order; outside a dry run the selected ids are distinct and non-empty, and the two comment tables are exactly the old ones with, for each selected comment in turn, its id mapped to its new Linear comment's id and that id mapped back |
| CommentSync.SyncCommentsJiraToLinear | vaults/work/projects/jira-linear-sync/service/src/jiraLinearSync.ts:173-218 | fails exactly when either issue is missing, changing nothing; otherwise the count is the number of selected comments, the Linear issue gains exactly their built bodies, and outside a dry run the comment tables are the old ones with each selected comment's pair written, as in `JiraToLinearLoop`; in a dry run nothing is written |
| CommentSync.JiraCopyRecorded | vaults/work/projects/jira-linear-sync/service/src/jiraLinearSync.ts:208-213 | outside a dry run, the Linear id stored for the k-th mirrored Jira comment is that of the k-th comment new on the Linear issue, which carries the comment's built body and counts as mirrored |
| CommentSync.SelectLinearToJira | vaults/work/projects/jira-linear-sync/service/src/jiraLinearSync.ts:235-259 | the Linear comments the loop mirrors are no more than there are comments |
| CommentSync.LinearSelectsOnlyEligible | vaults/work/projects/jira-linear-sync/service/src/jiraLinearSync.ts:236-252 | only comments are mirrored that have an id, are not mirrored yet, carry no `source:jira` marker, and whose mirrored body is not already a Jira comment's plain text |
| CommentSync.LinearDryRunSelectsEligible | vaults/work/projects/jira-linear-sync/service/src/jiraLinearSync.ts:236-258 | in a dry run, every such comment is counted |
| CommentSync.LinearSelectsEveryEligibleId | vaults/work/projects/jira-linear-sync/service/src/jiraLinearSync.ts:235-259 | outside a dry run too, the id of every such comment is among the ids mirrored: only a later comment repeating an id mirrored before it is passed over |
| CommentSync.LinearToJiraIdempotent | vaults/work/projects/jira-linear-sync/service/src/jiraLinearSync.ts:235-259 | a second pass of the Linear-to-Jira loop mirrors nothing, provided every comment the first pass selected is now paired, the pair table only grew and the Jira issue's texts only grew |
| CommentSync.LinearToJiraStateSnoc | vaults/work/projects/jira-linear-sync/service/src/jiraLinearSync.ts:254-257 | one added Jira comment, paired with its Linear comment in both directions, extends the recorded ids by that Linear id, the issue's comment documents by exactly the built text's document, and the comment pairs by that Linear id with the new comment's id |
| CommentSync.MirrorToJira | vaults/work/projects/jira-linear-sync/service/src/jiraLinearSync.ts:254-257 | adding the comment and recording the pair moves the loop state from the selection so far to the selection with this comment: the forward table gains `lc.id` mapped to the new Jira comment's id, the reverse table that id mapped to `lc.id`, and nothing else changes |
| CommentSync.LinearToJiraStep | vaults/work/projects/jira-linear-sync/service/src/jiraLinearSync.ts:236-258 | one iteration extends the mirrored list exactly as the selection does, and keeps the loop invariant |
| CommentSync.LinearToJiraLoop | vaults/work/projects/jira-linear-sync/service/src/jiraLinearSync.ts:235-259 | the loop mirrors exactly the selected comments and appends their ADF bodies to the Jira issue in order; outside a dry run the selected ids are distinct and non-empty, and the two comment tables are exactly the old ones with, for each selected comment in turn, its id mapped to its new Jira comment's id and that id mapped back |
| CommentSync.SyncCommentsLinearToJira | vaults/work/projects/jira-linear-sync/service/src/jiraLinearSync.ts:220-262 | fails exactly when either issue is missing, changing nothing; otherwise the count is the number of selected comments, the Jira issue gains exactly their documents, and outside a dry run the comment tables are the old ones with each selected comment's pair written, as in `LinearToJiraLoop`; in a dry run nothing is written |
| CommentSync.LinearCopyRecorded | vaults/work/projects/jira-linear-sync/service/src/jiraLinearSync.ts:254-257 | outside a dry run, the Jira id stored for the k-th mirrored Linear comment is that of the k-th comment new on the Jira issue, whose document is `textToAdf` of the built text, and it counts as mirrored |
| CommentSync.JiraMirrorNotEchoed | vaults/work/projects/jira-linear-sync/service/src/jiraLinearSync.ts:198-206 | a Linear comment that is a mirror of a Jira comment is never mirrored back to Jira |
| CommentSync.LinearMirrorNotEchoed | vaults/work/projects/jira-linear-sync/service/src/jiraLinearSync.ts:240-250 | a Jira comment that is a mirror of a Linear comment is never mirrored back to Linear |
| CommentSync.JiraSelectSkipsEchoes | vaults/work/projects/jira-linear-sync/service/src/jiraLinearSync.ts:188-197 | the Jira comments the Linear-to-Jira loop appended, one per mirrored Linear comment, add nothing to what the Jira-to-Linear loop selects |
| CommentSync.LinearDedupSeesCopy | vaults/work/projects/jira-linear-sync/service/src/jiraLinearSync.ts:228-252 | when the Linear body does not end in whitespace, an existing Jira copy stops a second copy even without a stored pair |
| CommentSync.LinearDedupMissesTrailingWhitespace | vaults/work/projects/jira-linear-sync/service/src/jiraLinearSync.ts:230-252 | when the Linear body is empty or ends in whitespace, the Jira copy's plain text differs from the body built for it, so the body check cannot recognise the copy |
| SyncRun.StatusRoutines | vaults/work/projects/jira-linear-sync/service/src/jiraLinearSync.ts:299-323 | the number of status routines a mode runs: at most two, and none exactly in `off` |
| SyncRun.TeamLogStep | vaults/work/projects/jira-linear-sync/service/src/jiraLinearSync.ts:279 | one issue's fetches keep the run's team-fetch log free of duplicates |
| SyncRun.SyncStatuses | vaults/work/projects/jira-linear-sync/service/src/jiraLinearSync.ts:299-323 | succeeds exactly when `StatusPass` over the issues as they stood does, and then reports its change count and leaves the trackers as it says: the Jira-to-Linear routine first, the Linear-to-Jira one reading the Linear issue as the first left it; `off` makes no status call and fetches no team; a dry run leaves both trackers' issues as they were and logs no state update and no transition |
| SyncRun.LinearRoutine | vaults/work/projects/jira-linear-sync/service/src/jiraLinearSync.ts:110-142 | at most one change, counted as `res?.changed`; with no change or in a dry run the Linear issues are untouched; `None` when the routine aborts |
| SyncRun.JiraRoutine | vaults/work/projects/jira-linear-sync/service/src/jiraLinearSync.ts:144-171 | at most one change; with no change or in a dry run the Jira records are untouched |
| SyncRun.StatusPass | vaults/work/projects/jira-linear-sync/service/src/jiraLinearSync.ts:299-323 | `off`: no change and nothing touched; at most one change per routine the mode runs; only `bidirectional` touches Jira; a dry run touches neither tracker |
| SyncRun.LinearStatus | vaults/work/projects/jira-linear-sync/service/src/jiraLinearSync.ts:299-311 | `ensureLinearStateFromJira` with `res?.changed` counted: succeeds exactly when `LinearRoutine` is defined, and its count and the Linear issues afterwards are `LinearRoutine`'s; a team is fetched at most once |
| SyncRun.JiraStatus | vaults/work/projects/jira-linear-sync/service/src/jiraLinearSync.ts:313-323 | `ensureJiraStatusFromLinear` with `res?.changed` counted, on the Linear issue as it is now: the count and the Jira records afterwards are `JiraRoutine`'s |
| SyncRun.JiraToLinearSettles | vaults/work/projects/jira-linear-sync/service/src/jiraLinearSync.ts:110-142 | in the Jira-to-Linear mode outside a dry run, the status pass run again on what it left reports no change and touches nothing |
| SyncRun.BidirectionalReadsMovedState | vaults/work/projects/jira-linear-sync/service/src/jiraLinearSync.ts:144-156 | Jira done, Linear to do, both routines on: the Linear issue moves to "Done", the Jira routine reads that new state, finds Jira already there and applies nothing, so one change is reported |
| SyncRun.SyncComments | vaults/work/projects/jira-linear-sync/service/src/jiraLinearSync.ts:325-341 | on success both loops ran on the pair: each count is the size of its loop's selection, taken from the state the pass found (first loop) and the state between the loops (second loop); the Linear issue gained exactly the first loop's bodies and the Jira issue exactly the second loop's documents, with every pair recorded; a dry run changes neither tracker's comments nor the store's tables |
| SyncRun.FirstLoopSecondPass | vaults/work/projects/jira-linear-sync/service/src/jiraLinearSync.ts:325-333 | right after a pass that wrote, a second Jira-to-Linear loop on the same pair mirrors nothing: every earlier Jira comment is paired and every Jira comment the first pass added is marked as a copy from Linear |
| SyncRun.SecondLoopSecondPass | vaults/work/projects/jira-linear-sync/service/src/jiraLinearSync.ts:334-341 | then the second Linear-to-Jira loop mirrors nothing either: every Linear comment mirrored before is paired now |
| SyncRun.SecondPassMirrorsNothing | vaults/work/projects/jira-linear-sync/service/src/jiraLinearSync.ts:325-341 | both comment loops run again on a pair, right after a pass on it that wrote, report zero comments each way |
| SyncRun.SyncMappedIssue | vaults/work/projects/jira-linear-sync/service/src/jiraLinearSync.ts:299-341 | a mapped outcome for the key whose status changes are exactly `StatusPass`'s; the comment pass starts from the store as found and the issues as the status routines left them, and its counts are as in `SyncComments`; `off` makes no status call; a dry run writes no status, no comment and no comment pair |
| SyncRun.SyncIssue | vaults/work/projects/jira-linear-sync/service/src/jiraLinearSync.ts:290-342 | the issue is skipped exactly when `Resolution` finds no key, and then nothing changes; a mapped outcome carries the resolved key, `StatusPass`'s change count from the state the turn found, and the counts of a comment pass that starts from the store the resolver left and the issues the status routines left and ends where the turn ends; `off` makes no status call; a dry run writes no status, no comment and no comment pair (the resolver may still record an issue pair) |
| SyncRun.SyncIssues | vaults/work/projects/jira-linear-sync/service/src/jiraLinearSync.ts:290-342 | on success one traced step per listed issue, in order, the first starting in the state before the loop, each starting where the previous ended and the last ending in the state after it; the summary is the counters bumped over those steps: every issue scanned, mapped plus skipped equals scanned, status changes at most the routines per mapped issue; whatever happens, `off` touches no status, a dry run changes no status, no comment and no comment pair (the resolver may still record issue pairs), and no team is fetched twice |
| SyncRun.TraceCounts | vaults/work/projects/jira-linear-sync/service/src/jiraLinearSync.ts:290-297 | the summary of a traced run scans each step once, counts each as mapped or skipped, and has at most one status change per routine and mapped issue |
| SyncRun.RunJiraLinearSync | vaults/work/projects/jira-linear-sync/service/src/jiraLinearSync.ts:264-345 | fails when the project is missing; otherwise the traced run of `SyncIssues` over the project's issue ids, with a team cache that starts empty |

## Left out

- The HTTP layer, authentication, environment variables and `server.ts` are not part of this model. The trackers are in-memory maps, and a call on a missing record fails as the client throws.
- Pagination, in `listComments` and `fetchProjectIssueIds`, is modelled by its result: the complete list in order.
- The process runs the two reads of each comment phase with `Promise.all`; the model makes them one after the other. Neither read changes state, so the order is immaterial.
- Remote failures other than a missing record (network errors, rate limits)
  are not modelled. Outside the resolver they abort the run as an exception
  does. The resolver swallows them: a failed `getIssue` or `setIssuePair` for
  a candidate (jiraLinearSync.ts:70-76, :85-91, :98-104) is treated like an
  unknown key, so a later candidate may be paired instead, or the issue
  skipped. The model's lookups fail only for a missing record, so it does not
  capture this.
- The marker prefix, from `config.js`, is a parameter `prefix` of every operation.
- The store default `params.store ?? new JiraLinearMappingStore()` (jiraLinearSync.ts:278) is left out: the store is always passed in. The file path and the directory creation are not modelled; the store holds the file's four tables, and `File()` gives the file they persist as.
- JSON nuances are not modelled: a table of the wrong type, inherited object keys such as `__proto__`, and the `{ jiraKey }` wrapper objects. Each table is a `map<string, string>`.
- Remote.Transitioned: a transition moves the Jira issue to the target status Jira names for it; a transition without a named target leaves the status name as it was, since the model has no workflow table to look the target up in. The status category is not recomputed after a transition.
- SyncRun.JiraToLinearSettles: status idempotence is proved for the Jira-to-Linear mode only. In the bidirectional mode a second pass settles only when the two configured tables agree with each other, which nothing in the configuration demands.
- Remote ids, timestamps and author names are opaque strings. New comment ids come from a counter as decimal numerals.
- Remote.JiraServer.AddComment: the new comment's id is proved non-empty, not distinct from the ids already on the issue; the given records may hold any ids, while the real tracker mints unique ones.
- Remote.LinearServer.CreateComment: the new comment's id is proved non-empty, not distinct from the ids already on the issue, for the same reason.
- CommentSync.JiraCopyRecorded: the new Linear comment's reverse entry is stated to have a non-empty partner, not to name this Jira comment, since new comment ids are not proved distinct (see `CreateComment`); the loop's contract gives the table itself exactly.
- CommentSync.LinearCopyRecorded: the same for the new Jira comment's reverse entry (see `AddComment`).
- `linear.Valid()` is required of every caller: each Linear issue record carries the id it is filed under, and no team has two workflow states with one id, as Linear guarantees.
- Serialisation of the header lines of mirrored bodies is modelled as string concatenation. Only the structure of those lines is proved (marker first, comment last), not their wording.

## Findings

| source | as written | input that shows it | evidently intended | confidence | as-written member | corrected member |
|---|---|---|---|---|---|---|
| vaults/work/projects/jira-linear-sync/service/src/jiraLinearMappingStore.ts:31 | `{ ...DEFAULT_FILE }` copies only the outer object, so the four default tables are shared. `setIssuePair` on a missing file writes into `DEFAULT_FILE.linearToJira`. | `setIssuePair({ linearIssueId: "lin-1", jiraKey: "ABC-1" })` with no mapping file: afterwards the shared defaults hold `lin-1`, and every later read of a missing or corrupt file starts from them | a missing or unparseable file reads as four fresh empty tables | not executed | MappingStore.DefaultsLeakAsWritten | MappingStore.ReadFile |
