/** The two comment-mirror loops, `syncCommentsJiraToLinear` and
    `syncCommentsLinearToJira`. Each loop is specified by a selection function:
    the source comments it mirrors, in order, given the store's table at the
    start, the destination's bodies at the start and the dry-run flag. */
module CommentSync {
  import opened Wrappers
  import opened Strings
  import opened Adf
  import opened MappingStore
  import opened Remote
  import opened SyncText

  /** Every id mirrored before is mirrored after. */
  ghost predicate MirroredGrows(before: map<string, string>, after: map<string, string>) {
    forall id :: Mirrored(before, id) ==> Mirrored(after, id)
  }

  /** The ids of a sequence of comments. */
  function Ids<T>(cs: seq<T>, id: T -> string): set<string>
  {
    set k | 0 <= k < |cs| :: id(cs[k])
  }

  lemma IdsSnoc<T>(sel: seq<T>, c: T, id: T -> string)
    ensures Ids(sel + [c], id) == Ids(sel, id) + {id(c)}
  {
    var s := sel + [c];
    assert forall k :: 0 <= k < |sel| ==> s[k] == sel[k];
    assert s[|sel|] == c;
  }

  /** `f` applied to each element, in order. */
  function MapSeq<T, U>(s: seq<T>, f: T -> U): (r: seq<U>)
    ensures |r| == |s|
  {
    if s == [] then [] else MapSeq(s[..|s| - 1], f) + [f(s[|s| - 1])]
  }

  function LinearBody(c: LinearComment): string {
    c.body
  }

  function JiraBody(c: JiraComment): Adf {
    c.body
  }

  /** The bodies on a Linear issue, which the Jira-to-Linear loop compares
      its built bodies with. */
  function LinearBodies(cs: seq<LinearComment>): set<string> {
    set c | c in cs :: c.body
  }

  /** The plain texts of a Jira issue's comments, which the Linear-to-Jira
      loop compares its built texts with. */
  function JiraPlainTexts(cs: seq<JiraComment>): set<string> {
    set c | c in cs :: PlainText(c.body)
  }

  /** The elements `after` has beyond the length of `before`. */
  function Since<T>(before: seq<T>, after: seq<T>): seq<T> {
    if |before| <= |after| then after[|before|..] else []
  }

  lemma SinceSnoc<T>(before: seq<T>, added: seq<T>, c: T)
    ensures Since(before, before + added) == added
    ensures Since(before, before + added + [c]) == added + [c]
  {
    assert (before + added)[|before|..] == added;
    assert (before + added + [c])[|before|..] == added + [c];
  }

  lemma {:induction false} MapSeqAt<T, U>(s: seq<T>, f: T -> U, k: nat)
    requires k < |s|
    ensures MapSeq(s, f)[k] == f(s[k])
  {
    if k < |s| - 1 {
      MapSeqAt(s[..|s| - 1], f, k);
    }
  }

  lemma MapSeqSnoc<T, U>(s: seq<T>, x: T, f: T -> U)
    ensures MapSeq(s + [x], f) == MapSeq(s, f) + [f(x)]
  {
    assert (s + [x])[..|s|] == s;
  }

  /** The ids a comment table pairs with a non-empty partner. */
  ghost function MirroredIds(table: map<string, string>): set<string> {
    set id | id in table && Mirrored(table, id)
  }

  lemma MirroredIdsHas(table: map<string, string>, id: string)
    ensures id in MirroredIds(table) <==> Mirrored(table, id)
  { }

  /** The comment tables of one mirror loop: `pairs` holds exactly the
      comments it held at the start plus `ids`, and `back` only grows. */
  ghost predicate PairsRecorded(pairs: map<string, string>, pairs0: map<string, string>, ids: set<string>,
                                back: map<string, string>, back0: map<string, string>) {
    && MirroredIds(pairs) == MirroredIds(pairs0) + ids
    && MirroredIds(back0) <= MirroredIds(back)
  }

  /** `setCommentPair` with two non-empty ids records one more comment. */
  lemma PairsRecordedSnoc(pairs: map<string, string>, pairs0: map<string, string>, ids: set<string>,
                          back: map<string, string>, back0: map<string, string>, a: string, b: string)
    requires PairsRecorded(pairs, pairs0, ids, back, back0) && a != "" && b != ""
    ensures PairsRecorded(pairs[a := b], pairs0, ids + {a}, back[b := a], back0)
  {
    assert MirroredIds(pairs[a := b]) == MirroredIds(pairs) + {a};
    assert MirroredIds(back) <= MirroredIds(back[b := a]);
  }

  /** `table` with `kid(keys[k])` set to `vid(vals[k])` for each k in turn,
      as a run of `setCommentPair` calls leaves one of the comment tables. */
  function Written<K, V>(table: map<string, string>, keys: seq<K>, kid: K -> string, vals: seq<V>, vid: V -> string)
    : (r: map<string, string>)
    requires |keys| == |vals|
    ensures r.Keys == table.Keys + Ids(keys, kid)
  {
    if keys == [] then table
    else
      var n := |keys| - 1;
      IdsSnoc(keys[..n], keys[n], kid);
      assert keys[..n] + [keys[n]] == keys;
      Written(table, keys[..n], kid, vals[..n], vid)[kid(keys[n]) := vid(vals[n])]
  }

  lemma WrittenSnoc<K, V>(table: map<string, string>, keys: seq<K>, kid: K -> string, vals: seq<V>, vid: V -> string,
                          k: K, v: V)
    requires |keys| == |vals|
    ensures Written(table, keys + [k], kid, vals + [v], vid) == Written(table, keys, kid, vals, vid)[kid(k) := vid(v)]
  {
    assert (keys + [k])[..|keys|] == keys;
    assert (vals + [v])[..|vals|] == vals;
  }

  /** An id no pair wrote keeps its old entry. */
  lemma {:induction false} WrittenOutside<K, V>(table: map<string, string>, keys: seq<K>, kid: K -> string,
                                                vals: seq<V>, vid: V -> string, id: string)
    requires |keys| == |vals| && id !in Ids(keys, kid)
    ensures Lookup(Written(table, keys, kid, vals, vid), id) == Lookup(table, id)
  {
    if keys != [] {
      var n := |keys| - 1;
      IdsSnoc(keys[..n], keys[n], kid);
      assert keys[..n] + [keys[n]] == keys;
      WrittenOutside(table, keys[..n], kid, vals[..n], vid, id);
    }
  }

  /** The last position at or after k whose key equals the k-th. */
  function LastWith<K>(keys: seq<K>, kid: K -> string, k: nat): (j: nat)
    requires k < |keys|
    ensures k <= j < |keys| && kid(keys[j]) == kid(keys[k])
    ensures forall i :: j < i < |keys| ==> kid(keys[i]) != kid(keys[k])
  {
    var n := |keys| - 1;
    if kid(keys[n]) == kid(keys[k]) then n
    else
      var j := LastWith(keys[..n], kid, k);
      assert forall i :: j < i < n ==> keys[..n][i] == keys[i];
      j
  }

  /** A key written at position k holds the value of the last position
      that wrote the same key. */
  lemma {:induction false} WrittenLast<K, V>(table: map<string, string>, keys: seq<K>, kid: K -> string,
                                             vals: seq<V>, vid: V -> string, k: nat)
    requires |keys| == |vals| && k < |keys|
    ensures Written(table, keys, kid, vals, vid)[kid(keys[k])] == vid(vals[LastWith(keys, kid, k)])
  {
    var n := |keys| - 1;
    if kid(keys[n]) != kid(keys[k]) {
      WrittenLast(table, keys[..n], kid, vals[..n], vid, k);
      var j := LastWith(keys[..n], kid, k);
      assert LastWith(keys, kid, k) == j;
      assert vals[..n][j] == vals[j];
    }
  }

  /** A key written once holds the value written with it. */
  lemma WrittenOnce<K, V>(table: map<string, string>, keys: seq<K>, kid: K -> string,
                          vals: seq<V>, vid: V -> string, k: nat)
    requires |keys| == |vals| && k < |keys|
    requires forall j :: k < j < |keys| ==> kid(keys[j]) != kid(keys[k])
    ensures Written(table, keys, kid, vals, vid)[kid(keys[k])] == vid(vals[k])
  {
    WrittenLast(table, keys, kid, vals, vid, k);
  }

  /** The pairs one mirror loop wrote, starting from `pairs0` and `back0`:
      the k-th selected comment, whose id no earlier one shares, is paired
      with the id of the k-th copy in `pairs` and the other way round in
      `back`, and nothing else changed. */
  ghost predicate CopiesPaired<S, D>(pairs: map<string, string>, pairs0: map<string, string>,
                                     back: map<string, string>, back0: map<string, string>,
                                     sel: seq<S>, sid: S -> string, copies: seq<D>, did: D -> string) {
    && |sel| == |copies|
    && (forall k :: 0 <= k < |sel| ==> sid(sel[k]) != "" && sid(sel[k]) !in Ids(sel[..k], sid))
    && pairs == Written(pairs0, sel, sid, copies, did)
    && back == Written(back0, copies, did, sel, sid)
  }

  /** `setCommentPair` for a comment whose id the loop has not yet taken,
      and its new copy, extends the pairs by that comment. */
  lemma CopiesPairedSnoc<S, D>(pairs: map<string, string>, pairs0: map<string, string>,
                               back: map<string, string>, back0: map<string, string>,
                               sel: seq<S>, sid: S -> string, copies: seq<D>, did: D -> string, s: S, d: D)
    requires CopiesPaired(pairs, pairs0, back, back0, sel, sid, copies, did)
    requires sid(s) !in Ids(sel, sid) && sid(s) != ""
    ensures CopiesPaired(pairs[sid(s) := did(d)], pairs0, back[did(d) := sid(s)], back0, sel + [s], sid, copies + [d], did)
  {
    WrittenSnoc(pairs0, sel, sid, copies, did, s, d);
    WrittenSnoc(back0, copies, did, sel, sid, d, s);
    var sel' := sel + [s];
    forall k | 0 <= k < |sel'| ensures sid(sel'[k]) != "" && sid(sel'[k]) !in Ids(sel'[..k], sid) {
      if k < |sel| {
        assert sel'[k] == sel[k] && sel'[..k] == sel[..k];
      } else {
        assert sel'[..k] == sel;
      }
    }
  }

  /** Read off `CopiesPaired`: the k-th selected id is paired with the k-th
      copy's id, and the copy's id has a non-empty partner. */
  lemma {:induction false} CopiesPairedAt<S, D>(pairs: map<string, string>, pairs0: map<string, string>,
                                                back: map<string, string>, back0: map<string, string>,
                                                sel: seq<S>, sid: S -> string, copies: seq<D>, did: D -> string, k: nat)
    requires CopiesPaired(pairs, pairs0, back, back0, sel, sid, copies, did) && k < |sel|
    ensures sid(sel[k]) in pairs && pairs[sid(sel[k])] == did(copies[k])
    ensures Mirrored(back, did(copies[k]))
  {
    forall j | k < j < |sel| ensures sid(sel[j]) != sid(sel[k]) {
      assert sel[..j][k] == sel[k];
      assert sid(sel[..j][k]) in Ids(sel[..j], sid);
    }
    WrittenOnce(pairs0, sel, sid, copies, did, k);
    WrittenLast(back0, copies, did, sel, sid, k);
  }

  /** The issue-pair tables, which the comment loops leave alone. */
  function IssueTables(t: Tables): (map<string, string>, map<string, string>) {
    (t.linearToJira, t.jiraToLinear)
  }

  /** The comments issue `issueId` has gained since `issues0`. */
  ghost function LinearAdded(issues: map<string, LinearIssue>, issues0: map<string, LinearIssue>, issueId: string): seq<LinearComment>
    requires issueId in issues0
  {
    if issueId in issues then Since(issues0[issueId].comments, issues[issueId].comments) else []
  }

  /** The Linear side of the Jira-to-Linear loop: only issue `issueId`
      changed, and only by comments with `bodies` appended to its own. */
  ghost predicate LinearCommentsAppended(issues: map<string, LinearIssue>, issues0: map<string, LinearIssue>,
                                         issueId: string, bodies: seq<string>)
    requires issueId in issues0
  {
    var added := LinearAdded(issues, issues0, issueId);
    && issues == issues0[issueId := issues0[issueId].(comments := issues0[issueId].comments + added)]
    && MapSeq(added, LinearBody) == bodies
  }

  lemma LinearCommentsAppendedStart(issues: map<string, LinearIssue>, issueId: string)
    requires issueId in issues
    ensures LinearCommentsAppended(issues, issues, issueId, [])
  {
    var issue := issues[issueId];
    assert issue.comments[|issue.comments|..] == [];
    assert issue.comments + [] == issue.comments;
    assert issues == issues[issueId := issue.(comments := issue.comments + [])];
  }

  lemma LinearCommentsAppendedSnoc(issues: map<string, LinearIssue>, issues0: map<string, LinearIssue>,
                                   issueId: string, bodies: seq<string>, c: LinearComment)
    requires issueId in issues0 && issueId in issues
    requires LinearCommentsAppended(issues, issues0, issueId, bodies)
    ensures LinearCommentsAppended(issues[issueId := issues[issueId].(comments := issues[issueId].comments + [c])],
                                   issues0, issueId, bodies + [c.body])
    ensures LinearAdded(issues[issueId := issues[issueId].(comments := issues[issueId].comments + [c])], issues0, issueId)
      == LinearAdded(issues, issues0, issueId) + [c]
  {
    var issue0 := issues0[issueId];
    var added := LinearAdded(issues, issues0, issueId);
    var issue := issues[issueId];
    assert issue == issue0.(comments := issue0.comments + added);
    SinceSnoc(issue0.comments, added, c);
    MapSeqSnoc(added, c, LinearBody);
    var issues' := issues[issueId := issue.(comments := issue.comments + [c])];
    assert issue.comments + [c] == issue0.comments + (added + [c]);
    assert LinearAdded(issues', issues0, issueId) == added + [c];
    assert issues' == issues0[issueId := issue0.(comments := issue0.comments + (added + [c]))];
  }

  /** The comments Jira issue `jiraKey` has gained since `records0`. */
  ghost function JiraAdded(records: map<string, JiraRecord>, records0: map<string, JiraRecord>, jiraKey: string): seq<JiraComment>
    requires jiraKey in records0
  {
    if jiraKey in records then Since(records0[jiraKey].comments, records[jiraKey].comments) else []
  }

  /** The Jira side of the Linear-to-Jira loop: only issue `jiraKey` changed,
      and only by comments with `docs` appended to its own. */
  ghost predicate JiraCommentsAppended(records: map<string, JiraRecord>, records0: map<string, JiraRecord>,
                                       jiraKey: string, docs: seq<Adf>)
    requires jiraKey in records0
  {
    var added := JiraAdded(records, records0, jiraKey);
    && records == records0[jiraKey := records0[jiraKey].(comments := records0[jiraKey].comments + added)]
    && MapSeq(added, JiraBody) == docs
  }

  lemma JiraCommentsAppendedStart(records: map<string, JiraRecord>, jiraKey: string)
    requires jiraKey in records
    ensures JiraCommentsAppended(records, records, jiraKey, [])
  {
    var record := records[jiraKey];
    assert record.comments[|record.comments|..] == [];
    assert record.comments + [] == record.comments;
    assert records == records[jiraKey := record.(comments := record.comments + [])];
  }

  lemma JiraCommentsAppendedSnoc(records: map<string, JiraRecord>, records0: map<string, JiraRecord>,
                                 jiraKey: string, docs: seq<Adf>, c: JiraComment)
    requires jiraKey in records0 && jiraKey in records
    requires JiraCommentsAppended(records, records0, jiraKey, docs)
    ensures JiraCommentsAppended(records[jiraKey := records[jiraKey].(comments := records[jiraKey].comments + [c])],
                                 records0, jiraKey, docs + [c.body])
    ensures JiraAdded(records[jiraKey := records[jiraKey].(comments := records[jiraKey].comments + [c])], records0, jiraKey)
      == JiraAdded(records, records0, jiraKey) + [c]
  {
    var record0 := records0[jiraKey];
    var added := JiraAdded(records, records0, jiraKey);
    var record := records[jiraKey];
    assert record == record0.(comments := record0.comments + added);
    SinceSnoc(record0.comments, added, c);
    MapSeqSnoc(added, c, JiraBody);
    var records' := records[jiraKey := record.(comments := record.comments + [c])];
    assert record.comments + [c] == record0.comments + (added + [c]);
    assert JiraAdded(records', records0, jiraKey) == added + [c];
    assert records' == records0[jiraKey := record0.(comments := record0.comments + (added + [c]))];
  }


  // ---------------------------------------------------------------------
  // Jira to Linear

  /** A Jira comment the loop mirrors, unless an earlier comment of the same
      run already took its id: it has an id, the store has no partner for
      it, its plain text is non-empty and carries no `source:linear` marker,
      and its Linear body is not on the issue yet. */
  predicate JiraEligible(prefix: string, jiraKey: string, c: JiraComment, mirrored: map<string, string>, linearBodies: set<string>) {
    && c.id != ""
    && !Mirrored(mirrored, c.id)
    && PlainText(c.body) != ""
    && !Contains(PlainText(c.body), prefix + " source:linear")
    && JiraToLinearBody(prefix, jiraKey, c, PlainText(c.body)) !in linearBodies
  }

  function JiraId(c: JiraComment): string { c.id }

  /** The Jira comments mirrored to Linear, in order. Outside a dry run each
      mirrored comment is recorded in the store, so a later comment with the
      same id is skipped. */
  function SelectJiraToLinear(prefix: string, jiraKey: string, cs: seq<JiraComment>, mirrored: map<string, string>,
                              linearBodies: set<string>, dryRun: bool): (sel: seq<JiraComment>)
    ensures |sel| <= |cs|
  {
    if cs == [] then []
    else
      var sel := SelectJiraToLinear(prefix, jiraKey, cs[..|cs| - 1], mirrored, linearBodies, dryRun);
      var c := cs[|cs| - 1];
      if JiraEligible(prefix, jiraKey, c, mirrored, linearBodies) && (dryRun || c.id !in Ids(sel, JiraId)) then sel + [c] else sel
  }

  /** The Linear bodies the mirrored comments get. */
  function JiraMirrorBodies(prefix: string, jiraKey: string, sel: seq<JiraComment>): (r: seq<string>)
    ensures |r| == |sel|
  {
    if sel == [] then []
    else JiraMirrorBodies(prefix, jiraKey, sel[..|sel| - 1])
         + [JiraToLinearBody(prefix, jiraKey, sel[|sel| - 1], PlainText(sel[|sel| - 1].body))]
  }

  lemma JiraSelectSnoc(prefix: string, jiraKey: string, cs: seq<JiraComment>, c: JiraComment,
                       mirrored: map<string, string>, linearBodies: set<string>, dryRun: bool)
    ensures var sel := SelectJiraToLinear(prefix, jiraKey, cs, mirrored, linearBodies, dryRun);
      SelectJiraToLinear(prefix, jiraKey, cs + [c], mirrored, linearBodies, dryRun)
      == if JiraEligible(prefix, jiraKey, c, mirrored, linearBodies) && (dryRun || c.id !in Ids(sel, JiraId)) then sel + [c] else sel
  {
    assert (cs + [c])[..|cs|] == cs;
  }

  /** Only eligible comments are mirrored, each taken from the input. */
  lemma {:induction false} JiraSelectsOnlyEligible(prefix: string, jiraKey: string, cs: seq<JiraComment>,
                                                   mirrored: map<string, string>, linearBodies: set<string>, dryRun: bool)
    ensures var sel := SelectJiraToLinear(prefix, jiraKey, cs, mirrored, linearBodies, dryRun);
      forall c :: c in sel ==> c in cs && JiraEligible(prefix, jiraKey, c, mirrored, linearBodies)
  {
    if cs != [] {
      var init := cs[..|cs| - 1];
      JiraSelectsOnlyEligible(prefix, jiraKey, init, mirrored, linearBodies, dryRun);
      assert cs == init + [cs[|cs| - 1]];
      var s0 := SelectJiraToLinear(prefix, jiraKey, init, mirrored, linearBodies, dryRun);
      assert forall c :: c in s0 ==> c in init;
    }
  }

  /** In a dry run the loop mirrors exactly the eligible comments. */
  lemma {:induction false} JiraDryRunSelectsEligible(prefix: string, jiraKey: string, cs: seq<JiraComment>,
                                                     mirrored: map<string, string>, linearBodies: set<string>)
    ensures forall c :: (c in cs && JiraEligible(prefix, jiraKey, c, mirrored, linearBodies)
      ==> c in SelectJiraToLinear(prefix, jiraKey, cs, mirrored, linearBodies, true))
  {
    if cs != [] {
      var init := cs[..|cs| - 1];
      JiraDryRunSelectsEligible(prefix, jiraKey, init, mirrored, linearBodies);
      assert cs == init + [cs[|cs| - 1]];
    }
  }

  /** Outside a dry run every eligible comment is mirrored, itself or an
      earlier comment with the same id. */
  lemma {:induction false} JiraSelectsEveryEligibleId(prefix: string, jiraKey: string, cs: seq<JiraComment>,
                                                      mirrored: map<string, string>, linearBodies: set<string>)
    ensures forall c :: (c in cs && JiraEligible(prefix, jiraKey, c, mirrored, linearBodies)
      ==> c.id in Ids(SelectJiraToLinear(prefix, jiraKey, cs, mirrored, linearBodies, false), JiraId))
  {
    if cs != [] {
      var init := cs[..|cs| - 1];
      var c := cs[|cs| - 1];
      JiraSelectsEveryEligibleId(prefix, jiraKey, init, mirrored, linearBodies);
      IdsSnoc(SelectJiraToLinear(prefix, jiraKey, init, mirrored, linearBodies, false), c, JiraId);
      assert cs == init + [c];
    }
  }

  /** Running the loop again, once every comment it mirrored is recorded and
      the store and the issue's bodies have only grown, mirrors nothing. */
  lemma {:induction false} JiraToLinearIdempotent(prefix: string, jiraKey: string, cs: seq<JiraComment>,
                                                  mirrored: map<string, string>, linearBodies: set<string>,
                                                  mirrored': map<string, string>, linearBodies': set<string>)
    requires MirroredGrows(mirrored, mirrored')
    requires forall id :: id in Ids(SelectJiraToLinear(prefix, jiraKey, cs, mirrored, linearBodies, false), JiraId) ==> Mirrored(mirrored', id)
    requires linearBodies <= linearBodies'
    ensures SelectJiraToLinear(prefix, jiraKey, cs, mirrored', linearBodies', false) == []
  {
    if cs != [] {
      var init := cs[..|cs| - 1];
      var sel := SelectJiraToLinear(prefix, jiraKey, init, mirrored, linearBodies, false);
      var c := cs[|cs| - 1];
      var full := SelectJiraToLinear(prefix, jiraKey, cs, mirrored, linearBodies, false);
      assert Ids(sel, JiraId) <= Ids(full, JiraId) by {
        forall id | id in Ids(sel, JiraId) ensures id in Ids(full, JiraId) {
          var k :| 0 <= k < |sel| && sel[k].id == id;
          assert full[k] == sel[k];
        }
      }
      JiraToLinearIdempotent(prefix, jiraKey, init, mirrored, linearBodies, mirrored', linearBodies');
      if JiraEligible(prefix, jiraKey, c, mirrored, linearBodies) {
        if c.id in Ids(sel, JiraId) {
          assert Mirrored(mirrored', c.id);
        } else {
          assert full == sel + [c] && full[|sel|] == c;
          assert c.id in Ids(full, JiraId);
        }
      }
    }
  }

  /** The loop state the Jira-to-Linear loop keeps. */
  ghost predicate JiraToLinearState(store: Tables, store0: Tables, issues: map<string, LinearIssue>,
                                    issues0: map<string, LinearIssue>, issueId: string, prefix: string, jiraKey: string,
                                    sel: seq<JiraComment>, dryRun: bool)
    requires issueId in issues0
  {
    && IssueTables(store) == IssueTables(store0)
    && PairsRecorded(store.jiraCommentToLinearComment, store0.jiraCommentToLinearComment,
                     if dryRun then {} else Ids(sel, JiraId),
                     store.linearCommentToJiraComment, store0.linearCommentToJiraComment)
    && (dryRun ==> (store, issues) == (store0, issues0))
    && LinearCommentsAppended(issues, issues0, issueId, if dryRun then [] else JiraMirrorBodies(prefix, jiraKey, sel))
    && (!dryRun ==> CopiesPaired(store.jiraCommentToLinearComment, store0.jiraCommentToLinearComment,
                                 store.linearCommentToJiraComment, store0.linearCommentToJiraComment, sel, JiraId, LinearAdded(issues, issues0, issueId), LinearId))
  }

  lemma JiraToLinearStateStart(store: Tables, issues: map<string, LinearIssue>, issueId: string, prefix: string,
                               jiraKey: string, dryRun: bool)
    requires issueId in issues
    ensures JiraToLinearState(store, store, issues, issues, issueId, prefix, jiraKey, [], dryRun)
  {
    LinearCommentsAppendedStart(issues, issueId);
  }

  lemma JiraMirrorBodiesSnoc(prefix: string, jiraKey: string, sel: seq<JiraComment>, c: JiraComment)
    ensures JiraMirrorBodies(prefix, jiraKey, sel + [c])
      == JiraMirrorBodies(prefix, jiraKey, sel) + [JiraToLinearBody(prefix, jiraKey, c, PlainText(c.body))]
  {
    assert (sel + [c])[..|sel|] == sel;
  }

  /** The loop state after one more mirrored Jira comment: the new Linear
      comment `cid` carries `body`, and the two comments are paired. */
  lemma JiraToLinearStateSnoc(store: Tables, store0: Tables, issues: map<string, LinearIssue>,
                              issues0: map<string, LinearIssue>, issueId: string, prefix: string, jiraKey: string,
                              sel: seq<JiraComment>, jc: JiraComment, cid: string, body: string)
    requires issueId in issues0 && issueId in issues && jc.id != "" && cid != ""
    requires body == JiraToLinearBody(prefix, jiraKey, jc, PlainText(jc.body))
    requires JiraToLinearState(store, store0, issues, issues0, issueId, prefix, jiraKey, sel, false)
    requires jc.id !in Ids(sel, JiraId)
    ensures JiraToLinearState(
      store.(jiraCommentToLinearComment := store.jiraCommentToLinearComment[jc.id := cid],
             linearCommentToJiraComment := store.linearCommentToJiraComment[cid := jc.id]),
      store0,
      issues[issueId := issues[issueId].(comments := issues[issueId].comments + [LinearComment(cid, body, "", None)])],
      issues0, issueId, prefix, jiraKey, sel + [jc], false)
  {
    IdsSnoc(sel, jc, JiraId);
    PairsRecordedSnoc(store.jiraCommentToLinearComment, store0.jiraCommentToLinearComment, Ids(sel, JiraId),
                      store.linearCommentToJiraComment, store0.linearCommentToJiraComment, jc.id, cid);
    JiraMirrorBodiesSnoc(prefix, jiraKey, sel, jc);
    LinearCommentsAppendedSnoc(issues, issues0, issueId, JiraMirrorBodies(prefix, jiraKey, sel),
                               LinearComment(cid, body, "", None));
    CopiesPairedSnoc(store.jiraCommentToLinearComment, store0.jiraCommentToLinearComment,
                     store.linearCommentToJiraComment, store0.linearCommentToJiraComment, sel, JiraId,
                     LinearAdded(issues, issues0, issueId), LinearId, jc, LinearComment(cid, body, "", None));
  }

  lemma {:induction false} JiraMirrorBodiesAt(prefix: string, jiraKey: string, sel: seq<JiraComment>, k: nat)
    requires k < |sel|
    ensures JiraMirrorBodies(prefix, jiraKey, sel)[k] == JiraToLinearBody(prefix, jiraKey, sel[k], PlainText(sel[k].body))
  {
    if k < |sel| - 1 {
      JiraMirrorBodiesAt(prefix, jiraKey, sel[..|sel| - 1], k);
    }
  }

  /** Outside a dry run, the store pairs each mirrored Jira comment with a
      comment new on the Linear issue that carries the comment's built body,
      and that Linear comment counts as mirrored. */
  lemma JiraCopyRecorded(store: Tables, store0: Tables, issues: map<string, LinearIssue>,
                         issues0: map<string, LinearIssue>, issueId: string, prefix: string, jiraKey: string,
                         sel: seq<JiraComment>, k: nat)
    requires issueId in issues0 && k < |sel|
    requires JiraToLinearState(store, store0, issues, issues0, issueId, prefix, jiraKey, sel, false)
    ensures sel[k].id in store.jiraCommentToLinearComment
    ensures var cid := store.jiraCommentToLinearComment[sel[k].id];
      var before, after := issues0[issueId].comments, issues[issueId].comments;
      && |before| + k < |after|
      && after[|before| + k].id == cid
      && after[|before| + k].body == JiraToLinearBody(prefix, jiraKey, sel[k], PlainText(sel[k].body))
      && Mirrored(store.linearCommentToJiraComment, cid)
  {
    var added := LinearAdded(issues, issues0, issueId);
    var before := issues0[issueId].comments;
    assert issues[issueId].comments == before + added;
    MapSeqAt(added, LinearBody, k);
    JiraMirrorBodiesAt(prefix, jiraKey, sel, k);
    CopiesPairedAt(store.jiraCommentToLinearComment, store0.jiraCommentToLinearComment,
                   store.linearCommentToJiraComment, store0.linearCommentToJiraComment, sel, JiraId, added, LinearId, k);
    assert (before + added)[|before| + k] == added[k];
  }

  /** Mirrors one selected Jira comment outside a dry run: creates its body on
      the Linear issue and pairs the two comments in the store. */
  method MirrorToLinear(prefix: string, jiraKey: string, issueId: string, jc: JiraComment, body: string,
                        linear: LinearServer, store: JiraLinearMappingStore,
                        ghost store0: Tables, ghost issues0: map<string, LinearIssue>, ghost sel: seq<JiraComment>)
    requires issueId in issues0 && jc.id != ""
    requires body == JiraToLinearBody(prefix, jiraKey, jc, PlainText(jc.body))
    requires JiraToLinearState(store.Content(), store0, linear.issues, issues0, issueId, prefix, jiraKey, sel, false)
    requires jc.id !in Ids(sel, JiraId)
    modifies store, linear`issues, linear`nextCommentNumber
    ensures JiraToLinearState(store.Content(), store0, linear.issues, issues0, issueId, prefix, jiraKey, sel + [jc], false)
  {
    ghost var t := store.Content();
    ghost var issues := linear.issues;
    assert issueId in issues;
    var created := linear.CreateComment(issueId, body);
    if created.Ok? {
      store.SetCommentPair(jc.id, created.value);
      JiraToLinearStateSnoc(t, store0, issues, issues0, issueId, prefix, jiraKey, sel, jc, created.value, body);
    }
  }

  /** One pass of the Jira-to-Linear loop: the comment is taken exactly when
      the selection takes it, and the loop state moves on accordingly. */
  method JiraToLinearStep(prefix: string, jiraKey: string, issueId: string, jc: JiraComment, linearBodies: set<string>,
                          linear: LinearServer, store: JiraLinearMappingStore, dryRun: bool,
                          ghost store0: Tables, ghost issues0: map<string, LinearIssue>,
                          ghost done: seq<JiraComment>, ghost sel: seq<JiraComment>)
    returns (taken: bool, ghost next: seq<JiraComment>)
    requires issueId in issues0
    requires sel == SelectJiraToLinear(prefix, jiraKey, done, store0.jiraCommentToLinearComment, linearBodies, dryRun)
    requires JiraToLinearState(store.Content(), store0, linear.issues, issues0, issueId, prefix, jiraKey, sel, dryRun)
    modifies store, linear`issues, linear`nextCommentNumber
    ensures next == if taken then sel + [jc] else sel
    ensures next == SelectJiraToLinear(prefix, jiraKey, done + [jc], store0.jiraCommentToLinearComment, linearBodies, dryRun)
    ensures JiraToLinearState(store.Content(), store0, linear.issues, issues0, issueId, prefix, jiraKey, next, dryRun)
  {
    JiraSelectSnoc(prefix, jiraKey, done, jc, store0.jiraCommentToLinearComment, linearBodies, dryRun);
    taken, next := false, sel;
    if jc.id == "" {
      return;
    }
    var mirrored := store.HasJiraCommentMirrored(jc.id);
    MirroredIdsHas(store.jiraCommentToLinearComment, jc.id);
    MirroredIdsHas(store0.jiraCommentToLinearComment, jc.id);
    if mirrored {
      return;
    }
    var text := AdfToPlainText(jc.body);
    if text == "" {
      return;
    }
    if Contains(text, prefix + " source:linear") {
      return;
    }
    var body := JiraToLinearBody(prefix, jiraKey, jc, text);
    if body in linearBodies {
      return;
    }
    if !dryRun {
      MirrorToLinear(prefix, jiraKey, issueId, jc, body, linear, store, store0, issues0, sel);
    }
    taken, next := true, sel + [jc];
  }

  /** The loop of `syncCommentsJiraToLinear` over the listed comments. */
  method JiraToLinearLoop(prefix: string, jiraKey: string, issueId: string, comments: seq<JiraComment>,
                          linearBodies: set<string>, linear: LinearServer, store: JiraLinearMappingStore, dryRun: bool,
                          ghost store0: Tables, ghost issues0: map<string, LinearIssue>)
    returns (count: nat, ghost sel: seq<JiraComment>)
    requires store0 == store.Content() && issues0 == linear.issues
    requires issueId in issues0
    modifies store, linear`issues, linear`nextCommentNumber
    ensures sel == SelectJiraToLinear(prefix, jiraKey, comments, store0.jiraCommentToLinearComment, linearBodies, dryRun)
    ensures count == |sel|
    ensures JiraToLinearState(store.Content(), store0, linear.issues, issues0, issueId, prefix, jiraKey, sel, dryRun)
  {
    count := 0;
    sel := [];
    JiraToLinearStateStart(store0, issues0, issueId, prefix, jiraKey, dryRun);
    for i := 0 to |comments|
      invariant sel == SelectJiraToLinear(prefix, jiraKey, comments[..i], store0.jiraCommentToLinearComment, linearBodies, dryRun)
      invariant count == |sel|
      invariant JiraToLinearState(store.Content(), store0, linear.issues, issues0, issueId, prefix, jiraKey, sel, dryRun)
    {
      TakeNext(comments, i);
      var taken;
      taken, sel := JiraToLinearStep(prefix, jiraKey, issueId, comments[i], linearBodies, linear, store, dryRun,
                                     store0, issues0, comments[..i], sel);
      if taken {
        count := count + 1;
      }
    }
    assert comments[..|comments|] == comments;
  }

  /** `syncCommentsJiraToLinear`. The Jira comments and the Linear issue are
      fetched (a missing one aborts). The count is the number of selected
      comments; outside a dry run each selected comment is created on the
      Linear issue under its built body and paired in the store, and in a dry
      run nothing is created and the store is unchanged. */
  method SyncCommentsJiraToLinear(prefix: string, jiraKey: string, issueId: string, linear: LinearServer,
                                  jira: JiraServer, store: JiraLinearMappingStore, dryRun: bool)
    returns (r: Result<nat>)
    requires linear.Valid()
    modifies store, linear`issues, linear`nextCommentNumber, linear`viewFetches
    ensures linear.Valid()
    ensures linear.viewFetches == old(linear.viewFetches) + [issueId]
    ensures r.Ok? <==> jiraKey in jira.records && issueId in old(linear.issues)
    ensures !r.Ok? ==> store.Content() == old(store.Content()) && linear.issues == old(linear.issues)
    ensures r.Ok? ==>
      var sel := SelectJiraToLinear(prefix, jiraKey, jira.records[jiraKey].comments,
                                    old(store.jiraCommentToLinearComment),
                                    LinearBodies(old(linear.issues)[issueId].comments), dryRun);
      && r.value == |sel|
      && JiraToLinearState(store.Content(), old(store.Content()), linear.issues, old(linear.issues), issueId,
                           prefix, jiraKey, sel, dryRun)
  {
    var listed := jira.ListComments(jiraKey);
    var fetched := linear.FetchIssueSyncView(issueId);
    if listed.Failure? {
      return Failure(listed.reason);
    }
    if fetched.Failure? {
      return Failure(fetched.reason);
    }
    var view := fetched.value;
    var linearBodies := LinearBodies(view.comments);
    var count, sel := JiraToLinearLoop(prefix, jiraKey, view.id, listed.value, linearBodies, linear, store, dryRun,
                                       store.Content(), linear.issues);
    r := Ok(count);
  }

  // ---------------------------------------------------------------------
  // Linear to Jira

  /** A Linear comment the loop mirrors, unless an earlier comment of the
      same run already took its id: it has an id, the store has no partner
      for it, its body carries no `source:jira` marker, and its Jira text is
      not the plain text of a comment already on the Jira issue. */
  predicate LinearEligible(prefix: string, issue: LinearIssue, c: LinearComment, mirrored: map<string, string>, jiraPlain: set<string>) {
    && c.id != ""
    && !Mirrored(mirrored, c.id)
    && !HasMarker(c.body, prefix + " source:jira")
    && LinearToJiraBody(prefix, issue, c) !in jiraPlain
  }

  function LinearId(c: LinearComment): string { c.id }

  /** The Linear comments mirrored to Jira, in order. */
  function SelectLinearToJira(prefix: string, issue: LinearIssue, cs: seq<LinearComment>, mirrored: map<string, string>,
                              jiraPlain: set<string>, dryRun: bool): (sel: seq<LinearComment>)
    ensures |sel| <= |cs|
  {
    if cs == [] then []
    else
      var sel := SelectLinearToJira(prefix, issue, cs[..|cs| - 1], mirrored, jiraPlain, dryRun);
      var c := cs[|cs| - 1];
      if LinearEligible(prefix, issue, c, mirrored, jiraPlain) && (dryRun || c.id !in Ids(sel, LinearId)) then sel + [c] else sel
  }

  /** The documents the mirrored comments get on Jira. */
  function LinearMirrorDocs(prefix: string, issue: LinearIssue, sel: seq<LinearComment>): (r: seq<Adf>)
    ensures |r| == |sel|
  {
    if sel == [] then []
    else LinearMirrorDocs(prefix, issue, sel[..|sel| - 1]) + [DocOf(LinearToJiraBody(prefix, issue, sel[|sel| - 1]))]
  }

  lemma LinearSelectSnoc(prefix: string, issue: LinearIssue, cs: seq<LinearComment>, c: LinearComment,
                         mirrored: map<string, string>, jiraPlain: set<string>, dryRun: bool)
    ensures var sel := SelectLinearToJira(prefix, issue, cs, mirrored, jiraPlain, dryRun);
      SelectLinearToJira(prefix, issue, cs + [c], mirrored, jiraPlain, dryRun)
      == if LinearEligible(prefix, issue, c, mirrored, jiraPlain) && (dryRun || c.id !in Ids(sel, LinearId)) then sel + [c] else sel
  {
    assert (cs + [c])[..|cs|] == cs;
  }

  /** Only eligible comments are mirrored, each taken from the input. */
  lemma {:induction false} LinearSelectsOnlyEligible(prefix: string, issue: LinearIssue, cs: seq<LinearComment>,
                                                     mirrored: map<string, string>, jiraPlain: set<string>, dryRun: bool)
    ensures var sel := SelectLinearToJira(prefix, issue, cs, mirrored, jiraPlain, dryRun);
      forall c :: c in sel ==> c in cs && LinearEligible(prefix, issue, c, mirrored, jiraPlain)
  {
    if cs != [] {
      var init := cs[..|cs| - 1];
      LinearSelectsOnlyEligible(prefix, issue, init, mirrored, jiraPlain, dryRun);
      assert cs == init + [cs[|cs| - 1]];
      var s0 := SelectLinearToJira(prefix, issue, init, mirrored, jiraPlain, dryRun);
      assert forall c :: c in s0 ==> c in init;
    }
  }

  /** In a dry run the loop mirrors exactly the eligible comments. */
  lemma {:induction false} LinearDryRunSelectsEligible(prefix: string, issue: LinearIssue, cs: seq<LinearComment>,
                                                       mirrored: map<string, string>, jiraPlain: set<string>)
    ensures forall c :: (c in cs && LinearEligible(prefix, issue, c, mirrored, jiraPlain)
      ==> c in SelectLinearToJira(prefix, issue, cs, mirrored, jiraPlain, true))
  {
    if cs != [] {
      var init := cs[..|cs| - 1];
      LinearDryRunSelectsEligible(prefix, issue, init, mirrored, jiraPlain);
      assert cs == init + [cs[|cs| - 1]];
    }
  }

  /** Outside a dry run every eligible comment is mirrored, itself or an
      earlier comment with the same id. */
  lemma {:induction false} LinearSelectsEveryEligibleId(prefix: string, issue: LinearIssue, cs: seq<LinearComment>,
                                                        mirrored: map<string, string>, jiraPlain: set<string>)
    ensures forall c :: (c in cs && LinearEligible(prefix, issue, c, mirrored, jiraPlain)
      ==> c.id in Ids(SelectLinearToJira(prefix, issue, cs, mirrored, jiraPlain, false), LinearId))
  {
    if cs != [] {
      var init := cs[..|cs| - 1];
      var c := cs[|cs| - 1];
      LinearSelectsEveryEligibleId(prefix, issue, init, mirrored, jiraPlain);
      IdsSnoc(SelectLinearToJira(prefix, issue, init, mirrored, jiraPlain, false), c, LinearId);
      assert cs == init + [c];
    }
  }

  /** Running the loop again, once every comment it mirrored is recorded and
      the store has only grown, mirrors nothing. */
  lemma {:induction false} LinearToJiraIdempotent(prefix: string, issue: LinearIssue, cs: seq<LinearComment>,
                                                  mirrored: map<string, string>, jiraPlain: set<string>,
                                                  mirrored': map<string, string>, jiraPlain': set<string>)
    requires MirroredGrows(mirrored, mirrored')
    requires forall id :: id in Ids(SelectLinearToJira(prefix, issue, cs, mirrored, jiraPlain, false), LinearId) ==> Mirrored(mirrored', id)
    requires jiraPlain <= jiraPlain'
    ensures SelectLinearToJira(prefix, issue, cs, mirrored', jiraPlain', false) == []
  {
    if cs != [] {
      var init := cs[..|cs| - 1];
      var sel := SelectLinearToJira(prefix, issue, init, mirrored, jiraPlain, false);
      var c := cs[|cs| - 1];
      var full := SelectLinearToJira(prefix, issue, cs, mirrored, jiraPlain, false);
      assert Ids(sel, LinearId) <= Ids(full, LinearId) by {
        forall id | id in Ids(sel, LinearId) ensures id in Ids(full, LinearId) {
          var k :| 0 <= k < |sel| && sel[k].id == id;
          assert full[k] == sel[k];
        }
      }
      LinearToJiraIdempotent(prefix, issue, init, mirrored, jiraPlain, mirrored', jiraPlain');
      if LinearEligible(prefix, issue, c, mirrored, jiraPlain) {
        if c.id in Ids(sel, LinearId) {
          assert Mirrored(mirrored', c.id);
        } else {
          assert full == sel + [c] && full[|sel|] == c;
          assert c.id in Ids(full, LinearId);
        }
      }
    }
  }

  /** The loop state the Linear-to-Jira loop keeps. */
  ghost predicate LinearToJiraState(store: Tables, store0: Tables, records: map<string, JiraRecord>,
                                    records0: map<string, JiraRecord>, jiraKey: string, prefix: string, issue: LinearIssue,
                                    sel: seq<LinearComment>, dryRun: bool)
    requires jiraKey in records0
  {
    && IssueTables(store) == IssueTables(store0)
    && PairsRecorded(store.linearCommentToJiraComment, store0.linearCommentToJiraComment,
                     if dryRun then {} else Ids(sel, LinearId),
                     store.jiraCommentToLinearComment, store0.jiraCommentToLinearComment)
    && (dryRun ==> (store, records) == (store0, records0))
    && JiraCommentsAppended(records, records0, jiraKey, if dryRun then [] else LinearMirrorDocs(prefix, issue, sel))
    && (!dryRun ==> CopiesPaired(store.linearCommentToJiraComment, store0.linearCommentToJiraComment,
                                 store.jiraCommentToLinearComment, store0.jiraCommentToLinearComment, sel, LinearId, JiraAdded(records, records0, jiraKey), JiraId))
  }

  lemma LinearToJiraStateStart(store: Tables, records: map<string, JiraRecord>, jiraKey: string, prefix: string,
                               issue: LinearIssue, dryRun: bool)
    requires jiraKey in records
    ensures LinearToJiraState(store, store, records, records, jiraKey, prefix, issue, [], dryRun)
  {
    JiraCommentsAppendedStart(records, jiraKey);
  }

  lemma LinearMirrorDocsSnoc(prefix: string, issue: LinearIssue, sel: seq<LinearComment>, c: LinearComment)
    ensures LinearMirrorDocs(prefix, issue, sel + [c])
      == LinearMirrorDocs(prefix, issue, sel) + [DocOf(LinearToJiraBody(prefix, issue, c))]
  {
    assert (sel + [c])[..|sel|] == sel;
  }

  /** The loop state after one more mirrored Linear comment: the new Jira
      comment `cid` carries `textToAdf(bodyText)`, and the two comments are
      paired. */
  lemma LinearToJiraStateSnoc(store: Tables, store0: Tables, records: map<string, JiraRecord>,
                              records0: map<string, JiraRecord>, jiraKey: string, prefix: string, issue: LinearIssue,
                              sel: seq<LinearComment>, lc: LinearComment, cid: string, bodyText: string)
    requires jiraKey in records0 && jiraKey in records && lc.id != "" && cid != ""
    requires bodyText == LinearToJiraBody(prefix, issue, lc)
    requires LinearToJiraState(store, store0, records, records0, jiraKey, prefix, issue, sel, false)
    requires lc.id !in Ids(sel, LinearId)
    ensures LinearToJiraState(
      store.(jiraCommentToLinearComment := store.jiraCommentToLinearComment[cid := lc.id],
             linearCommentToJiraComment := store.linearCommentToJiraComment[lc.id := cid]),
      store0,
      records[jiraKey := records[jiraKey].(comments := records[jiraKey].comments + [JiraComment(cid, "", None, DocOf(bodyText))])],
      records0, jiraKey, prefix, issue, sel + [lc], false)
  {
    IdsSnoc(sel, lc, LinearId);
    PairsRecordedSnoc(store.linearCommentToJiraComment, store0.linearCommentToJiraComment, Ids(sel, LinearId),
                      store.jiraCommentToLinearComment, store0.jiraCommentToLinearComment, lc.id, cid);
    LinearMirrorDocsSnoc(prefix, issue, sel, lc);
    JiraCommentsAppendedSnoc(records, records0, jiraKey, LinearMirrorDocs(prefix, issue, sel),
                             JiraComment(cid, "", None, DocOf(bodyText)));
    CopiesPairedSnoc(store.linearCommentToJiraComment, store0.linearCommentToJiraComment,
                     store.jiraCommentToLinearComment, store0.jiraCommentToLinearComment, sel, LinearId,
                     JiraAdded(records, records0, jiraKey), JiraId, lc, JiraComment(cid, "", None, DocOf(bodyText)));
  }

  lemma {:induction false} LinearMirrorDocsAt(prefix: string, issue: LinearIssue, sel: seq<LinearComment>, k: nat)
    requires k < |sel|
    ensures LinearMirrorDocs(prefix, issue, sel)[k] == DocOf(LinearToJiraBody(prefix, issue, sel[k]))
  {
    if k < |sel| - 1 {
      LinearMirrorDocsAt(prefix, issue, sel[..|sel| - 1], k);
    }
  }

  /** Outside a dry run, the store pairs each mirrored Linear comment with a
      comment new on the Jira issue whose document is `textToAdf` of the
      comment's built text, and that Jira comment counts as mirrored. */
  lemma LinearCopyRecorded(store: Tables, store0: Tables, records: map<string, JiraRecord>,
                           records0: map<string, JiraRecord>, jiraKey: string, prefix: string, issue: LinearIssue,
                           sel: seq<LinearComment>, k: nat)
    requires jiraKey in records0 && k < |sel|
    requires LinearToJiraState(store, store0, records, records0, jiraKey, prefix, issue, sel, false)
    ensures sel[k].id in store.linearCommentToJiraComment
    ensures var cid := store.linearCommentToJiraComment[sel[k].id];
      var before, after := records0[jiraKey].comments, records[jiraKey].comments;
      && |before| + k < |after|
      && after[|before| + k].id == cid
      && after[|before| + k].body == DocOf(LinearToJiraBody(prefix, issue, sel[k]))
      && Mirrored(store.jiraCommentToLinearComment, cid)
  {
    var added := JiraAdded(records, records0, jiraKey);
    var before := records0[jiraKey].comments;
    assert records[jiraKey].comments == before + added;
    MapSeqAt(added, JiraBody, k);
    LinearMirrorDocsAt(prefix, issue, sel, k);
    CopiesPairedAt(store.linearCommentToJiraComment, store0.linearCommentToJiraComment,
                   store.jiraCommentToLinearComment, store0.jiraCommentToLinearComment, sel, LinearId, added, JiraId, k);
    assert (before + added)[|before| + k] == added[k];
  }

  /** Mirrors one selected Linear comment outside a dry run: adds its text to
      the Jira issue and pairs the two comments in the store. */
  method MirrorToJira(prefix: string, jiraKey: string, issue: LinearIssue, lc: LinearComment, bodyText: string,
                      jira: JiraServer, store: JiraLinearMappingStore,
                      ghost store0: Tables, ghost records0: map<string, JiraRecord>, ghost sel: seq<LinearComment>)
    requires jiraKey in records0 && lc.id != ""
    requires bodyText == LinearToJiraBody(prefix, issue, lc)
    requires LinearToJiraState(store.Content(), store0, jira.records, records0, jiraKey, prefix, issue, sel, false)
    requires lc.id !in Ids(sel, LinearId)
    modifies store, jira`records, jira`nextCommentNumber
    ensures LinearToJiraState(store.Content(), store0, jira.records, records0, jiraKey, prefix, issue, sel + [lc], false)
  {
    ghost var t := store.Content();
    ghost var records := jira.records;
    assert jiraKey in records;
    var created := jira.AddComment(jiraKey, bodyText);
    if created.Ok? {
      store.SetCommentPair(created.value, lc.id);
      LinearToJiraStateSnoc(t, store0, records, records0, jiraKey, prefix, issue, sel, lc, created.value, bodyText);
    }
  }

  /** One pass of the Linear-to-Jira loop: the comment is taken exactly when
      the selection takes it, and the loop state moves on accordingly. */
  method LinearToJiraStep(prefix: string, jiraKey: string, issue: LinearIssue, lc: LinearComment, jiraPlainBodies: set<string>,
                          jira: JiraServer, store: JiraLinearMappingStore, dryRun: bool,
                          ghost store0: Tables, ghost records0: map<string, JiraRecord>,
                          ghost done: seq<LinearComment>, ghost sel: seq<LinearComment>)
    returns (taken: bool, ghost next: seq<LinearComment>)
    requires jiraKey in records0
    requires sel == SelectLinearToJira(prefix, issue, done, store0.linearCommentToJiraComment, jiraPlainBodies, dryRun)
    requires LinearToJiraState(store.Content(), store0, jira.records, records0, jiraKey, prefix, issue, sel, dryRun)
    modifies store, jira`records, jira`nextCommentNumber
    ensures next == if taken then sel + [lc] else sel
    ensures next == SelectLinearToJira(prefix, issue, done + [lc], store0.linearCommentToJiraComment, jiraPlainBodies, dryRun)
    ensures LinearToJiraState(store.Content(), store0, jira.records, records0, jiraKey, prefix, issue, next, dryRun)
  {
    LinearSelectSnoc(prefix, issue, done, lc, store0.linearCommentToJiraComment, jiraPlainBodies, dryRun);
    taken, next := false, sel;
    if lc.id == "" {
      return;
    }
    var mirrored := store.HasLinearCommentMirrored(lc.id);
    MirroredIdsHas(store.linearCommentToJiraComment, lc.id);
    MirroredIdsHas(store0.linearCommentToJiraComment, lc.id);
    if mirrored {
      return;
    }
    if HasMarker(lc.body, prefix + " source:jira") {
      return;
    }
    var bodyText := LinearToJiraBody(prefix, issue, lc);
    if bodyText in jiraPlainBodies {
      return;
    }
    if !dryRun {
      MirrorToJira(prefix, jiraKey, issue, lc, bodyText, jira, store, store0, records0, sel);
    }
    taken, next := true, sel + [lc];
  }

  /** The loop of `syncCommentsLinearToJira` over the issue's comments. */
  method LinearToJiraLoop(prefix: string, jiraKey: string, issue: LinearIssue, comments: seq<LinearComment>,
                          jiraPlainBodies: set<string>, jira: JiraServer, store: JiraLinearMappingStore, dryRun: bool,
                          ghost store0: Tables, ghost records0: map<string, JiraRecord>)
    returns (count: nat, ghost sel: seq<LinearComment>)
    requires store0 == store.Content() && records0 == jira.records
    requires jiraKey in records0
    modifies store, jira`records, jira`nextCommentNumber
    ensures sel == SelectLinearToJira(prefix, issue, comments, store0.linearCommentToJiraComment, jiraPlainBodies, dryRun)
    ensures count == |sel|
    ensures LinearToJiraState(store.Content(), store0, jira.records, records0, jiraKey, prefix, issue, sel, dryRun)
  {
    count := 0;
    sel := [];
    LinearToJiraStateStart(store0, records0, jiraKey, prefix, issue, dryRun);
    for i := 0 to |comments|
      invariant sel == SelectLinearToJira(prefix, issue, comments[..i], store0.linearCommentToJiraComment, jiraPlainBodies, dryRun)
      invariant count == |sel|
      invariant LinearToJiraState(store.Content(), store0, jira.records, records0, jiraKey, prefix, issue, sel, dryRun)
    {
      TakeNext(comments, i);
      var taken;
      taken, sel := LinearToJiraStep(prefix, jiraKey, issue, comments[i], jiraPlainBodies, jira, store, dryRun,
                                     store0, records0, comments[..i], sel);
      if taken {
        count := count + 1;
      }
    }
    assert comments[..|comments|] == comments;
  }

  /** `syncCommentsLinearToJira`. The Jira comments and the Linear issue are
      fetched (a missing one aborts). The count is the number of selected
      comments; outside a dry run each selected comment is added to the Jira
      issue as `textToAdf` of its built text and paired in the store, and in a
      dry run nothing is added and the store is unchanged. */
  method SyncCommentsLinearToJira(prefix: string, jiraKey: string, issueId: string, linear: LinearServer,
                                  jira: JiraServer, store: JiraLinearMappingStore, dryRun: bool)
    returns (r: Result<nat>)
    modifies store, jira`records, jira`nextCommentNumber, linear`viewFetches
    ensures linear.viewFetches == old(linear.viewFetches) + [issueId]
    ensures r.Ok? <==> jiraKey in old(jira.records) && issueId in linear.issues
    ensures !r.Ok? ==> store.Content() == old(store.Content()) && jira.records == old(jira.records)
    ensures r.Ok? ==>
      var issue := linear.issues[issueId];
      var sel := SelectLinearToJira(prefix, issue, issue.comments, old(store.linearCommentToJiraComment),
                                    JiraPlainTexts(old(jira.records)[jiraKey].comments), dryRun);
      && r.value == |sel|
      && LinearToJiraState(store.Content(), old(store.Content()), jira.records, old(jira.records), jiraKey,
                           prefix, issue, sel, dryRun)
  {
    var listed := jira.ListComments(jiraKey);
    var fetched := linear.FetchIssueSyncView(issueId);
    if listed.Failure? {
      return Failure(listed.reason);
    }
    if fetched.Failure? {
      return Failure(fetched.reason);
    }
    var jiraPlainBodies := JiraPlainTexts(listed.value);
    var count, sel := LinearToJiraLoop(prefix, jiraKey, fetched.value, fetched.value.comments, jiraPlainBodies,
                                       jira, store, dryRun, store.Content(), jira.records);
    r := Ok(count);
  }

  // ---------------------------------------------------------------------
  // The two loops together

  /** A Linear comment made by the Jira-to-Linear loop is never mirrored back:
      its body carries the `source:jira` marker. */
  lemma JiraMirrorNotEchoed(prefix: string, jiraKey: string, jc: JiraComment, text: string, issue: LinearIssue,
                            c: LinearComment, mirrored: map<string, string>, jiraPlain: set<string>)
    requires c.body == JiraToLinearBody(prefix, jiraKey, jc, text)
    ensures !LinearEligible(prefix, issue, c, mirrored, jiraPlain)
  {
    JiraBodyCarriesJiraMarker(prefix, jiraKey, jc, text);
  }

  /** A Jira comment made by the Linear-to-Jira loop is never mirrored back:
      its plain text still carries the `source:linear` marker. */
  lemma LinearMirrorNotEchoed(prefix: string, issue: LinearIssue, lc: LinearComment, jiraKey: string,
                              c: JiraComment, mirrored: map<string, string>, linearBodies: set<string>)
    requires c.body == DocOf(LinearToJiraBody(prefix, issue, lc))
    ensures !JiraEligible(prefix, jiraKey, c, mirrored, linearBodies)
  {
    LinearBodySurvivesJira(prefix, issue, lc);
  }

  /** The Linear-to-Jira content check sees an earlier copy of a comment on
      Jira when the comment's body does not end in whitespace: the copy's
      plain text is the built text itself. */
  lemma LinearDedupSeesCopy(prefix: string, issue: LinearIssue, lc: LinearComment, jiraComments: seq<JiraComment>,
                            k: nat, mirrored: map<string, string>)
    requires lc.body != "" && !IsJsWhitespace(lc.body[|lc.body| - 1])
    requires k < |jiraComments| && jiraComments[k].body == DocOf(LinearToJiraBody(prefix, issue, lc))
    ensures !LinearEligible(prefix, issue, lc, mirrored, JiraPlainTexts(jiraComments))
  {
    var text := LinearToJiraBody(prefix, issue, lc);
    LinearBodyEndsWithComment(prefix, issue, lc);
    assert text[|text| - 1] == lc.body[|lc.body| - 1];
    RoundTrip(text);
    assert jiraComments[k] in jiraComments;
  }

  /** It misses the copy when the body is empty or ends in whitespace: Jira
      trims the trailing whitespace, so the copy's plain text differs from
      the built text. */
  lemma LinearDedupMissesTrailingWhitespace(prefix: string, issue: LinearIssue, lc: LinearComment, c: JiraComment)
    requires lc.body == "" || IsJsWhitespace(lc.body[|lc.body| - 1])
    requires c.body == DocOf(LinearToJiraBody(prefix, issue, lc))
    ensures PlainText(c.body) != LinearToJiraBody(prefix, issue, lc)
  {
    var text := LinearToJiraBody(prefix, issue, lc);
    LinearBodyEndsWithComment(prefix, issue, lc);
    assert IsJsWhitespace(text[|text| - 1]);
    RoundTrip(text);
  }

  // ---------------------------------------------------------------------
  // What a second pass sees

  /** Growth of the paired ids, in the form the idempotence lemmas take. */
  lemma MirroredIdsGrow(before: map<string, string>, after: map<string, string>)
    requires MirroredIds(before) <= MirroredIds(after)
    ensures MirroredGrows(before, after)
  {
    forall id | Mirrored(before, id) ensures Mirrored(after, id) {
      MirroredIdsHas(before, id);
      MirroredIdsHas(after, id);
    }
  }

  lemma SnocInjective<T>(a: seq<T>, x: T, b: seq<T>, y: T)
    requires a + [x] == b + [y]
    ensures a == b && x == y
  {
    assert (a + [x])[..|a|] == a && (b + [y])[..|b|] == b;
    assert (a + [x])[|a|] == x && (b + [y])[|b|] == y;
  }

  /** The Jira-to-Linear loop passes over the copies the Linear-to-Jira loop
      appended to the Jira issue: selecting over the grown list selects what
      the list selected before. */
  lemma {:induction false} JiraSelectSkipsEchoes(prefix: string, jiraKey: string, cs: seq<JiraComment>,
                                                 extra: seq<JiraComment>, mirrored: map<string, string>,
                                                 linearBodies: set<string>, dryRun: bool,
                                                 issue: LinearIssue, sel: seq<LinearComment>)
    requires MapSeq(extra, JiraBody) == LinearMirrorDocs(prefix, issue, sel)
    ensures SelectJiraToLinear(prefix, jiraKey, cs + extra, mirrored, linearBodies, dryRun)
      == SelectJiraToLinear(prefix, jiraKey, cs, mirrored, linearBodies, dryRun)
  {
    if extra != [] {
      var e := extra[..|extra| - 1];
      var c := extra[|extra| - 1];
      var s := sel[..|sel| - 1];
      var lc := sel[|sel| - 1];
      assert extra == e + [c];
      assert cs + extra == (cs + e) + [c];
      SnocInjective(MapSeq(e, JiraBody), c.body, LinearMirrorDocs(prefix, issue, s), DocOf(LinearToJiraBody(prefix, issue, lc)));
      JiraSelectSkipsEchoes(prefix, jiraKey, cs, e, mirrored, linearBodies, dryRun, issue, s);
      LinearMirrorNotEchoed(prefix, issue, lc, jiraKey, c, mirrored, linearBodies);
      JiraSelectSnoc(prefix, jiraKey, cs + e, c, mirrored, linearBodies, dryRun);
    } else {
      assert cs + extra == cs;
    }
  }

  /** The Linear-to-Jira loop only adds comments to the Jira issue, so the
      plain texts on it only grow. */
  lemma JiraPlainTextsGrow(records: map<string, JiraRecord>, records0: map<string, JiraRecord>, jiraKey: string,
                           docs: seq<Adf>)
    requires jiraKey in records0 && JiraCommentsAppended(records, records0, jiraKey, docs)
    ensures jiraKey in records
    ensures records[jiraKey].comments == records0[jiraKey].comments + JiraAdded(records, records0, jiraKey)
    ensures JiraPlainTexts(records0[jiraKey].comments) <= JiraPlainTexts(records[jiraKey].comments)
  {
  }

  /** The Jira-to-Linear loop only adds comments to the Linear issue, so the
      bodies on it only grow; when it adds none, the issues are unchanged. */
  lemma LinearBodiesGrow(issues: map<string, LinearIssue>, issues0: map<string, LinearIssue>, issueId: string,
                         bodies: seq<string>)
    requires issueId in issues0 && LinearCommentsAppended(issues, issues0, issueId, bodies)
    ensures issueId in issues
    ensures LinearBodies(issues0[issueId].comments) <= LinearBodies(issues[issueId].comments)
    ensures bodies == [] ==> issues == issues0
  {
    var added := LinearAdded(issues, issues0, issueId);
    assert issues[issueId].comments == issues0[issueId].comments + added;
    if bodies == [] {
      assert issues0[issueId].comments + added == issues0[issueId].comments;
    }
  }
}
