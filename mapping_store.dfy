/** The Jira/Linear identity store: four string-to-string tables persisted as
    one file, re-read and wholly rewritten by every call. */
module MappingStore {
  import opened Wrappers

  /** The content of the mapping file (`MappingFile`): Linear issue id to Jira
      key and back, Jira comment id to Linear comment id and back. */
  datatype Tables = Tables(
    linearToJira: map<string, string>,
    jiraToLinear: map<string, string>,
    jiraCommentToLinearComment: map<string, string>,
    linearCommentToJiraComment: map<string, string>)

  const Empty: Tables := Tables(map[], map[], map[], map[])

  /** What `readFile` can find on disk: no file, text that does not parse as
      JSON (or parses to `null`), or a parsed object in which each table may be
      missing. */
  datatype StoredFile =
    | Missing
    | Unparseable
    | Parsed(
        linearToJira: Option<map<string, string>>,
        jiraToLinear: Option<map<string, string>>,
        jiraCommentToLinearComment: Option<map<string, string>>,
        linearCommentToJiraComment: Option<map<string, string>>)

  /** `readFile`: a missing or unparseable file reads as four empty tables; a
      parsed file keeps the tables it has and gets an empty table for each one
      it lacks. Every empty table is a new one (see `ReadFileSharingDefaults`
      for what the source does instead). */
  function ReadFile(f: StoredFile): (t: Tables)
    ensures !f.Parsed? ==> t == Empty
    ensures f.Parsed? ==>
      && (f.linearToJira.Some? ==> t.linearToJira == f.linearToJira.value)
      && (f.jiraToLinear.Some? ==> t.jiraToLinear == f.jiraToLinear.value)
      && (f.jiraCommentToLinearComment.Some? ==> t.jiraCommentToLinearComment == f.jiraCommentToLinearComment.value)
      && (f.linearCommentToJiraComment.Some? ==> t.linearCommentToJiraComment == f.linearCommentToJiraComment.value)
    ensures f.Parsed? ==>
      && (f.linearToJira.None? ==> t.linearToJira == map[])
      && (f.jiraToLinear.None? ==> t.jiraToLinear == map[])
      && (f.jiraCommentToLinearComment.None? ==> t.jiraCommentToLinearComment == map[])
      && (f.linearCommentToJiraComment.None? ==> t.linearCommentToJiraComment == map[])
  {
    match f
    case Missing => Empty
    case Unparseable => Empty
    case Parsed(lj, jl, jc, lc) =>
      Tables(lj.GetOr(map[]), jl.GetOr(map[]), jc.GetOr(map[]), lc.GetOr(map[]))
  }

  /** `writeFile`: the tables serialised with all four members present. */
  function Persist(t: Tables): StoredFile {
    Parsed(Some(t.linearToJira), Some(t.jiraToLinear), Some(t.jiraCommentToLinearComment), Some(t.linearCommentToJiraComment))
  }

  /** What is written is what the next call reads back. */
  lemma ReadPersisted(t: Tables)
    ensures ReadFile(Persist(t)) == t
  {
  }

  /** `Boolean(table[id]?.partnerId)`: an entry whose partner id is
      non-empty. */
  predicate Mirrored(table: map<string, string>, id: string) {
    id in table && table[id] != ""
  }

  /** `table[id]?.field`. */
  function Lookup(table: map<string, string>, id: string): (r: Option<string>)
    ensures r.Some? <==> id in table
    ensures r.Some? ==> r.value == table[id]
  {
    if id in table then Some(table[id]) else None
  }

  /** Every stored pair has its reverse entry. */
  ghost predicate PairsAgree(forward: map<string, string>, backward: map<string, string>) {
    && (forall a :: a in forward ==> forward[a] in backward && backward[forward[a]] == a)
    && (forall b :: b in backward ==> backward[b] in forward && forward[backward[b]] == b)
  }

  /** Writing a pair keeps the tables in agreement when neither side was
      paired with something else before. */
  lemma PairWritePreservesAgreement(forward: map<string, string>, backward: map<string, string>, a: string, b: string)
    requires PairsAgree(forward, backward)
    requires a in forward ==> forward[a] == b
    requires b in backward ==> backward[b] == a
    ensures PairsAgree(forward[a := b], backward[b := a])
  {
  }

  /** The pair write never removes a stale entry: re-pairing a Jira key that a
      different Linear issue already holds leaves that issue's forward entry
      pointing at a key whose reverse entry no longer names it. */
  lemma PairWriteCanBreakAgreement()
    ensures var forward := map["lin-1" := "ABC-1"];
      var backward := map["ABC-1" := "lin-1"];
      && PairsAgree(forward, backward)
      && !PairsAgree(forward["lin-2" := "ABC-1"], backward["ABC-1" := "lin-2"])
  {
    var forward := map["lin-1" := "ABC-1"]["lin-2" := "ABC-1"];
    assert "lin-1" in forward && forward["lin-1"] == "ABC-1";
    assert map["ABC-1" := "lin-1"]["ABC-1" := "lin-2"]["ABC-1"] == "lin-2";
  }

  /** The store object. Its four tables are the content of the backing file:
      each call starts from a fresh read of the file and each mutator writes
      the whole content back, so between calls the fields are exactly what the
      file holds. */
  class JiraLinearMappingStore {
    var linearToJira: map<string, string>
    var jiraToLinear: map<string, string>
    var jiraCommentToLinearComment: map<string, string>
    var linearCommentToJiraComment: map<string, string>

    function Content(): Tables
      reads this
    {
      Tables(linearToJira, jiraToLinear, jiraCommentToLinearComment, linearCommentToJiraComment)
    }

    /** The file as last written. */
    function File(): StoredFile
      reads this
    {
      Persist(Content())
    }

    /** A store over the file as found on disk: what the first `readFile`
        returns. */
    constructor Open(file: StoredFile)
      ensures Content() == ReadFile(file)
    {
      var data := ReadFile(file);
      linearToJira := data.linearToJira;
      jiraToLinear := data.jiraToLinear;
      jiraCommentToLinearComment := data.jiraCommentToLinearComment;
      linearCommentToJiraComment := data.linearCommentToJiraComment;
    }

    /** The fresh read each call starts from. */
    method Read() returns (data: Tables)
      ensures data == Content()
    {
      data := ReadFile(File());
      ReadPersisted(Content());
    }

    method Write(data: Tables)
      modifies this
      ensures Content() == data
    {
      linearToJira := data.linearToJira;
      jiraToLinear := data.jiraToLinear;
      jiraCommentToLinearComment := data.jiraCommentToLinearComment;
      linearCommentToJiraComment := data.linearCommentToJiraComment;
    }

    /** `getJiraKey`: the Jira key stored for a Linear issue. */
    method GetJiraKey(linearIssueId: string) returns (r: Option<string>)
      ensures r.Some? <==> linearIssueId in linearToJira
      ensures r.Some? ==> r.value == linearToJira[linearIssueId]
    {
      var data := Read();
      r := Lookup(data.linearToJira, linearIssueId);
    }

    /** `getLinearIssueId`: the Linear issue stored for a Jira key. */
    method GetLinearIssueId(jiraKey: string) returns (r: Option<string>)
      ensures r.Some? <==> jiraKey in jiraToLinear
      ensures r.Some? ==> r.value == jiraToLinear[jiraKey]
    {
      var data := Read();
      r := Lookup(data.jiraToLinear, jiraKey);
    }

    /** `setIssuePair`: both directions written, nothing else touched; an
        older entry of either table is left as it was. */
    method SetIssuePair(linearIssueId: string, jiraKey: string)
      modifies this
      ensures linearToJira == old(linearToJira)[linearIssueId := jiraKey]
      ensures jiraToLinear == old(jiraToLinear)[jiraKey := linearIssueId]
      ensures jiraCommentToLinearComment == old(jiraCommentToLinearComment)
      ensures linearCommentToJiraComment == old(linearCommentToJiraComment)
    {
      var data := Read();
      data := data.(linearToJira := data.linearToJira[linearIssueId := jiraKey]);
      data := data.(jiraToLinear := data.jiraToLinear[jiraKey := linearIssueId]);
      Write(data);
    }

    /** `hasJiraCommentMirrored`: an entry with a non-empty Linear comment id. */
    method HasJiraCommentMirrored(jiraCommentId: string) returns (b: bool)
      ensures b <==> jiraCommentId in jiraCommentToLinearComment && jiraCommentToLinearComment[jiraCommentId] != ""
    {
      var data := Read();
      b := Mirrored(data.jiraCommentToLinearComment, jiraCommentId);
    }

    /** `hasLinearCommentMirrored`: an entry with a non-empty Jira comment id. */
    method HasLinearCommentMirrored(linearCommentId: string) returns (b: bool)
      ensures b <==> linearCommentId in linearCommentToJiraComment && linearCommentToJiraComment[linearCommentId] != ""
    {
      var data := Read();
      b := Mirrored(data.linearCommentToJiraComment, linearCommentId);
    }

    /** `setCommentPair`: both directions written, nothing else touched. */
    method SetCommentPair(jiraCommentId: string, linearCommentId: string)
      modifies this
      ensures linearToJira == old(linearToJira)
      ensures jiraToLinear == old(jiraToLinear)
      ensures jiraCommentToLinearComment == old(jiraCommentToLinearComment)[jiraCommentId := linearCommentId]
      ensures linearCommentToJiraComment == old(linearCommentToJiraComment)[linearCommentId := jiraCommentId]
    {
      var data := Read();
      data := data.(jiraCommentToLinearComment := data.jiraCommentToLinearComment[jiraCommentId := linearCommentId]);
      data := data.(linearCommentToJiraComment := data.linearCommentToJiraComment[linearCommentId := jiraCommentId]);
      Write(data);
    }
  }

  /** A client of the store: after `setIssuePair` both lookups find the pair,
      and after `setCommentPair` with two non-empty ids both comments count as
      mirrored. */
  method PairingRoundTrip(store: JiraLinearMappingStore, l: string, j: string, jc: string, lc: string)
    returns (key: Option<string>, issue: Option<string>, jiraMirrored: bool, linearMirrored: bool)
    requires jc != "" && lc != ""
    modifies store
    ensures key == Some(j) && issue == Some(l)
    ensures jiraMirrored && linearMirrored
  {
    store.SetIssuePair(l, j);
    key := store.GetJiraKey(l);
    issue := store.GetLinearIssueId(j);
    store.SetCommentPair(jc, lc);
    jiraMirrored := store.HasJiraCommentMirrored(jc);
    linearMirrored := store.HasLinearCommentMirrored(lc);
  }

  // ---------------------------------------------------------------------
  // The source as written: `{ ...DEFAULT_FILE }` is a shallow copy

  /** `readFile` as written: a missing or unparseable file yields a copy of the
      module constant whose four tables ARE the constant's tables, here
      `defaults`. */
  function ReadFileSharingDefaults(f: StoredFile, defaults: Tables): (t: Tables)
    ensures f.Parsed? ==> t == ReadFile(f)
    ensures !f.Parsed? ==> t == defaults
  {
    if f.Parsed? then ReadFile(f) else defaults
  }

  /** `setIssuePair` as written: the new file, and the module constant's
      tables afterwards, which the in-place writes changed too when the read
      returned them. */
  function SetIssuePairSharingDefaults(f: StoredFile, defaults: Tables, l: string, j: string): (r: (StoredFile, Tables))
    ensures var data := ReadFileSharingDefaults(f, defaults);
      ReadFile(r.0) == data.(linearToJira := data.linearToJira[l := j], jiraToLinear := data.jiraToLinear[j := l])
    ensures !f.Parsed? ==>
      r.1 == defaults.(linearToJira := defaults.linearToJira[l := j], jiraToLinear := defaults.jiraToLinear[j := l])
    ensures f.Parsed? ==> r.1 == defaults
  {
    var data := ReadFileSharingDefaults(f, defaults);
    var written := data.(linearToJira := data.linearToJira[l := j], jiraToLinear := data.jiraToLinear[j := l]);
    (Persist(written), if f.Parsed? then defaults else written)
  }

  /** The shared default leaks: after one pair is written over a missing file,
      a later read of a missing file (another store in the same process, or
      this one after its file is removed) is no longer empty. */
  lemma DefaultsLeakAsWritten()
    ensures var after := SetIssuePairSharingDefaults(Missing, Empty, "lin-1", "ABC-1").1;
      && ReadFileSharingDefaults(Missing, after) != Empty
      && ReadFileSharingDefaults(Missing, after).linearToJira["lin-1"] == "ABC-1"
  {
    var after := SetIssuePairSharingDefaults(Missing, Empty, "lin-1", "ABC-1").1;
    assert after.linearToJira == map["lin-1" := "ABC-1"];
    assert "lin-1" in after.linearToJira && "lin-1" !in Empty.linearToJira;
  }
}
