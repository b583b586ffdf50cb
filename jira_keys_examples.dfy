/** The parsing cases the repository's own tests check, proved on the model. */
module JiraKeysExamples {
  import opened Wrappers
  import opened Strings
  import opened Adf
  import opened JiraKeys

  const Ticket := "Ticket ABC-123 needs attention"

  lemma LettersBeforeHyphen()
    ensures UpperDigitRun(Ticket, 8) == 2
  {
    assert Ticket[10] == '-';
    assert UpperDigitRun(Ticket, 10) == 0;
    assert UpperDigitRun(Ticket, 9) == 1;
  }

  lemma DigitsAfterHyphen()
    ensures DigitRun(Ticket, 11) == 3
  {
    assert Ticket[14] == ' ';
    assert DigitRun(Ticket, 14) == 0;
    assert DigitRun(Ticket, 13) == 1;
    assert DigitRun(Ticket, 12) == 2;
  }

  lemma MatchAtSeven()
    ensures MatchAtPos(Bare, Ticket, 7) == Some(Found(7, 7, 7))
  {
    LettersBeforeHyphen();
    DigitsAfterHyphen();
    assert Ticket[6] == ' ' && Ticket[7] == 'A' && Ticket[10] == '-' && Ticket[14] == ' ';
  }

  lemma NoMatchAtStart()
    ensures MatchAtPos(Bare, Ticket, 0) == None
  {
    assert Ticket[1] == 'i';
    assert UpperDigitRun(Ticket, 1) == 0;
  }

  /** No bare key starts right after a word character. */
  lemma NoMatchAfterWordChar(s: string, j: nat)
    requires 1 <= j <= |s| && IsWordChar(s[j - 1])
    ensures MatchAtPos(Bare, s, j) == None
  {
  }

  lemma NoMatchInFirstWord()
    ensures forall j :: 1 <= j < 7 ==> MatchAtPos(Bare, Ticket, j) == None
  {
    forall j | 1 <= j < 7 ensures MatchAtPos(Bare, Ticket, j) == None {
      assert 'a' <= Ticket[j - 1] <= 'z' || Ticket[j - 1] == 'T';
      NoMatchAfterWordChar(Ticket, j);
    }
  }

  lemma {:induction false} FirstMatchIsAtSeven(j: nat)
    requires j <= 7
    ensures FirstMatchFrom(Bare, Ticket, j) == Some(Found(7, 7, 7))
    decreases 7 - j
  {
    if j == 7 {
      MatchAtSeven();
    } else {
      FirstMatchIsAtSeven(j + 1);
      if j == 0 {
        NoMatchAtStart();
      } else {
        NoMatchInFirstWord();
      }
      assert MatchAtPos(Bare, Ticket, j) == None;
    }
  }

  /** `extractJiraIssueKeyFromText("Ticket ABC-123 needs attention")` is
      `ABC-123`. */
  lemma KeyFromTicketText()
    ensures ExtractJiraIssueKeyFromText(Ticket) == Some("ABC-123")
  {
    SearchTicket();
    TicketKeySlice();
  }

  lemma SearchTicket()
    ensures Search(Bare, Ticket) == Some(Ticket[7..14])
  {
    FirstMatchIsAtSeven(0);
  }

  lemma TicketKeySlice()
    ensures Ticket[7..14] == "ABC-123"
  {
    assert Ticket[7] == 'A' && Ticket[8] == 'B' && Ticket[9] == 'C' && Ticket[10] == '-';
    assert Ticket[11] == '1' && Ticket[12] == '2' && Ticket[13] == '3';
  }

  /** A lower-case look-alike is not a key. */
  lemma NoKeyInLowerCase()
    ensures ExtractJiraIssueKeyFromText("abc-123 lower") == None
  {
    var s := "abc-123 lower";
    assert forall k :: 0 <= k < |s| ==> !IsUpper(s[k]);
    NoUpperNoKey(s);
  }

  /** `extractJiraIssueKeyFromText("No key here")` is null: its one
      upper-case letter is followed by a lower-case one. */
  lemma NoKeyInPlainSentence()
    ensures ExtractJiraIssueKeyFromText("No key here") == None
  {
    var s := "No key here";
    assert s[1] == 'o';
    assert forall k :: 1 <= k < |s| ==> !IsUpper(s[k]);
    forall i: nat, n: nat | MatchAt(Bare, s, i, i, n) ensures false {
      KeyPinned(s, i, n);
    }
  }

  const BrowseUrl := "https://my.atlassian.net/browse/ABC-123"

  lemma BrowseUrlKeyAt()
    ensures KeyAt(BrowseUrl, 32, 7)
    ensures BrowseUrl[32..39] == "ABC-123"
  {
    var s := BrowseUrl;
    assert s[32] == 'A' && s[35] == '-' && |s| == 39;
    assert UpperDigitRun(s, 35) == 0;
    assert UpperDigitRun(s, 34) == 1;
    assert UpperDigitRun(s, 33) == 2;
    assert DigitRun(s, 38) == 1;
    assert DigitRun(s, 37) == 2;
    assert DigitRun(s, 36) == 3;
    assert KeyLenAt(s, 32) == Some(7);
  }

  /** The browse pattern matches at the link's `/browse/` and nowhere
      before it. */
  lemma BrowseUrlMatchAt()
    ensures MatchAt(Browse, BrowseUrl, 24, 32, 7)
    ensures forall j: nat, ks: nat, n: nat :: j < 24 ==> !MatchAt(Browse, BrowseUrl, j, ks, n)
  {
    var s := BrowseUrl;
    BrowseUrlKeyAt();
    assert HasAt(s, 24, "/browse/");
    assert forall k :: 0 <= k < 32 ==> !IsUpper(s[k]);
    forall j: nat, ks: nat, n: nat | j < 24 && MatchAt(Browse, s, j, ks, n) ensures false {
      KeyPinned(s, ks, n);
    }
  }

  /** `extractJiraIssueKeyFromUrl` of a `/browse/` link is the key after
      it. */
  lemma KeyFromBrowseUrl()
    ensures ExtractJiraIssueKeyFromUrl(BrowseUrl) == Some("ABC-123")
  {
    BrowseUrlKeyAt();
    BrowseUrlMatchAt();
    SearchFindsFirstMatch(Browse, BrowseUrl, 24, 32, 7);
  }

  /** The board link of the tests, written in parts so that facts about
      its characters can be proved part by part. */
  const BoardHost := "https://my.atlassian.net/"
  const BoardPath := "jira/software/c/"
  const BoardProject := "projects/ABC/"
  const BoardName := "boards/1"
  const BoardPage := BoardHost + BoardPath + BoardProject + BoardName
  const BoardQuery := "?selectedIssue=ABC-999"
  const BoardUrl := BoardPage + BoardQuery

  /** No character of `s` is `c`. */
  predicate Avoids(s: string, c: char)
  {
    forall k :: 0 <= k < |s| ==> s[k] != c
  }

  lemma AvoidsConcat(a: string, b: string, c: char)
    requires Avoids(a, c) && Avoids(b, c)
    ensures Avoids(a + b, c)
  {
    forall k | 0 <= k < |a + b| ensures (a + b)[k] != c {
      if k >= |a| {
        assert (a + b)[k] == b[k - |a|];
      }
    }
  }

  /** The page part of the board link holds no `?` and no `&`. */
  lemma BoardPageHasNoQuery()
    ensures |BoardPage| == 62
    ensures Avoids(BoardPage, '?') && Avoids(BoardPage, '&')
  {
    assert Avoids(BoardHost, '?') && Avoids(BoardHost, '&');
    assert Avoids(BoardPath, '?') && Avoids(BoardPath, '&');
    assert Avoids(BoardProject, '?') && Avoids(BoardProject, '&');
    assert Avoids(BoardName, '?') && Avoids(BoardName, '&');
    AvoidsConcat(BoardHost, BoardPath, '?');
    AvoidsConcat(BoardHost, BoardPath, '&');
    AvoidsConcat(BoardHost + BoardPath, BoardProject, '?');
    AvoidsConcat(BoardHost + BoardPath, BoardProject, '&');
    AvoidsConcat(BoardHost + BoardPath + BoardProject, BoardName, '?');
    AvoidsConcat(BoardHost + BoardPath + BoardProject, BoardName, '&');
  }

  /** The board link's only `b` starts `boards`, and is followed by `o`. */
  lemma BoardUrlOnlyB()
    ensures |BoardUrl| == 84
    ensures forall k :: 0 <= k < |BoardUrl| && k != 54 ==> BoardUrl[k] != 'b'
    ensures BoardUrl[55] == 'o'
  {
    var front := BoardHost + BoardPath + BoardProject;
    assert Avoids(BoardHost, 'b') && Avoids(BoardPath, 'b') && Avoids(BoardProject, 'b');
    AvoidsConcat(BoardHost, BoardPath, 'b');
    AvoidsConcat(BoardHost + BoardPath, BoardProject, 'b');
    assert |front| == 54;
    assert forall k :: 1 <= k < |BoardName| ==> BoardName[k] != 'b';
    assert Avoids(BoardQuery, 'b');
    assert BoardUrl == front + BoardName + BoardQuery;
    forall k | 0 <= k < |BoardUrl| && k != 54 ensures BoardUrl[k] != 'b' {
      if k < 54 {
        assert BoardUrl[k] == front[k];
      } else if k < 62 {
        assert BoardUrl[k] == BoardName[k - 54];
      } else {
        assert BoardUrl[k] == BoardQuery[k - 62];
      }
    }
    assert BoardUrl[55] == BoardName[1];
  }

  /** The query part of the board link, at its place in the link. */
  lemma BoardUrlTail()
    ensures |BoardUrl| == 84
    ensures forall k :: 0 <= k < |BoardQuery| ==> BoardUrl[62 + k] == BoardQuery[k]
  {
    BoardPageHasNoQuery();
  }

  /** The board link ends in the key `ABC-999`. */
  lemma BoardUrlKeyChars()
    ensures |BoardUrl| == 84
    ensures BoardUrl[77..84] == "ABC-999"
    ensures BoardUrl[77] == 'A' && BoardUrl[78] == 'B' && BoardUrl[79] == 'C' && BoardUrl[80] == '-'
    ensures BoardUrl[81] == '9' && BoardUrl[82] == '9' && BoardUrl[83] == '9'
  {
    BoardUrlTail();
    var s := BoardUrl;
    assert s[77] == BoardQuery[15] && s[78] == BoardQuery[16] && s[79] == BoardQuery[17];
    assert s[80] == BoardQuery[18];
    assert s[81] == BoardQuery[19] && s[82] == BoardQuery[20] && s[83] == BoardQuery[21];
  }

  lemma BoardUrlKeyAt()
    ensures KeyAt(BoardUrl, 77, 7)
    ensures BoardUrl[77..84] == "ABC-999"
  {
    BoardUrlKeyChars();
    var s := BoardUrl;
    assert UpperDigitRun(s, 80) == 0;
    assert UpperDigitRun(s, 79) == 1;
    assert UpperDigitRun(s, 78) == 2;
    assert DigitRun(s, 83) == 1;
    assert DigitRun(s, 82) == 2;
    assert DigitRun(s, 81) == 3;
    assert KeyLenAt(s, 77) == Some(7);
  }

  /** Where `/browse/` occurs, a `b` is followed by an `r`. */
  lemma BrowseLetters(s: string, j: nat)
    requires HasAt(s, j, "/browse/")
    ensures s[j + 1] == 'b' && s[j + 2] == 'r'
  {
    assert s[j + 1] == s[j..j + 8][1];
    assert s[j + 2] == s[j..j + 8][2];
  }

  /** No `/browse/` occurs in the board link. */
  lemma BoardUrlNotBrowse()
    ensures Search(Browse, BoardUrl) == None
  {
    var s := BoardUrl;
    BoardUrlOnlyB();
    forall j: nat, ks: nat, n: nat | MatchAt(Browse, s, j, ks, n) ensures false {
      BrowseLetters(s, j);
    }
  }

  /** The query pattern matches at the board link's `?` and nowhere
      before it. */
  lemma BoardUrlQueryAt()
    ensures MatchAt(Query, BoardUrl, 62, 77, 7)
    ensures forall j: nat, ks: nat, n: nat :: j < 62 ==> !MatchAt(Query, BoardUrl, j, ks, n)
  {
    var s := BoardUrl;
    BoardPageHasNoQuery();
    BoardUrlTail();
    BoardUrlKeyAt();
    assert s[62] == '?';
    assert s[63..77] == BoardQuery[1..15] == "selectedIssue=";
    assert HasAt(s, 63, "selectedIssue=");
    forall j: nat, ks: nat, n: nat | j < 62 ensures !MatchAt(Query, s, j, ks, n) {
      assert s[j] == BoardPage[j];
    }
  }

  /** `extractJiraIssueKeyFromUrl` of a board link falls through to the
      query pattern and gives the `selectedIssue=` key. */
  lemma KeyFromSelectedIssueUrl()
    ensures ExtractJiraIssueKeyFromUrl(BoardUrl) == Some("ABC-999")
  {
    BoardUrlNotBrowse();
    BoardUrlKeyAt();
    BoardUrlQueryAt();
    SearchFindsFirstMatch(Query, BoardUrl, 62, 77, 7);
  }

  /** A URL that is not a Jira link yields no key. */
  lemma NoKeyInForeignUrl()
    ensures ExtractJiraIssueKeyFromUrl("https://example.com/not-jira") == None
  {
    var s := "https://example.com/not-jira";
    assert forall k :: 0 <= k < |s| ==> !IsUpper(s[k]);
    NoUpperNoUrlKey(s);
  }

  /** A mirrored comment that ends in a letter survives `textToAdf` and
      `adfToPlainText` unchanged, whatever the marker prefix. */
  lemma MarkedTextRoundTrips(prefix: string)
    ensures var text := prefix + " source:linear issue:foo comment:bar -->\nHello\nWorld";
      PlainText(DocOf(text)) == text
  {
    var text := prefix + " source:linear issue:foo comment:bar -->\nHello\nWorld";
    assert text[|text| - 1] == 'd';
    RoundTrip(text);
  }
}
