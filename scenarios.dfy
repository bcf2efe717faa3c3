/** Worked examples of loading and classifying, proved on concrete input. */
module Scenarios {
  import opened Wrappers
  import opened Strings
  import opened Blocklist
  import opened Classifier

  /** A blocklist file with two comments and two phrases. */
  const ExampleFile: string := "# comment\nnoob\n//ignored\nidiot\n"
  const ExampleLines: seq<string> := ["# comment", "noob", "//ignored", "idiot"]

  /** A line with no whitespace at either end is its own trim. */
  lemma TrimmedAlready(s: string)
    requires s != [] && !IsSpace(s[0]) && !IsSpace(s[|s| - 1])
    ensures Trim(s) == s
  {
    assert s[..0] == [] && s[|s|..] == [];
    TrimUnique(s, 0, |s|);
    assert s[0..|s|] == s;
  }

  lemma ExampleUnlines()
    ensures Unlines(ExampleLines) == ExampleFile
  {
    UnlinesCons("idiot", []);
    UnlinesCons("//ignored", ["idiot"]);
    UnlinesCons("noob", ["//ignored", "idiot"]);
    UnlinesCons("# comment", ["noob", "//ignored", "idiot"]);
    assert ExampleLines == ["# comment"] + ["noob", "//ignored", "idiot"];
    assert "# comment" + "\n" + ("noob" + "\n" + ("//ignored" + "\n" + ("idiot" + "\n" + []))) == ExampleFile;
  }

  lemma ExampleFileLines()
    ensures Lines(ExampleFile) == ExampleLines
  {
    assert forall i | 0 <= i < |ExampleLines| :: '\n' !in ExampleLines[i] by {
      assert '\n' !in "# comment" && '\n' !in "noob" && '\n' !in "//ignored" && '\n' !in "idiot";
    }
    LinesUnlines(ExampleLines);
    ExampleUnlines();
  }

  lemma ExampleCommentsSkipped()
    ensures ParseLine("# comment") == None && ParseLine("//ignored") == None
  {
    TrimmedAlready("# comment");
    CommentLineSkipped("# comment");
    TrimmedAlready("//ignored");
    CommentLineSkipped("//ignored");
  }

  lemma ExampleWordsKept()
    ensures ParseLine("noob") == Some("noob") && ParseLine("idiot") == Some("idiot")
  {
    TrimmedAlready("noob");
    TrimmedLineKept("noob");
    TrimmedAlready("idiot");
    TrimmedLineKept("idiot");
  }

  /** Four lines, of which the second and the fourth are kept as they are. */
  lemma KeptSecondAndFourth(ls: seq<string>)
    requires |ls| == 4 && ParseLine(ls[0]) == None && ParseLine(ls[2]) == None
    requires ParseLine(ls[1]) == Some(ls[1]) && ParseLine(ls[3]) == Some(ls[3])
    ensures Entries(ls) == {ls[1], ls[3]}
  {
    var l1, l2, l3 := ls[1..], ls[2..], ls[3..];
    assert l1[1..] == l2 && l2[1..] == l3 && l3[1..] == [];
    assert l3[0] == ls[3] && l2[0] == ls[2] && l1[0] == ls[1];
    assert Entries(l3) == {ls[3]};
    assert Entries(l2) == {ls[3]};
    assert Entries(l1) == {ls[1]} + {ls[3]};
  }

  lemma ExampleEntries()
    ensures Entries(ExampleLines) == {"noob", "idiot"}
  {
    ExampleCommentsSkipped();
    ExampleWordsKept();
    KeptSecondAndFourth(ExampleLines);
  }

  /** The comment lines vanish and the two words are the list. */
  lemma ExampleFileParsed()
    ensures ParseList(Read(ExampleFile)) == {"noob", "idiot"}
  {
    ExampleFileLines();
    ExampleEntries();
  }

  lemma ExampleMessages(blocked: set<string>)
    requires blocked == {"noob", "idiot"}
    ensures IsBlockedMessage(blocked, Some("you are a noob"))
    ensures !IsBlockedMessage(blocked, Some("clean text"))
  {
    assert OccursAt("you are a noob", "noob", 10);
    MissingCharNotContained("clean text", "noob", 1);
    MissingCharNotContained("clean text", "idiot", 0);
  }

  /** With that list, a message containing "noob" is blocked and a clean one is not. */
  lemma ExampleTextClassified()
    ensures IsBlockedMessage(ParseList(Read(ExampleFile)), Some("you are a noob"))
    ensures !IsBlockedMessage(ParseList(Read(ExampleFile)), Some("clean text"))
  {
    ExampleFileParsed();
    ExampleMessages(ParseList(Read(ExampleFile)));
  }

  /** Event names match exactly: a longer name that begins with an entry passes. */
  lemma ExampleEvents()
    ensures IsBlockedEvent({"player_death"}, Some("player_death"))
    ensures !IsBlockedEvent({"player_death"}, Some("player_death_v2"))
    ensures !IsBlockedEvent({"player_death"}, None)
    ensures IsBlockedMessage({"player_death"}, Some("player_death_v2"))
  {
    assert "player_death_v2" == "player_death" + "_v2";
    SubstringIsNotEventMatch({"player_death"}, "player_death", "_v2");
  }
}
