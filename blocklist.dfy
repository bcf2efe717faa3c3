/**
 * What `LoadList` makes of a blocklist file, line by line: trim, strip one
 * UTF-8 byte-order mark, skip blank and comment lines, keep the rest verbatim.
 */
module Blocklist {
  import opened Wrappers
  import opened Strings

  /** The UTF-8 byte-order mark, bytes 0xEF 0xBB 0xBF. */
  const Bom: string := "\U{EF}\U{BB}\U{BF}"

  /** The outcome of `g_pFullFileSystem->ReadFile(path, "GAME", buf)`. */
  datatype FileRead =
    | NoFileSystem          // `g_pFullFileSystem` is null
    | ReadFailed            // `ReadFile` returned false
    | Read(content: string) // the bytes in `buf`

  /**
   * A line starting with `#` or `//`: its first byte is `#`, or its first two
   * bytes are both `/`.
   */
  predicate IsComment(line: string): (r: bool)
    ensures r ==> line != [] && (line[0] == '#' || line[0] == '/')
    ensures line != [] && line[0] == '#' ==> r
    ensures |line| >= 2 && line[0] == '/' && line[1] == '/' ==> r
  {
    assert |line| >= 1 ==> line[..1] == [line[0]];
    assert |line| >= 2 ==> line[..2] == [line[0], line[1]];
    StartsWith(line, "#") || StartsWith(line, "//")
  }

  /** Removes the first three bytes when they are the byte-order mark. */
  function StripBom(line: string): (r: string)
    ensures StartsWith(line, Bom) ==> line == Bom + r
    ensures !StartsWith(line, Bom) ==> r == line
  {
    if |line| >= 3 && line[0] == '\U{EF}' && line[1] == '\U{BB}' && line[2] == '\U{BF}' then
      assert line == line[..3] + line[3..];
      line[3..]
    else
      line
  }

  /** The entry one line read by `std::getline` contributes, if any. */
  function ParseLine(raw: string): (r: Option<string>)
    ensures r.Some? ==> r.value != [] && !IsComment(r.value)
    ensures r.Some? ==> Trim(raw) == r.value || Trim(raw) == Bom + r.value
    ensures StripBom(Trim(raw)) != [] && !IsComment(StripBom(Trim(raw))) ==> r == Some(StripBom(Trim(raw)))
  {
    var line := StripBom(Trim(raw));
    if line == [] then None
    else if IsComment(line) then None
    else Some(line)
  }

  /** The set the entries of `lines` build up, with duplicates collapsed. */
  function Entries(lines: seq<string>): set<string> {
    if lines == [] then {}
    else ToSet(ParseLine(lines[0])) + Entries(lines[1..])
  }

  /** Every entry is a non-comment, non-empty line's entry, and every such entry is there. */
  lemma {:induction false} EntriesExactly(lines: seq<string>, x: string)
    ensures x in Entries(lines) <==> exists i :: 0 <= i < |lines| && ParseLine(lines[i]) == Some(x)
  {
    if lines != [] {
      var tail := lines[1..];
      EntriesExactly(tail, x);
      assert Entries(lines) == ToSet(ParseLine(lines[0])) + Entries(tail);
      assert forall i :: 0 <= i < |tail| ==> tail[i] == lines[i + 1];
      if x in Entries(tail) {
        var i :| 0 <= i < |tail| && ParseLine(tail[i]) == Some(x);
        assert ParseLine(lines[i + 1]) == Some(x);
      }
      if exists i :: 0 <= i < |lines| && ParseLine(lines[i]) == Some(x) {
        var i :| 0 <= i < |lines| && ParseLine(lines[i]) == Some(x);
        if i > 0 {
          assert ParseLine(tail[i - 1]) == Some(x);
        }
      }
    }
  }

  /** The entry of the first line read from `unread`, then the entries of the rest. */
  lemma EntriesOfFirstLine(unread: string)
    requires unread != []
    ensures var next := GetLine(unread);
      Entries(Lines(unread)) == ToSet(ParseLine(next.0)) + Entries(Lines(next.1))
  {
    var next := GetLine(unread);
    assert Lines(unread) == [next.0] + Lines(next.1);
    assert Lines(unread)[1..] == Lines(next.1);
  }

  /** The set `LoadList` leaves in its target after reading `file`; empty when the read failed. */
  function ParseList(file: FileRead): (r: set<string>)
    ensures !file.Read? ==> r == {}
    ensures file == Read([]) ==> r == {}
  {
    match file
    case Read(content) => Entries(Lines(content))
    case _ => {}
  }

  /**
   * Nothing blank and no comment reaches the set: every entry is non-empty
   * and starts with neither `#` nor `//`.
   */
  lemma ParseListWellFormed(file: FileRead, x: string)
    requires x in ParseList(file)
    ensures x != [] && !IsComment(x)
  {
    var ls := Lines(file.content);
    EntriesExactly(ls, x);
    var i :| 0 <= i < |ls| && ParseLine(ls[i]) == Some(x);
  }

  /** An entry is in the set exactly when some line of the file parses to it. */
  lemma {:induction false} InParseList(content: string, x: string)
    ensures x in ParseList(Read(content)) <==> exists line :: line in Lines(content) && ParseLine(line) == Some(x)
  {
    EntriesExactly(Lines(content), x);
    if x in ParseList(Read(content)) {
      var i :| 0 <= i < |Lines(content)| && ParseLine(Lines(content)[i]) == Some(x);
      assert Lines(content)[i] in Lines(content);
    }
  }

  /** Blank and whitespace-only lines contribute nothing. */
  lemma BlankLineSkipped(raw: string)
    requires AllSpace(raw)
    ensures ParseLine(raw) == None
  {
    assert Trim(raw) == [];
  }

  /** Lines whose trimmed text starts with `#` or `//` contribute nothing. */
  lemma CommentLineSkipped(raw: string)
    requires IsComment(Trim(raw))
    ensures ParseLine(raw) == None
  {
    var t := Trim(raw);
    assert t[0] == '#' || t[0] == '/';
    assert StripBom(t) == t;
  }

  /** A comment behind a byte-order mark is still a comment. */
  lemma BomCommentSkipped(raw: string, rest: string)
    requires Trim(raw) == Bom + rest && IsComment(rest)
    ensures ParseLine(raw) == None
  {
    assert StartsWith(Trim(raw), Bom);
  }

  /**
   * After a byte-order mark exactly those three bytes go: the rest is kept
   * as it is, not trimmed again.
   */
  lemma BomStripped(raw: string, rest: string)
    requires Trim(raw) == Bom + rest
    requires rest != [] && !IsComment(rest)
    ensures ParseLine(raw) == Some(rest)
  {
    assert StartsWith(Trim(raw), Bom);
  }

  /** Any other line is kept exactly as trimmed: no case folding, no other change. */
  lemma TrimmedLineKept(raw: string)
    requires !StartsWith(Trim(raw), Bom)
    requires Trim(raw) != [] && !IsComment(Trim(raw))
    ensures ParseLine(raw) == Some(Trim(raw))
  {
  }

  /** A line that trims to the bare byte-order mark is blank once the mark goes. */
  lemma BomBlankLineSkipped(raw: string)
    requires Trim(raw) == Bom
    ensures ParseLine(raw) == None
  {
    assert StartsWith(Trim(raw), Bom);
    assert StripBom(Trim(raw)) == [];
  }

  /**
   * Behind a byte-order mark the rest of an untrimmed-looking line is kept
   * verbatim: leading whitespace, a `#` after it, or a second mark.
   */
  lemma BomRestKept(rest: string)
    requires rest != [] && !IsSpace(rest[|rest| - 1]) && !IsComment(rest)
    ensures ParseLine(Bom + rest) == Some(rest)
  {
    var raw := Bom + rest;
    assert raw[|raw|..] == [] && raw[..0] == [];
    assert raw[|raw| - 1] == rest[|rest| - 1];
    TrimUnique(raw, 0, |raw|);
    assert raw[0..|raw|] == raw;
    BomStripped(raw, rest);
  }

  /** `Bom + "  # x"` is kept as the entry `"  # x"`, not skipped as a comment. */
  lemma BomIndentedCommentKept()
    ensures ParseLine(Bom + "  # x") == Some("  # x")
  {
    BomRestKept("  # x");
  }

  /** Only one byte-order mark is removed: a second one stays in the entry. */
  lemma SecondBomKept(rest: string)
    requires rest != [] && !IsSpace(rest[|rest| - 1])
    ensures ParseLine(Bom + Bom + rest) == Some(Bom + rest)
  {
    assert (Bom + rest)[0] == '\U{EF}';
    assert (Bom + rest)[|Bom + rest| - 1] == rest[|rest| - 1];
    assert Bom + Bom + rest == Bom + (Bom + rest);
    BomRestKept(Bom + rest);
  }
}
