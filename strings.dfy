/**
 * The string operations the filter is built from: the plugin's own `Trim`,
 * and the pieces of the C++ library it relies on (`std::getline` over an
 * `istringstream`, `std::string::rfind(p, 0) == 0`, `strstr`).
 *
 * A C++ `std::string` is modelled as a `string` holding one `char` per byte:
 * the char's code point is the byte's value.
 */
module Strings {
  import opened Wrappers

  /** The characters `Trim` removes: " \t\r\n". */
  predicate IsSpace(c: char) {
    c == ' ' || c == '\t' || c == '\r' || c == '\n'
  }

  predicate AllSpace(s: string) {
    forall i :: 0 <= i < |s| ==> IsSpace(s[i])
  }

  /** `s.find_first_not_of(" \t\r\n", from)`; `None` plays `npos`. */
  function FindFirstNotOf(s: string, from: nat): (r: Option<nat>)
    requires from <= |s|
    ensures r.Some? ==> from <= r.value < |s| && !IsSpace(s[r.value]) && AllSpace(s[from..r.value])
    ensures r.None? ==> AllSpace(s[from..])
    decreases |s| - from
  {
    if from == |s| then None
    else if !IsSpace(s[from]) then Some(from)
    else FindFirstNotOf(s, from + 1)
  }

  /** `s.find_last_not_of(" \t\r\n")` restricted to the first `end` characters. */
  function FindLastNotOf(s: string, end: nat): (r: Option<nat>)
    requires end <= |s|
    ensures r.Some? ==> r.value < end && !IsSpace(s[r.value]) && AllSpace(s[r.value + 1..end])
    ensures r.None? ==> AllSpace(s[..end])
    decreases end
  {
    if end == 0 then None
    else if !IsSpace(s[end - 1]) then Some(end - 1)
    else
      var r := FindLastNotOf(s, end - 1);
      assert r.Some? ==> s[r.value + 1..end] == s[r.value + 1..end - 1] + [s[end - 1]];
      assert r.None? ==> s[..end] == s[..end - 1] + [s[end - 1]];
      r
  }

  /**
   * The plugin's `Trim`: the contiguous piece of `s` left after removing
   * leading and trailing spaces, tabs, CRs and LFs; "" when nothing else is left.
   */
  function Trim(s: string): (r: string)
    ensures r == [] <==> AllSpace(s)
    ensures r != [] ==> !IsSpace(r[0]) && !IsSpace(r[|r| - 1])
    ensures exists i, j :: 0 <= i <= j <= |s| && r == s[i..j] && AllSpace(s[..i]) && AllSpace(s[j..])
  {
    match FindFirstNotOf(s, 0)
    case None =>
      assert s[..0] == [] && s[0..] == s;
      ""
    case Some(first) =>
      var last := FindLastNotOf(s, |s|).value;
      assert s[..first] == s[0..first] && s[last + 1..] == s[last + 1..|s|];
      s[first..last + 1]
  }

  /** Trimming twice is trimming once. */
  lemma TrimIdempotent(s: string)
    ensures Trim(Trim(s)) == Trim(s)
  {
    var t := Trim(s);
    if t != [] {
      assert FindFirstNotOf(t, 0) == Some(0);
      assert FindLastNotOf(t, |t|) == Some(|t| - 1);
      assert t[0..|t|] == t;
    }
  }

  /** Any piece of `s` with only whitespace outside it and none at its ends is `Trim(s)`. */
  lemma TrimUnique(s: string, i: nat, j: nat)
    requires i < j <= |s|
    requires AllSpace(s[..i]) && AllSpace(s[j..])
    requires !IsSpace(s[i]) && !IsSpace(s[j - 1])
    ensures Trim(s) == s[i..j]
  {
    forall k | 0 <= k < i ensures IsSpace(s[k]) { assert s[..i][k] == s[k]; }
    forall k | j <= k < |s| ensures IsSpace(s[k]) { assert s[j..][k - j] == s[k]; }
    assert s[0..] == s && s[..|s|] == s;
    var first := FindFirstNotOf(s, 0).value;
    var last := FindLastNotOf(s, |s|).value;
    forall k | 0 <= k < first ensures IsSpace(s[k]) { assert s[0..first][k] == s[k]; }
    forall k | last < k < |s| ensures IsSpace(s[k]) { assert s[last + 1..|s|][k - last - 1] == s[k]; }
    assert first == i && last == j - 1;
  }

  /**
   * `s.rfind(prefix, 0) == 0`: `s` begins with `prefix`, byte for byte, and
   * is then `prefix` followed by the rest.
   */
  predicate StartsWith(s: string, prefix: string): (r: bool)
    ensures r <==> |prefix| <= |s| && forall k :: 0 <= k < |prefix| ==> s[k] == prefix[k]
    ensures r ==> s == prefix + s[|prefix|..]
  {
    assert |prefix| <= |s| ==> s == s[..|prefix|] + s[|prefix|..];
    |prefix| <= |s| && s[..|prefix|] == prefix
  }

  /** `needle` occurs in `haystack` starting at index `i`. */
  predicate OccursAt(haystack: string, needle: string, i: nat) {
    i + |needle| <= |haystack| && haystack[i..i + |needle|] == needle
  }

  /** `strstr(haystack, needle) != NULL`: `needle` occurs contiguously in `haystack`. */
  predicate Contains(haystack: string, needle: string): (r: bool)
    ensures r ==> |needle| <= |haystack|
    ensures StartsWith(haystack, needle) ==> r
    ensures needle == [] ==> r
  {
    assert StartsWith(haystack, needle) ==> OccursAt(haystack, needle, 0);
    assert haystack[0..0] == [];
    exists i: nat | i <= |haystack| :: OccursAt(haystack, needle, i)
  }

  /** A needle with a character the haystack lacks does not occur in it. */
  lemma MissingCharNotContained(haystack: string, needle: string, k: nat)
    requires k < |needle| && needle[k] !in haystack
    ensures !Contains(haystack, needle)
  {
    forall i | 0 <= i
      ensures !OccursAt(haystack, needle, i)
    {
      if i + |needle| <= |haystack| { assert haystack[i..i + |needle|][k] == haystack[i + k]; }
    }
  }

  /** The first '\n' at or after `from`. */
  function FindNewline(s: string, from: nat): (r: Option<nat>)
    requires from <= |s|
    ensures r.Some? ==> from <= r.value < |s| && s[r.value] == '\n' && '\n' !in s[from..r.value]
    ensures r.None? ==> '\n' !in s[from..]
    decreases |s| - from
  {
    if from == |s| then None
    else if s[from] == '\n' then Some(from)
    else
      var r := FindNewline(s, from + 1);
      assert r.Some? ==> s[from..r.value] == [s[from]] + s[from + 1..r.value];
      assert r.None? ==> s[from..] == [s[from]] + s[from + 1..];
      r
  }

  /**
   * One successful `std::getline` on a stream whose unread input is `input`:
   * the characters up to the first '\n' (or to the end), and what is left
   * unread after the '\n' is consumed.
   */
  function GetLine(input: string): (r: (string, string))
    requires input != []
    ensures '\n' !in r.0
    ensures input == r.0 + "\n" + r.1 || (input == r.0 && r.1 == [])
  {
    match FindNewline(input, 0)
    case None =>
      assert input[0..] == input;
      (input, [])
    case Some(k) =>
      assert input == input[..k] + "\n" + input[k + 1..];
      (input[..k], input[k + 1..])
  }

  /** The lines `while (std::getline(iss, line))` reads from `s`, in order. */
  function Lines(s: string): (ls: seq<string>)
    ensures forall i :: 0 <= i < |ls| ==> '\n' !in ls[i]
    decreases |s|
  {
    if s == [] then []
    else
      var r := GetLine(s);
      [r.0] + Lines(r.1)
  }

  /** Each line followed by '\n': the text `Lines` reads back. */
  function Unlines(ls: seq<string>): string {
    if ls == [] then [] else ls[0] + "\n" + Unlines(ls[1..])
  }

  lemma UnlinesCons(line: string, ls: seq<string>)
    ensures Unlines([line] + ls) == line + "\n" + Unlines(ls)
  {
    assert ([line] + ls)[1..] == ls;
  }

  /** GetLine reads exactly one '\n'-free line. */
  lemma GetLineOf(line: string, rest: string)
    requires '\n' !in line
    ensures GetLine(line + "\n" + rest) == (line, rest)
  {
    var input := line + "\n" + rest;
    var r := GetLine(input);
    assert input[|line|] == '\n';
    assert input == r.0 + "\n" + r.1 && input[|r.0|] == '\n';
    assert forall k :: 0 <= k < |line| ==> input[k] == line[k];
    assert forall k :: 0 <= k < |r.0| ==> input[k] == r.0[k];
    assert r.0 == input[..|line|] == line;
    assert r.1 == input[|line| + 1..] == rest;
  }

  lemma UnlinesFirstLine(s: string)
    requires s != []
    ensures Unlines(Lines(s)) == GetLine(s).0 + "\n" + Unlines(Lines(GetLine(s).1))
  {
    assert Lines(s) == [GetLine(s).0] + Lines(GetLine(s).1);
    UnlinesCons(GetLine(s).0, Lines(GetLine(s).1));
  }

  /** `s` with a '\n' appended unless it is empty or already ends in one. */
  function Terminated(s: string): string {
    if s == [] || s[|s| - 1] == '\n' then s else s + "\n"
  }

  lemma TerminatedFirstLine(s: string)
    requires s != []
    ensures Terminated(s) == GetLine(s).0 + "\n" + Terminated(GetLine(s).1)
  {
    var r := GetLine(s);
    if s == r.0 {
      assert s[|s| - 1] in r.0;
    } else if r.1 != [] {
      assert s[|s| - 1] == r.1[|r.1| - 1];
    }
  }

  /** Splitting loses only a final '\n': joining the lines gives the input back. */
  lemma {:induction false} UnlinesLines(s: string)
    ensures Unlines(Lines(s)) == Terminated(s)
    decreases |s|
  {
    if s != [] {
      UnlinesLines(GetLine(s).1);
      UnlinesFirstLine(s);
      TerminatedFirstLine(s);
    }
  }

  /** Lines free of '\n', joined, read back as the same lines. */
  lemma {:induction false} LinesUnlines(ls: seq<string>)
    requires forall i :: 0 <= i < |ls| ==> '\n' !in ls[i]
    ensures Lines(Unlines(ls)) == ls
  {
    if ls != [] {
      GetLineOf(ls[0], Unlines(ls[1..]));
      LinesUnlines(ls[1..]);
    }
  }
}
