/**
 * Line classification of `etl.py`: `check_line` decides whether one decoded
 * zone-file line is a delegation record, `extract_domain` takes its owner
 * name, and `process_line` turns the two into the names a line contributes.
 *
 * The exclusion list `bad_start` is a parameter here; the program keeps it in
 * a global that the main loop extends and restores around every zone file.
 */
module Classifier {
  import opened Text

  /** The exclusion list the program starts with. */
  const InitialBadStart: seq<string> := ["$", ";", " ", "NS "]

  /** The record type a delegation line must carry in its second column. */
  const DelegationType: string := "NS"

  /** At most this many characters per label in the name pattern. */
  const MaxLabelLength: nat := 63

  // ---------------------------------------------------------------------------
  // The name pattern `[a-zA-Z\d-]{,63}(\.[a-zA-Z\d-]{,63})*`

  predicate IsLabelChar(c: char) {
    'a' <= c <= 'z' || 'A' <= c <= 'Z' || '0' <= c <= '9' || c == '-'
  }

  predicate IsLabel(l: string) {
    |l| <= MaxLabelLength && forall i | 0 <= i < |l| :: IsLabelChar(l[i])
  }

  /** The strings the whole pattern matches: labels of up to 63 letters,
      digits or hyphens, joined by dots; every label may be empty. */
  predicate InNamePattern(p: string) {
    forall l | l in SplitOn(p, '.') :: IsLabel(l)
  }

  /** `domain_regex.match(s)` succeeds: a match is anchored at the start of `s`
      only, so it succeeds when the pattern matches some prefix of `s`. */
  predicate NameRegexMatches(s: string) {
    exists k | 0 <= k <= |s| :: InNamePattern(s[..k])
  }

  /** The pattern matches the empty string, so the match never fails. */
  lemma NameRegexMatchesEverything(s: string)
    ensures NameRegexMatches(s)
  {
    assert SplitOn(s[..0], '.') == [[]];
    assert InNamePattern(s[..0]);
  }

  // ---------------------------------------------------------------------------
  // check_line and extract_domain

  /** `line[:1]`: the first character, or the empty string for an empty line. */
  function Head1(line: string): (h: string)
    ensures h <= line
    ensures |h| == if line == [] then 0 else 1
  {
    if line == [] then [] else line[..1]
  }

  /** `line[:1] in bad_start`: only a one-character entry (or the empty entry,
      for an empty line) can ever be equal to the slice. */
  predicate PrefixExcluded(line: string, badStart: seq<string>) {
    Head1(line) in badStart
  }

  /** `check_line`. The pattern test on the third token never rejects, so a
      line is accepted exactly when its first character is not excluded, it
      has at least three tokens and the second one is `NS` (case-sensitive). */
  function CheckLine(line: string, badStart: seq<string>): (ok: bool)
    ensures ok <==> !PrefixExcluded(line, badStart)
                    && |Tokens(line)| >= 3
                    && Tokens(line)[1] == DelegationType
  {
    if PrefixExcluded(line, badStart) then false
    else
      var parts := Tokens(line);
      if |parts| < 3 then false
      else if parts[1] != DelegationType then false
      else
        NameRegexMatchesEverything(parts[2]);
        NameRegexMatches(parts[2])
  }

  /** `extract_domain`: the first whitespace-separated token. It is never
      empty and never holds whitespace, and on a line that does not open with
      whitespace it is a prefix of the line. The program calls it only on
      lines `check_line` accepted; on a line without tokens it would raise. */
  function ExtractDomain(line: string): (name: string)
    requires Tokens(line) != []
    ensures IsWord(name)
    ensures line != [] && !IsSpace(line[0]) ==> name <= line
  {
    TokensAreWords(line);
    TokensFirstIsPrefix(line);
    Tokens(line)[0]
  }

  /** The names `process_line` adds for one line: the extracted name when the
      line is accepted, nothing otherwise. */
  function LineNames(line: string, badStart: seq<string>): set<string> {
    if CheckLine(line, badStart) then {ExtractDomain(line)} else {}
  }

  /** The names a stream of lines contributes. */
  function Accepted(lines: seq<string>, badStart: seq<string>): set<string> {
    if lines == [] then {}
    else Accepted(lines[..|lines| - 1], badStart) + LineNames(lines[|lines| - 1], badStart)
  }

  lemma AcceptedStep(lines: seq<string>, i: int, badStart: seq<string>)
    requires 0 <= i < |lines|
    ensures Accepted(lines[..i + 1], badStart) == Accepted(lines[..i], badStart) + LineNames(lines[i], badStart)
  {
    assert lines[..i + 1][..i] == lines[..i];
  }

  lemma AcceptedGrow(lines: seq<string>, i: int, badStart: seq<string>, base: set<string>, before: set<string>, after: set<string>)
    requires 0 <= i < |lines|
    requires before == base + Accepted(lines[..i], badStart)
    requires after == before + LineNames(lines[i], badStart)
    ensures after == base + Accepted(lines[..i + 1], badStart)
  {
    AcceptedStep(lines, i, badStart);
  }

  // ---------------------------------------------------------------------------
  // Properties of the classification

  /** Comment lines, directive lines and lines indented with a space are
      rejected whenever the initial entries are still excluded. */
  lemma CommentDirectiveIndentRejected(line: string, badStart: seq<string>)
    requires line != [] && (line[0] == '$' || line[0] == ';' || line[0] == ' ')
    requires InitialBadStart <= badStart
    ensures !CheckLine(line, badStart)
  {
    assert InitialBadStart[0] in badStart && InitialBadStart[1] in badStart && InitialBadStart[2] in badStart;
    assert Head1(line) == [line[0]];
  }

  /** Only `line[:1]` is compared, so exclusion entries whose length is not
      one (such as `NS ` or the pushed `COM.`) never reject a line. */
  lemma WideEntriesNeverExclude(line: string, badStart: seq<string>, wide: seq<string>)
    requires forall e | e in wide :: |e| != 1
    ensures CheckLine(line, badStart + wide) == CheckLine(line, badStart)
  {
    if line == [] {
      assert Tokens(line) == [];
    } else {
      assert |Head1(line)| == 1;
      assert Head1(line) in badStart + wide <==> Head1(line) in badStart;
    }
  }

  /** While a zone file is processed, the exclusion list is the initial one
      plus the upper-cased extension with a dot; for a non-empty extension
      the result is the same as testing the three single characters alone. */
  lemma ZoneExclusionIsFirstCharacterOnly(line: string, ext: string)
    requires ext != []
    ensures CheckLine(line, InitialBadStart + [Upper(ext) + "."]) == CheckLine(line, ["$", ";", " "])
  {
    assert InitialBadStart + [Upper(ext) + "."] == ["$", ";", " "] + ["NS ", Upper(ext) + "."];
    WideEntriesNeverExclude(line, ["$", ";", " "], ["NS ", Upper(ext) + "."]);
  }

  /** A name is contributed exactly when it is the extracted name of some
      accepted line of the stream. */
  lemma {:induction false} AcceptedMeans(lines: seq<string>, badStart: seq<string>, d: string)
    ensures d in Accepted(lines, badStart) <==>
            exists i | 0 <= i < |lines| :: CheckLine(lines[i], badStart) && ExtractDomain(lines[i]) == d
  {
    if lines != [] {
      var n := |lines| - 1;
      AcceptedMeans(lines[..n], badStart, d);
      if d in Accepted(lines, badStart) && d !in Accepted(lines[..n], badStart) {
        assert CheckLine(lines[n], badStart) && ExtractDomain(lines[n]) == d;
      }
      if d in Accepted(lines[..n], badStart) {
        var i :| 0 <= i < n && CheckLine(lines[..n][i], badStart) && ExtractDomain(lines[..n][i]) == d;
        assert lines[i] == lines[..n][i];
      }
      if exists i | 0 <= i < |lines| :: CheckLine(lines[i], badStart) && ExtractDomain(lines[i]) == d {
        var i :| 0 <= i < |lines| && CheckLine(lines[i], badStart) && ExtractDomain(lines[i]) == d;
        if i < n {
          assert lines[..n][i] == lines[i];
        }
      }
    }
  }

  /** Every contributed name is a token: non-empty, without whitespace. */
  lemma {:induction false} AcceptedAreWords(lines: seq<string>, badStart: seq<string>)
    ensures forall d | d in Accepted(lines, badStart) :: IsWord(d)
  {
    if lines != [] {
      AcceptedAreWords(lines[..|lines| - 1], badStart);
    }
  }

  /** Entries of a length other than one change nothing in what a stream
      contributes. */
  lemma {:induction false} AcceptedIgnoresWideEntries(lines: seq<string>, badStart: seq<string>, wide: seq<string>)
    requires forall e | e in wide :: |e| != 1
    ensures Accepted(lines, badStart + wide) == Accepted(lines, badStart)
  {
    if lines != [] {
      AcceptedIgnoresWideEntries(lines[..|lines| - 1], badStart, wide);
      WideEntriesNeverExclude(lines[|lines| - 1], badStart, wide);
    }
  }

  /** On words joined by single spaces, the classification reads the words:
      accepted exactly when the first character is not excluded, there are at
      least three words and the second is `NS`; the name is the first word. */
  lemma CheckLineOfJoinSpace(ws: seq<string>, badStart: seq<string>)
    requires forall i | 0 <= i < |ws| :: IsWord(ws[i])
    ensures Tokens(JoinSpace(ws)) == ws
    ensures CheckLine(JoinSpace(ws), badStart) <==>
            !PrefixExcluded(JoinSpace(ws), badStart) && |ws| >= 3 && ws[1] == DelegationType
    ensures ws != [] ==> ExtractDomain(JoinSpace(ws)) == ws[0]
  {
    TokensOfJoinSpace(ws);
  }

  /** On a line of words separated by arbitrary whitespace runs, after
      optional leading whitespace, the classification reads the words: the
      tokens are the words, the line is accepted exactly when its first
      character is not excluded, there are at least three words and the
      second is `NS`, and the name is the first word. */
  lemma CheckLineOfSpaced(lead: string, ws: seq<string>, gaps: seq<string>, badStart: seq<string>)
    requires IsSpaceRun(lead) && |gaps| == |ws|
    requires forall i | 0 <= i < |ws| :: IsWord(ws[i]) && IsSpaceRun(gaps[i])
    requires forall i | 0 <= i < |ws| - 1 :: gaps[i] != []
    ensures Tokens(lead + Spaced(ws, gaps)) == ws
    ensures CheckLine(lead + Spaced(ws, gaps), badStart) <==>
            !PrefixExcluded(lead + Spaced(ws, gaps), badStart) && |ws| >= 3 && ws[1] == DelegationType
    ensures ws != [] ==> ExtractDomain(lead + Spaced(ws, gaps)) == ws[0]
  {
    TokensOfSpaced(lead, ws, gaps);
  }

  // ---------------------------------------------------------------------------
  // Concrete lines

  /** A line of three words joined by single spaces is accepted exactly when
      its first character is not excluded and the second word is `NS`; its
      name is the first word. */
  lemma CheckLineOfThreeWords(a: string, b: string, c: string, badStart: seq<string>)
    requires IsWord(a) && IsWord(b) && IsWord(c)
    ensures Tokens(a + " " + b + " " + c) == [a, b, c]
    ensures CheckLine(a + " " + b + " " + c, badStart) <==>
            Head1(a) !in badStart && b == DelegationType
    ensures ExtractDomain(a + " " + b + " " + c) == a
  {
    var ws := [a, b, c];
    JoinSpaceThree(a, b, c);
    assert (a + " " + b + " " + c)[..1] == a[..1];
    CheckLineOfJoinSpace(ws, badStart);
  }

  /** `CheckLineOfSpaced` on a line of three words after a whitespace run
      `lead`; with no lead the excluded character is the first one of `a`,
      otherwise the first one of `lead`. */
  lemma CheckLineOfSpacedThree(lead: string, a: string, b: string, c: string,
                               g1: string, g2: string, g3: string, badStart: seq<string>)
    requires IsSpaceRun(lead) && IsWord(a) && IsWord(b) && IsWord(c)
    requires IsSpaceRun(g1) && IsSpaceRun(g2) && IsSpaceRun(g3) && g1 != [] && g2 != []
    ensures Tokens(lead + (a + g1 + b + g2 + c + g3)) == [a, b, c]
    ensures Tokens(a + g1 + b + g2 + c + g3) == [a, b, c]
    ensures CheckLine(lead + (a + g1 + b + g2 + c + g3), badStart) <==>
            Head1(if lead == [] then a else lead) !in badStart && b == DelegationType
    ensures CheckLine(a + g1 + b + g2 + c + g3, badStart) <==> Head1(a) !in badStart && b == DelegationType
    ensures ExtractDomain(lead + (a + g1 + b + g2 + c + g3)) == a
    ensures ExtractDomain(a + g1 + b + g2 + c + g3) == a
  {
    var line := a + g1 + b + g2 + c + g3;
    SpacedThree(a, b, c, g1, g2, g3);
    CheckLineOfSpaced(lead, [a, b, c], [g1, g2, g3], badStart);
    CheckLineOfSpaced([], [a, b, c], [g1, g2, g3], badStart);
    assert [] + line == line;
    assert line[..1] == a[..1];
    if lead != [] {
      assert (lead + line)[..1] == lead[..1];
    }
  }

  /** A delegation line is accepted and yields its owner name, trailing dot
      and all. */
  lemma DelegationLineExample(line: string)
    requires line == "example.com." + " " + "NS" + " " + "ns1.example.com."
    ensures CheckLine(line, InitialBadStart)
    ensures ExtractDomain(line) == "example.com."
  {
    CheckLineOfThreeWords("example.com.", "NS", "ns1.example.com.", InitialBadStart);
  }

  /** A comment line is rejected. */
  lemma CommentLineExample(line: string)
    requires line == "; comment line"
    ensures !CheckLine(line, InitialBadStart)
  {
    CommentDirectiveIndentRejected(line, InitialBadStart);
  }

  /** The record type is compared case-sensitively: lower-case `ns` is not a
      delegation. */
  lemma LowerCaseTypeExample(line: string)
    requires line == "example.com." + " " + "ns" + " " + "ns1.example.com."
    ensures !CheckLine(line, InitialBadStart)
  {
    CheckLineOfThreeWords("example.com.", "ns", "ns1.example.com.", InitialBadStart);
  }

  /** The apex record of the zone is not excluded by the pushed `COM.` entry:
      only its first character `C` is compared, and `C` is not excluded. */
  lemma ApexLineExample(line: string)
    requires line == "COM." + " " + "NS" + " " + "a.gtld-servers.net."
    ensures CheckLine(line, InitialBadStart + ["COM."])
    ensures ExtractDomain(line) == "COM."
  {
    CheckLineOfThreeWords("COM.", "NS", "a.gtld-servers.net.", InitialBadStart + ["COM."]);
  }

  /** The pattern test never looks at what the third token holds: a target
      that is no host name at all is accepted. */
  lemma AnyTargetExample(line: string)
    requires line == "example.com." + " " + "NS" + " " + "***"
    ensures CheckLine(line, InitialBadStart)
  {
    CheckLineOfThreeWords("example.com.", "NS", "***", InitialBadStart);
  }

  /** A line in the shape zone files use, columns separated by tabs and a
      line break at the end, is accepted and yields its owner name. */
  lemma TabSeparatedLineExample(line: string)
    requires line == "example.com." + "\t" + "NS" + "\t" + "ns1.example.com." + "\n"
    ensures CheckLine(line, InitialBadStart)
    ensures ExtractDomain(line) == "example.com."
  {
    CheckLineOfSpacedThree([], "example.com.", "NS", "ns1.example.com.", "\t", "\t", "\n", InitialBadStart);
  }

  /** Only a space is excluded as indentation: a line indented with a tab is
      accepted, and `split()` drops the tab. */
  lemma TabIndentedLineExample(line: string)
    requires line == "\t" + ("example.com." + " " + "NS" + "  " + "ns1.example.com." + "\n")
    ensures CheckLine(line, InitialBadStart)
    ensures ExtractDomain(line) == "example.com."
  {
    CheckLineOfSpacedThree("\t", "example.com.", "NS", "ns1.example.com.", " ", "  ", "\n", InitialBadStart);
  }
}
