/**
 * The parts of Python's `str` behaviour that the zone-file pipeline of
 * `etl.py` relies on: whitespace tokenising (`str.split()`), splitting on one
 * separator (`str.split(sep)`), ASCII case mapping, and the concatenation that
 * repeated appends to one file produce.
 */
module Text {

  /** Python's `str.isspace()` on an ASCII character: tab, line feed, vertical
      tab, form feed, carriage return, the four separators 0x1C-0x1F and the
      space. */
  predicate IsSpace(c: char) {
    9 <= c as int <= 13 || 28 <= c as int <= 32
  }

  /** What `bytes.decode('ascii')` accepts without raising. */
  predicate IsAscii(s: string) {
    forall i | 0 <= i < |s| :: s[i] as int < 128
  }

  predicate NoSpace(w: string) {
    forall i | 0 <= i < |w| :: !IsSpace(w[i])
  }

  /** A token as `str.split()` produces it: non-empty and free of whitespace. */
  predicate IsWord(w: string) {
    w != [] && NoSpace(w)
  }

  predicate Distinct(s: seq<string>) {
    forall i, j | 0 <= i < j < |s| :: s[i] != s[j]
  }

  /** `set(s)` for a list of strings. */
  function SetOf(s: seq<string>): set<string> {
    set x | x in s
  }

  /** `order` lists every element of `s` exactly once: one possible iteration
      order of a Python set. */
  predicate IsEnumeration(order: seq<string>, s: set<string>) {
    SetOf(order) == s && Distinct(order)
  }

  lemma SetOfSnoc(s: seq<string>, x: string)
    ensures SetOf(s + [x]) == SetOf(s) + {x}
  {
    assert forall y :: y in s + [x] <==> y in s || y == x;
  }

  lemma SetOfAppend(a: seq<string>, b: seq<string>)
    ensures SetOf(a + b) == SetOf(a) + SetOf(b)
  {
    assert forall y :: y in a + b <==> y in a || y in b;
  }

  /** Lists written one after the other. */
  function Flatten(xs: seq<seq<string>>): seq<string> {
    if xs == [] then [] else Flatten(xs[..|xs| - 1]) + xs[|xs| - 1]
  }

  lemma FlattenSnoc(xs: seq<seq<string>>, x: seq<string>)
    ensures Flatten(xs + [x]) == Flatten(xs) + x
  {
    assert (xs + [x])[..|xs|] == xs;
  }

  /** The union of a sequence of sets. */
  function UnionOf(ss: seq<set<string>>): set<string> {
    if ss == [] then {} else UnionOf(ss[..|ss| - 1]) + ss[|ss| - 1]
  }

  /** `orders[j]` is one iteration order of `sets[j]`, for every `j`. */
  predicate IsEnumerationOfEach(orders: seq<seq<string>>, sets: seq<set<string>>) {
    && |orders| == |sets|
    && (orders != [] ==>
          && IsEnumerationOfEach(orders[..|orders| - 1], sets[..|sets| - 1])
          && IsEnumeration(orders[|orders| - 1], sets[|sets| - 1]))
  }

  lemma EnumerationOfEachSnoc(orders: seq<seq<string>>, sets: seq<set<string>>, order: seq<string>, s: set<string>)
    requires IsEnumerationOfEach(orders, sets) && IsEnumeration(order, s)
    ensures IsEnumerationOfEach(orders + [order], sets + [s])
  {
    assert (orders + [order])[..|orders|] == orders;
    assert (sets + [s])[..|sets|] == sets;
  }

  /** The recursive definition means what it says: each list enumerates its set. */
  lemma {:induction false} EnumerationOfEachMeans(orders: seq<seq<string>>, sets: seq<set<string>>, j: int)
    requires IsEnumerationOfEach(orders, sets) && 0 <= j < |orders|
    ensures IsEnumeration(orders[j], sets[j])
  {
    var n := |orders| - 1;
    if j < n {
      EnumerationOfEachMeans(orders[..n], sets[..n], j);
    }
  }

  /** Writing one iteration order of each set, one after the other, writes
      exactly the names of their union. */
  lemma {:induction false} SetOfFlatten(orders: seq<seq<string>>, sets: seq<set<string>>)
    requires IsEnumerationOfEach(orders, sets)
    ensures SetOf(Flatten(orders)) == UnionOf(sets)
  {
    if orders != [] {
      var n := |orders| - 1;
      SetOfFlatten(orders[..n], sets[..n]);
      SetOfAppend(Flatten(orders[..n]), orders[n]);
    }
  }

  // ---------------------------------------------------------------------------
  // str.split(): runs of whitespace separate tokens, none of them empty

  /** The tokens of `s`, given that `cur` holds the characters of a token that
      is still being read. */
  function SplitWsFrom(s: string, cur: string): seq<string>
    decreases |s|
  {
    if s == [] then Pending(cur)
    else if IsSpace(s[0]) then Pending(cur) + SplitWsFrom(s[1..], [])
    else SplitWsFrom(s[1..], cur + [s[0]])
  }

  function Pending(cur: string): seq<string> {
    if cur == [] then [] else [cur]
  }

  /** `s.split()` with no argument. */
  function Tokens(s: string): seq<string> {
    SplitWsFrom(s, [])
  }

  lemma {:induction false} SplitWsFromWords(s: string, cur: string)
    requires NoSpace(cur)
    ensures forall t | t in SplitWsFrom(s, cur) :: IsWord(t)
    decreases |s|
  {
    if s == [] {
    } else if IsSpace(s[0]) {
      SplitWsFromWords(s[1..], []);
    } else {
      assert NoSpace(cur + [s[0]]);
      SplitWsFromWords(s[1..], cur + [s[0]]);
    }
  }

  /** Every token is non-empty and holds no whitespace (so no line break). */
  lemma TokensAreWords(s: string)
    ensures forall t | t in Tokens(s) :: IsWord(t)
  {
    SplitWsFromWords(s, []);
  }

  lemma {:induction false} SplitWsFromFirst(s: string, cur: string)
    requires SplitWsFrom(s, cur) != []
    requires cur != [] || (s != [] && !IsSpace(s[0]))
    ensures SplitWsFrom(s, cur)[0] <= cur + s
    decreases |s|
  {
    if s == [] {
    } else if IsSpace(s[0]) {
    } else {
      SplitWsFromFirst(s[1..], cur + [s[0]]);
      assert cur + [s[0]] + s[1..] == cur + s;
    }
  }

  /** On a string that does not start with whitespace, the first token is a
      prefix of the string. */
  lemma TokensFirstIsPrefix(s: string)
    ensures Tokens(s) != [] && s != [] && !IsSpace(s[0]) ==> Tokens(s)[0] <= s
  {
    if Tokens(s) != [] && s != [] && !IsSpace(s[0]) {
      SplitWsFromFirst(s, []);
    }
  }

  /** Words joined by single spaces. */
  function JoinSpace(ws: seq<string>): string {
    if ws == [] then []
    else if |ws| == 1 then ws[0]
    else ws[0] + " " + JoinSpace(ws[1..])
  }

  /** Three words joined by single spaces. */
  lemma JoinSpaceThree(a: string, b: string, c: string)
    ensures JoinSpace([a, b, c]) == a + " " + b + " " + c
  {
    assert [a, b, c][1..] == [b, c];
    assert [b, c][1..] == [c];
    assert JoinSpace([c]) == c;
    assert JoinSpace([b, c]) == b + " " + c;
    assert JoinSpace([a, b, c]) == a + " " + (b + " " + c);
  }

  lemma {:induction false} SplitWsFromWord(w: string, rest: string, cur: string)
    requires NoSpace(w)
    ensures SplitWsFrom(w + rest, cur) == SplitWsFrom(rest, cur + w)
    decreases |w|
  {
    if w == [] {
      assert w + rest == rest;
      assert cur + w == cur;
    } else {
      assert (w + rest)[0] == w[0];
      assert (w + rest)[1..] == w[1..] + rest;
      assert NoSpace(w[1..]);
      SplitWsFromWord(w[1..], rest, cur + [w[0]]);
      assert cur + [w[0]] + w[1..] == cur + w;
    }
  }

  /** Tokenising words joined by single spaces gives the words back. */
  lemma {:induction false} TokensOfJoinSpace(ws: seq<string>)
    requires forall i | 0 <= i < |ws| :: IsWord(ws[i])
    ensures Tokens(JoinSpace(ws)) == ws
  {
    if ws == [] {
    } else if |ws| == 1 {
      SplitWsFromWord(ws[0], [], []);
      assert ws[0] + [] == ws[0];
      assert [] + ws[0] == ws[0];
    } else {
      var rest := JoinSpace(ws[1..]);
      assert JoinSpace(ws) == ws[0] + (" " + rest);
      SplitWsFromWord(ws[0], " " + rest, []);
      assert [] + ws[0] == ws[0];
      assert (" " + rest)[1..] == rest;
      TokensOfJoinSpace(ws[1..]);
      assert ws == [ws[0]] + ws[1..];
    }
  }

  /** A run of whitespace, possibly empty. */
  predicate IsSpaceRun(g: string) {
    forall i | 0 <= i < |g| :: IsSpace(g[i])
  }

  /** Each word followed by its own run of whitespace, as on a zone-file line
      whose columns are separated by tabs or spaces and which ends with a line
      break. */
  function Spaced(ws: seq<string>, gaps: seq<string>): string
    requires |gaps| == |ws|
    decreases |ws|
  {
    if ws == [] then [] else ws[0] + gaps[0] + Spaced(ws[1..], gaps[1..])
  }

  /** Three words, each followed by its gap. */
  lemma SpacedThree(a: string, b: string, c: string, g1: string, g2: string, g3: string)
    ensures Spaced([a, b, c], [g1, g2, g3]) == a + g1 + b + g2 + c + g3
  {
    assert [a, b, c][1..] == [b, c] && [g1, g2, g3][1..] == [g2, g3];
    assert [b, c][1..] == [c] && [g2, g3][1..] == [g3];
    assert [c][1..] == [] && [g3][1..] == [];
    assert Spaced([c], [g3]) == c + g3 + [];
    assert c + g3 + [] == c + g3;
    assert Spaced([a, b, c], [g1, g2, g3]) == a + g1 + (b + g2 + (c + g3));
  }

  /** Whitespace before a token is skipped. */
  lemma {:induction false} SplitWsFromSpaces(g: string, rest: string)
    requires IsSpaceRun(g)
    ensures SplitWsFrom(g + rest, []) == SplitWsFrom(rest, [])
    decreases |g|
  {
    if g == [] {
      assert g + rest == rest;
    } else {
      assert (g + rest)[0] == g[0];
      assert (g + rest)[1..] == g[1..] + rest;
      assert IsSpaceRun(g[1..]);
      SplitWsFromSpaces(g[1..], rest);
    }
  }

  /** Tokenising words that are each followed by a whitespace run (every run
      but the last one non-empty) gives the words back. */
  lemma {:induction false} TokensOfSpacedFrom(ws: seq<string>, gaps: seq<string>)
    requires |gaps| == |ws|
    requires forall i | 0 <= i < |ws| :: IsWord(ws[i]) && IsSpaceRun(gaps[i])
    requires forall i | 0 <= i < |ws| - 1 :: gaps[i] != []
    ensures SplitWsFrom(Spaced(ws, gaps), []) == ws
    decreases |ws|
  {
    if ws != [] {
      var w, g := ws[0], gaps[0];
      var rest := Spaced(ws[1..], gaps[1..]);
      assert Spaced(ws, gaps) == w + (g + rest);
      SplitWsFromWord(w, g + rest, []);
      assert [] + w == w;
      TokensOfSpacedFrom(ws[1..], gaps[1..]);
      if g == [] {
        assert ws[1..] == [];
        assert g + rest == [];
      } else {
        assert (g + rest)[0] == g[0];
        assert (g + rest)[1..] == g[1..] + rest;
        assert IsSpaceRun(g[1..]);
        SplitWsFromSpaces(g[1..], rest);
      }
      assert ws == [w] + ws[1..];
    }
  }

  /** `split()` of a line made of leading whitespace, then words each followed
      by whitespace (tabs, runs of spaces, a final line break or nothing):
      the tokens are exactly the words. */
  lemma TokensOfSpaced(lead: string, ws: seq<string>, gaps: seq<string>)
    requires IsSpaceRun(lead) && |gaps| == |ws|
    requires forall i | 0 <= i < |ws| :: IsWord(ws[i]) && IsSpaceRun(gaps[i])
    requires forall i | 0 <= i < |ws| - 1 :: gaps[i] != []
    ensures Tokens(lead + Spaced(ws, gaps)) == ws
  {
    SplitWsFromSpaces(lead, Spaced(ws, gaps));
    TokensOfSpacedFrom(ws, gaps);
  }

  // ---------------------------------------------------------------------------
  // str.split(sep): every occurrence of sep separates, empty parts are kept

  function SplitOnFrom(s: string, sep: char, cur: string): (parts: seq<string>)
    ensures |parts| >= 1
    decreases |s|
  {
    if s == [] then [cur]
    else if s[0] == sep then [cur] + SplitOnFrom(s[1..], sep, [])
    else SplitOnFrom(s[1..], sep, cur + [s[0]])
  }

  /** `s.split(sep)` for a one-character separator. */
  function SplitOn(s: string, sep: char): seq<string> {
    SplitOnFrom(s, sep, [])
  }

  /** `sep.join(parts)`. */
  function Join(parts: seq<string>, sep: char): string {
    if parts == [] then []
    else if |parts| == 1 then parts[0]
    else parts[0] + [sep] + Join(parts[1..], sep)
  }

  lemma {:induction false} JoinSplitOnFrom(s: string, sep: char, cur: string)
    ensures Join(SplitOnFrom(s, sep, cur), sep) == cur + s
    decreases |s|
  {
    if s == [] {
    } else if s[0] == sep {
      JoinSplitOnFrom(s[1..], sep, []);
      assert s == [sep] + s[1..];
    } else {
      JoinSplitOnFrom(s[1..], sep, cur + [s[0]]);
      assert cur + [s[0]] + s[1..] == cur + s;
    }
  }

  /** Joining the parts of a split with the same separator restores the string. */
  lemma JoinSplitOn(s: string, sep: char)
    ensures Join(SplitOn(s, sep), sep) == s
  {
    JoinSplitOnFrom(s, sep, []);
  }

  lemma {:induction false} SplitOnFromWithoutSep(s: string, sep: char, cur: string)
    requires sep !in s
    ensures SplitOnFrom(s, sep, cur) == [cur + s]
    decreases |s|
  {
    if s == [] {
      assert cur + s == cur;
    } else {
      assert s[0] in s;
      assert forall c | c in s[1..] :: c in s;
      SplitOnFromWithoutSep(s[1..], sep, cur + [s[0]]);
      assert cur + [s[0]] + s[1..] == cur + s;
    }
  }

  /** A string without the separator splits into itself alone. */
  lemma SplitOnWithoutSep(s: string, sep: char)
    requires sep !in s
    ensures SplitOn(s, sep) == [s]
  {
    SplitOnFromWithoutSep(s, sep, []);
    assert [] + s == s;
  }

  // ---------------------------------------------------------------------------
  // Concatenation and factors

  /** The strings of `ws` written one after the other, with nothing between. */
  function Concat(ws: seq<string>): string {
    if ws == [] then [] else Concat(ws[..|ws| - 1]) + ws[|ws| - 1]
  }

  lemma ConcatSnoc(ws: seq<string>, w: string)
    ensures Concat(ws + [w]) == Concat(ws) + w
  {
    assert (ws + [w])[..|ws|] == ws;
  }

  /** `d` occurs as a contiguous piece of `s`. */
  ghost predicate IsFactor(d: string, s: string) {
    exists p: string, q: string :: s == p + d + q
  }

  lemma FactorExtendLeft(d: string, a: string, s: string)
    requires IsFactor(d, s)
    ensures IsFactor(d, a + s)
  {
    var p: string, q: string :| s == p + d + q;
    assert a + s == (a + p) + d + q;
  }

  /** Every string of `ws` occurs in their concatenation. */
  lemma {:induction false} ConcatFactor(ws: seq<string>, i: int)
    requires 0 <= i < |ws|
    ensures IsFactor(ws[i], Concat(ws))
  {
    var n := |ws| - 1;
    if i == n {
      assert Concat(ws) == Concat(ws[..n]) + ws[i] + [];
    } else {
      ConcatFactor(ws[..n], i);
      var p: string, q: string :| Concat(ws[..n]) == p + ws[..n][i] + q;
      assert Concat(ws) == p + ws[i] + (q + ws[n]);
    }
  }

  /** Concatenating whitespace-free strings gives a whitespace-free string. */
  lemma {:induction false} ConcatNoSpace(ws: seq<string>)
    requires forall i | 0 <= i < |ws| :: NoSpace(ws[i])
    ensures NoSpace(Concat(ws))
  {
    if ws != [] {
      var n := |ws| - 1;
      ConcatNoSpace(ws[..n]);
      var a, b := Concat(ws[..n]), ws[n];
      assert NoSpace(b);
      assert forall i | 0 <= i < |a + b| :: (a + b)[i] == if i < |a| then a[i] else b[i - |a|];
    }
  }

  lemma NoSpaceNoNewline(s: string)
    requires NoSpace(s)
    ensures '\n' !in s
  {
  }

  // ---------------------------------------------------------------------------
  // ASCII case mapping

  function UpperChar(c: char): char {
    if 'a' <= c <= 'z' then (c as int - 32) as char else c
  }

  function LowerChar(c: char): char {
    if 'A' <= c <= 'Z' then (c as int + 32) as char else c
  }

  /** `s.upper()` on ASCII text. */
  function Upper(s: string): string {
    seq(|s|, i requires 0 <= i < |s| => UpperChar(s[i]))
  }

  /** `s.lower()` on ASCII text. */
  function Lower(s: string): string {
    seq(|s|, i requires 0 <= i < |s| => LowerChar(s[i]))
  }
}
