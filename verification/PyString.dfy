/** The Python string operations the settings parser and the version gate rely on. */
module PyString {

  predicate IsBreak(c: char) {
    || c == '\n' || c == '\r' || c == '\U{000B}' || c == '\U{000C}' || '\U{001C}' <= c <= '\U{001E}'
    || c == '\U{0085}' || c == '\U{2028}' || c == '\U{2029}'
  }

  predicate IsSpace(c: char) {
    || IsBreak(c)
    || c == ' ' || c == '\t' || c == '\U{001F}' || c == '\U{00A0}' || c == '\U{1680}'
    || c == '\U{202F}' || c == '\U{205F}' || c == '\U{3000}'
    || '\U{2000}' <= c <= '\U{200A}'
  }

  predicate NoBreak(s: string) {
    forall i :: 0 <= i < |s| ==> !IsBreak(s[i])
  }

  // ------------------------------------------------------------- strip

  function LStrip(s: string): (r: string)
    ensures |r| <= |s|
    ensures r != "" ==> !IsSpace(r[0])
  {
    if s == "" || !IsSpace(s[0]) then s else LStrip(s[1..])
  }

  function RStrip(s: string): (r: string)
    ensures |r| <= |s|
    ensures r == s[..|r|]
    ensures r != "" ==> !IsSpace(r[|r| - 1])
  {
    if s == "" || !IsSpace(s[|s| - 1]) then s else RStrip(s[..|s| - 1])
  }

  function Strip(s: string): string {
    RStrip(LStrip(s))
  }

  /** Neither end is white space. */
  predicate Trimmed(s: string) {
    s != "" ==> !IsSpace(s[0]) && !IsSpace(s[|s| - 1])
  }

  lemma TrimmedIsFixed(s: string)
    requires Trimmed(s)
    ensures Strip(s) == s
  {
  }

  lemma StripIsTrimmed(s: string)
    ensures Trimmed(Strip(s))
  {
  }

  lemma {:induction false} LStripAround(a: string, c: char, v: string)
    requires !IsSpace(c)
    ensures LStrip(a + [c] + v) == LStrip(a) + [c] + v
  {
    hide IsSpace;
    if a == "" || !IsSpace(a[0]) {
      assert (a + [c] + v)[0] == if a == "" then c else a[0];
    } else {
      assert (a + [c] + v)[1..] == a[1..] + [c] + v;
      LStripAround(a[1..], c, v);
    }
  }

  lemma {:induction false} RStripAround(u: string, c: char, v: string)
    requires !IsSpace(c)
    ensures RStrip(u + [c] + v) == u + [c] + RStrip(v)
  {
    hide IsSpace;
    var s := u + [c] + v;
    if v == "" || !IsSpace(v[|v| - 1]) {
      assert s[|s| - 1] == if v == "" then c else v[|v| - 1];
    } else {
      assert s[..|s| - 1] == u + [c] + v[..|v| - 1];
      RStripAround(u, c, v[..|v| - 1]);
    }
  }

  lemma {:induction false} RStripFixed(s: string)
    ensures RStrip(RStrip(s)) == RStrip(s)
  {
  }

  lemma {:induction false} LStripKeepsAll(s: string)
    ensures (forall i :: 0 <= i < |s| ==> IsSpace(s[i])) ==> LStrip(s) == "" && RStrip(s) == ""
  {
    hide IsSpace;
    if s != "" {
      LStripKeepsAll(s[1..]);
      LStripKeepsAll(s[..|s| - 1]);
    }
  }

  /** Stripping the right end first makes no difference. */
  lemma StripBothWays(s: string)
    ensures LStrip(RStrip(s)) == RStrip(LStrip(s))
  {
    hide IsSpace;
    if i :| 0 <= i < |s| && !IsSpace(s[i]) {
      var a, c, v := s[..i], s[i], s[i + 1..];
      assert s == a + [c] + v;
      LStripAround(a, c, v);
      RStripAround(a, c, v);
      RStripAround(LStrip(a), c, v);
      LStripAround(a, c, RStrip(v));
    } else {
      LStripKeepsAll(s);
    }
  }

  lemma StripOfLStrip(s: string)
    ensures Strip(LStrip(s)) == Strip(s)
  {
  }

  lemma StripOfRStrip(s: string)
    ensures Strip(RStrip(s)) == Strip(s)
  {
    StripBothWays(s);
    RStripFixed(LStrip(s));
  }

  /** Stripping keeps the first character that is not white space. */
  lemma StripKeepsHead(s: string)
    ensures (LStrip(s) == "" <==> Strip(s) == "") && (Strip(s) != "" ==> Strip(s)[0] == LStrip(s)[0])
  {
    hide IsSpace;
    var x := LStrip(s);
    if x != "" {
      assert x == "" + [x[0]] + x[1..];
      RStripAround("", x[0], x[1..]);
    }
  }

  predicate AllSpace(s: string) {
    forall i :: 0 <= i < |s| ==> IsSpace(s[i])
  }

  lemma {:induction false} LStripDrops(a: string, s: string)
    requires AllSpace(a) && (s != "" ==> !IsSpace(s[0]))
    ensures LStrip(a + s) == s
  {
    hide IsSpace;
    if a == "" {
      assert a + s == s;
    } else {
      assert (a + s)[0] == a[0] && (a + s)[1..] == a[1..] + s;
      LStripDrops(a[1..], s);
    }
  }

  lemma {:induction false} RStripDrops(s: string, b: string)
    requires AllSpace(b) && (s != "" ==> !IsSpace(s[|s| - 1]))
    ensures RStrip(s + b) == s
  {
    hide IsSpace;
    if b == "" {
      assert s + b == s;
    } else {
      assert (s + b)[..|s + b| - 1] == s + b[..|b| - 1];
      RStripDrops(s, b[..|b| - 1]);
    }
  }

  /** Whatever white space surrounds a trimmed text, stripping gives that text ... */
  lemma StripDrops(a: string, s: string, b: string)
    requires AllSpace(a) && AllSpace(b) && Trimmed(s)
    ensures Strip(a + s + b) == s
  {
    hide IsSpace, LStrip, RStrip;
    if s == "" {
      assert AllSpace(a + b) && a + s + b == a + b && (a + b) + "" == a + b;
      LStripDrops(a + b, "");
      RStripDrops("", "");
      assert "" + "" == "";
    } else {
      assert a + s + b == a + (s + b) && (s + b)[0] == s[0];
      LStripDrops(a, s + b);
      RStripDrops(s, b);
    }
  }

  lemma {:induction false} RStripLeaves(s: string)
    ensures AllSpace(s[|RStrip(s)|..])
  {
    hide IsSpace;
    if s != "" && IsSpace(s[|s| - 1]) {
      RStripLeaves(s[..|s| - 1]);
      var r := RStrip(s[..|s| - 1]);
      assert s[|r|..] == s[..|s| - 1][|r|..] + [s[|s| - 1]];
    }
  }

  lemma {:induction false} LStripLeaves(s: string)
    ensures AllSpace(s[..|s| - |LStrip(s)|])
  {
    hide IsSpace;
    if s != "" && IsSpace(s[0]) {
      LStripLeaves(s[1..]);
      var r := LStrip(s[1..]);
      assert s[..|s| - |r|] == [s[0]] + s[1..][..|s[1..]| - |r|];
    }
  }

  /** ... and every text is such a one. */
  lemma StripSplits(s: string) returns (a: string, b: string)
    ensures AllSpace(a) && AllSpace(b) && Trimmed(Strip(s)) && s == a + Strip(s) + b
  {
    hide IsSpace, LStrip, RStrip;
    var x := LStrip(s);
    a, b := s[..|s| - |x|], x[|Strip(s)|..];
    LStripIsSuffix(s);
    LStripLeaves(s);
    RStripLeaves(x);
    StripIsTrimmed(s);
  }

  lemma StripAddsNothing(s: string, c: char)
    requires c !in s
    ensures c !in Strip(s)
  {
    LStripIsSuffix(s);
  }

  // ------------------------------------------------------------- find

  /** Index of the first c, |s| if there is none. */
  function Find(s: string, c: char): (i: nat)
    ensures i <= |s|
    ensures i < |s| ==> s[i] == c
    ensures forall j :: 0 <= j < i ==> s[j] != c
  {
    if s == "" || s[0] == c then 0 else 1 + Find(s[1..], c)
  }

  lemma FindIs(s: string, c: char, i: nat)
    requires i < |s| && s[i] == c && forall j :: 0 <= j < i ==> s[j] != c
    ensures Find(s, c) == i
  {
    assert s[i] == c;
  }

  lemma {:induction false} LStripIsSuffix(s: string)
    ensures LStrip(s) == s[|s| - |LStrip(s)|..]
  {
    if s != "" && IsSpace(s[0]) {
      LStripIsSuffix(s[1..]);
    }
  }

  /** s.split(c) for a single character. */
  function SplitOn(s: string, c: char): (parts: seq<string>)
    ensures |parts| >= 1
    decreases |s|
  {
    var i := Find(s, c);
    if i == |s| then [s] else [s[..i]] + SplitOn(s[i + 1..], c)
  }

  /** What a split at c is, cut by cut. */
  lemma SplitOnAt(a: string, c: char, b: string)
    requires c !in a
    ensures SplitOn(a, c) == [a]
    ensures SplitOn(a + [c] + b, c) == [a] + SplitOn(b, c)
  {
    var s := a + [c] + b;
    assert forall j :: 0 <= j < |a| ==> s[j] == a[j] && a[j] in a;
    FindIs(s, c, |a|);
    assert s[..|a|] == a && s[|a| + 1..] == b;
    assert forall j :: 0 <= j < |a| ==> a[j] in a && a[j] != c;
  }

  predicate StartsWith(s: string, prefix: string) {
    |prefix| <= |s| && s[..|prefix|] == prefix
  }

  predicate EndsWith(s: string, suffix: string) {
    |suffix| <= |s| && s[|s| - |suffix|..] == suffix
  }

  /** lower(), on the ASCII letters. */
  function Lower(s: string): string {
    if s == "" then ""
    else [if 'A' <= s[0] <= 'Z' then (s[0] as int + 32) as char else s[0]] + Lower(s[1..])
  }

  lemma {:induction false} LowerAt(s: string)
    ensures |Lower(s)| == |s|
    ensures forall i :: 0 <= i < |s| ==>
              Lower(s)[i] == if 'A' <= s[i] <= 'Z' then (s[i] as int - 'A' as int + 'a' as int) as char else s[i]
  {
    if s != "" { LowerAt(s[1..]); }
  }

  // ------------------------------------------------------------- lines

  function FindBreak(s: string): (i: nat)
    ensures i <= |s|
    ensures i < |s| ==> IsBreak(s[i])
    ensures NoBreak(s[..i])
  {
    if s == "" || IsBreak(s[0]) then 0
    else
      var i := FindBreak(s[1..]);
      assert s[..1 + i] == [s[0]] + s[1..][..i];
      1 + i
  }

  /** splitlines() on text read with universal newlines. */
  function SplitLines(s: string): (lines: seq<string>)
    ensures forall i :: 0 <= i < |lines| ==> NoBreak(lines[i])
    decreases |s|
  {
    if s == "" then []
    else
      var i := FindBreak(s);
      if i == |s| then assert s[..i] == s; [s] else [s[..i]] + SplitLines(s[i + 1..])
  }

  /** What a split into lines is, break by break. */
  lemma SplitLinesAt(a: string, c: char, b: string)
    requires NoBreak(a) && IsBreak(c)
    ensures SplitLines(a) == if a == "" then [] else [a]
    ensures SplitLines(a + [c] + b) == [a] + SplitLines(b)
  {
    hide IsBreak;
    var s := a + [c] + b;
    var i := FindBreak(s);
    assert s[|a|] == c;
    assert forall j :: 0 <= j < |a| ==> s[j] == a[j];
    assert forall j :: 0 <= j < i ==> s[j] == s[..i][j];
    assert i == |a|;
    assert s[..|a|] == a && s[|a| + 1..] == b;
    assert FindBreak(a) == |a|;
    assert a[..|a|] == a;
  }

  /** Each line with its newline. */
  function JoinLines(lines: seq<string>): string {
    if lines == [] then "" else lines[0] + "\n" + JoinLines(lines[1..])
  }

  /** "\n".join(lines) + "\n", which is one newline when there are no lines. */
  function Render(lines: seq<string>): (text: string)
    ensures text != "" && text[|text| - 1] == '\n'
  {
    if lines == [] then "\n" else JoinEndsInNewline(lines); JoinLines(lines)
  }

  lemma {:induction false} JoinEndsInNewline(lines: seq<string>)
    requires lines != []
    ensures JoinLines(lines) != "" && JoinLines(lines)[|JoinLines(lines)| - 1] == '\n'
  {
    if |lines| > 1 { JoinEndsInNewline(lines[1..]); }
  }

  /** Where newlines are the only breaks, reading lines and writing them back restores the text, ended
      with a newline. */
  lemma {:induction false} JoinOfSplit(s: string)
    requires forall i :: 0 <= i < |s| && IsBreak(s[i]) ==> s[i] == '\n'
    ensures JoinLines(SplitLines(s)) == if s == "" || s[|s| - 1] == '\n' then s else s + "\n"
    decreases |s|
  {
    hide IsBreak, SplitLines, FindBreak, JoinLines;
    var i := FindBreak(s);
    var line := s[..i];
    NewlineIsBreak();
    JoinStarts(line, []);
    if i == |s| {
      SplitLinesAt(s, '\n', "");
      assert line == s && (s != "" ==> s[|s| - 1] == line[|s| - 1]);
    } else {
      var rest := s[i + 1..];
      assert s == line + ['\n'] + rest;
      SplitLinesAt(line, '\n', rest);
      JoinOfSplit(rest);
      JoinStarts(line, SplitLines(rest));
    }
  }

  lemma JoinStarts(line: string, lines: seq<string>)
    ensures JoinLines([]) == "" && JoinLines([line] + lines) == line + "\n" + JoinLines(lines)
    ensures JoinLines([line]) == line + "\n"
  {
    assert ([line] + lines)[1..] == lines && [line][1..] == [];
    assert line + "\n" + "" == line + "\n";
  }

  lemma NewlineIsBreak()
    ensures IsBreak('\n')
  {
  }

  lemma FindBreakIs(s: string, t: string)
    requires NoBreak(s)
    ensures FindBreak(s + "\n" + t) == |s|
  {
    var x := s + "\n" + t;
    var i := FindBreak(x);
    assert x[|s|] == '\n';
    assert forall j :: 0 <= j < |s| ==> x[j] == s[j];
    assert forall j :: 0 <= j < i ==> x[j] == x[..i][j];
  }

  /** Writing lines and reading them back gives the same lines. */
  lemma {:induction false} SplitOfJoin(lines: seq<string>)
    requires forall i :: 0 <= i < |lines| ==> NoBreak(lines[i])
    ensures SplitLines(JoinLines(lines)) == lines
  {
    if lines != [] {
      var rest := JoinLines(lines[1..]);
      var s := lines[0] + "\n" + rest;
      FindBreakIs(lines[0], rest);
      assert s[..|lines[0]|] == lines[0] && s[|lines[0]| + 1..] == rest;
      SplitOfJoin(lines[1..]);
    }
  }
}
