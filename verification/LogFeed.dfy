/** The application-log feed: the server's backward block reader and byte-cursor delta
    (genpi/routes/core.py) and the browser's incremental view (genpi/frontend/app.js).
    Bytes are modelled with '\n' as the only line break. */
module LogFeed {
  import opened Prelude

  type Byte = x: int | 0 <= x < 256
  type Bytes = seq<Byte>
  type Line = Bytes

  const NL: Byte := 10
  const MAX_LINES: nat := 1000

  // ------------------------------------------------------------- whole-file reference

  /** No newline in s[lo..hi]. */
  predicate Plain(s: Bytes, lo: nat, hi: nat)
    requires hi <= |s|
  {
    forall j :: lo <= j < hi ==> s[j] != NL
  }

  function FirstNewline(s: Bytes): (i: nat)
    ensures i <= |s| && (i < |s| ==> s[i] == NL) && Plain(s, 0, i)
  {
    NewlineFrom(s, 0)
  }

  function NewlineFrom(s: Bytes, from: nat): (i: nat)
    requires from <= |s|
    ensures from <= i <= |s| && (i < |s| ==> s[i] == NL) && Plain(s, from, i)
    decreases |s| - from
  {
    if from == |s| || s[from] == NL then from else NewlineFrom(s, from + 1)
  }

  /** Reference: the complete (newline-terminated) lines of a file, oldest first. */
  function CompleteLines(s: Bytes): seq<Line>
    decreases |s|
  {
    var i := FirstNewline(s);
    if i == |s| then [] else [s[..i]] + CompleteLines(s[i + 1..])
  }

  /** Reference: the offset just past the last newline, 0 if there is none. */
  function Cursor(s: Bytes): (c: nat)
    ensures c <= |s| && (c > 0 ==> s[c - 1] == NL) && Plain(s, c, |s|)
  {
    BoundaryUpTo(s, |s|)
  }

  function BoundaryUpTo(s: Bytes, end: nat): (c: nat)
    requires end <= |s|
    ensures c <= end && (c > 0 ==> s[c - 1] == NL) && Plain(s, c, end)
  {
    if end == 0 || s[end - 1] == NL then end else BoundaryUpTo(s, end - 1)
  }

  /** A position at which a line starts. */
  predicate Boundary(s: Bytes, c: nat) {
    c <= |s| && (c == 0 || s[c - 1] == NL)
  }

  function CountNewlines(s: Bytes): nat {
    if s == [] then 0 else (if s[0] == NL then 1 else 0) + CountNewlines(s[1..])
  }

  predicate Ended(s: Bytes) {
    s == [] || s[|s| - 1] == NL
  }

  lemma FirstLine(s: Bytes, i: nat)
    requires i < |s| && s[i] == NL && Plain(s, 0, i)
    ensures CompleteLines(s) == [s[..i]] + CompleteLines(s[i + 1..])
  {
    FirstNewlineIs(s, i);
  }

  lemma NoLines()
    ensures CompleteLines([]) == []
  {
  }

  lemma {:induction false} LinesConcat(a: Bytes, b: Bytes)
    requires Ended(a)
    ensures CompleteLines(a + b) == CompleteLines(a) + CompleteLines(b)
    decreases |a|
  {
    hide CompleteLines, NewlineFrom;
    NoLines();
    if a == [] {
      assert a + b == b;
    } else {
      var i := FirstNewline(a);
      assert i < |a|;
      var rest := a[i + 1..];
      FirstLine(a, i);
      FirstLine(a + b, i);
      assert (a + b)[..i] == a[..i] && (a + b)[i + 1..] == rest + b;
      LinesConcat(rest, b);
    }
  }

  lemma LinesSplit(s: Bytes, c: nat)
    requires Boundary(s, c)
    ensures CompleteLines(s) == CompleteLines(s[..c]) + CompleteLines(s[c..])
  {
    assert s == s[..c] + s[c..];
    LinesConcat(s[..c], s[c..]);
  }

  lemma FirstNewlineIs(s: Bytes, i: nat)
    requires i <= |s| && (i < |s| ==> s[i] == NL) && Plain(s, 0, i)
    ensures FirstNewline(s) == i
  {
  }

  lemma CursorIs(s: Bytes, c: nat)
    requires Boundary(s, c) && Plain(s, c, |s|)
    ensures Cursor(s) == c
  {
  }

  lemma NoNewlineNoLine(s: Bytes)
    ensures CompleteLines(s) == [] <==> Cursor(s) == 0
    ensures CompleteLines(s) == [] <==> FirstNewline(s) == |s|
  {
    var i := FirstNewline(s);
    if i == |s| {
      CursorIs(s, 0);
    } else {
      assert s[i] == NL;
    }
  }

  /** The unfinished rest adds no line. */
  lemma LinesUpToCursor(s: Bytes)
    ensures CompleteLines(s[..Cursor(s)]) == CompleteLines(s)
  {
    var c := Cursor(s);
    LinesSplit(s, c);
    CursorIs(s[c..], 0);
    NoNewlineNoLine(s[c..]);
  }

  /** The lines of s are free of newlines, and writing them out again, each with its newline, gives s up to the
      last one. */
  function WrittenOut(lines: seq<Line>): Bytes {
    if lines == [] then [] else lines[0] + [NL] + WrittenOut(lines[1..])
  }

  lemma {:induction false} LinesRebuild(s: Bytes)
    ensures WrittenOut(CompleteLines(s)) == s[..Cursor(s)]
    ensures forall i :: 0 <= i < |CompleteLines(s)| ==> Plain(CompleteLines(s)[i], 0, |CompleteLines(s)[i]|)
    decreases |s|
  {
    hide BoundaryUpTo, NewlineFrom;
    var i := FirstNewline(s);
    if i == |s| {
      CursorIs(s, 0);
    } else {
      var line, rest := s[..i], s[i + 1..];
      LinesRebuild(rest);
      assert ([line] + CompleteLines(rest))[1..] == CompleteLines(rest);
      RestCursor(s, i);
      assert s[..Cursor(s)] == line + [NL] + rest[..Cursor(rest)];
    }
  }

  lemma RestCursor(s: Bytes, i: nat)
    requires i < |s| && s[i] == NL
    ensures Cursor(s) == i + 1 + Cursor(s[i + 1..])
  {
    hide BoundaryUpTo;
    var rest := s[i + 1..];
    var c := i + 1 + Cursor(rest);
    assert forall j :: i + 1 <= j < |s| ==> s[j] == rest[j - i - 1];
    CursorIs(s, c);
  }

  lemma {:induction false} CountIsLineCount(s: Bytes)
    ensures |CompleteLines(s)| == CountNewlines(s)
    decreases |s|
  {
    var i := FirstNewline(s);
    CountSplit(s, i);
    CountNone(s[..i]);
    if i < |s| {
      assert s[i..][1..] == s[i + 1..];
      CountIsLineCount(s[i + 1..]);
    }
  }

  lemma {:induction false} CountSplit(s: Bytes, i: nat)
    requires i <= |s|
    ensures CountNewlines(s) == CountNewlines(s[..i]) + CountNewlines(s[i..])
  {
    if i > 0 {
      assert s[1..][..i - 1] == s[..i][1..] && s[1..][i - 1..] == s[i..];
      CountSplit(s[1..], i - 1);
    } else {
      assert s[0..] == s;
    }
  }

  lemma {:induction false} CountNone(s: Bytes)
    requires Plain(s, 0, |s|)
    ensures CountNewlines(s) == 0
  {
    if s != [] {
      CountNone(s[1..]);
    }
  }

  // ------------------------------------------------------------- Python string operations

  /** `rfind(b"\n")`: the index of the last newline, or -1. */
  function RFind(s: Bytes): int {
    Cursor(s) - 1
  }

  /** `splitlines()`: a final unterminated piece is a line too. */
  function SplitLines(s: Bytes): seq<Line>
    decreases |s|
  {
    var i := FirstNewline(s);
    if s == [] then [] else if i == |s| then [s] else [s[..i]] + SplitLines(s[i + 1..])
  }

  /** `split("\n")`: always one piece more than there are newlines. */
  function Split(s: Bytes): seq<Line>
    decreases |s|
  {
    var i := FirstNewline(s);
    if i == |s| then [s] else [s[..i]] + Split(s[i + 1..])
  }

  // ------------------------------------------------------------- server

  datatype Tail = Tail(lines: seq<Line>, cursor: nat)
  datatype Block = Block(data: Bytes, pos: nat, size: nat)

  /** What the backward reader guarantees: a suffix that is the whole file or holds more than n newlines. */
  predicate IsTailBlock(file: Bytes, n: nat, b: Block) {
    && b.size == |file| && b.pos <= |file| && b.data == file[b.pos..]
    && (b.pos == 0 || CountNewlines(b.data) > n)
  }

  /** Reads blocks backward from the end. None models a failed open or read. */
  method ReadTailBlock(file: Option<Bytes>, n: nat, block: nat) returns (b: Block)
    requires block > 0
    ensures file.None? ==> b == Block([], 0, 0)
    ensures file.Some? ==> IsTailBlock(file.value, n, b)
  {
    if file.None? || |file.value| == 0 {
      return Block([], 0, 0);
    }
    var size := |file.value|;
    var data, pos := [], size;
    while pos > 0 && CountNewlines(data) <= n
      invariant 0 <= pos <= size && data == file.value[pos..]
      decreases pos
    {
      var step := Min(block, pos);
      pos := pos - step;
      data := file.value[pos..pos + step] + data;
    }
    return Block(data, pos, size);
  }

  /** Drops a final line that is still being written. */
  function DropPartial(text: Bytes): Bytes {
    if text != [] && text[|text| - 1] == NL then text
    else if RFind(text) >= 0 then text[..RFind(text) + 1] else []
  }

  function TailWithCursor(b: Block, n: nat): Tail {
    if b.size == 0 then Tail([], 0)
    else
      var lastNl := RFind(b.data);
      var cursor := if lastNl >= 0 then b.pos + lastNl + 1 else 0;
      Tail(LastN(SplitLines(DropPartial(b.data)), n), cursor)
  }

  function ReadLogRange(file: Option<Bytes>, start: nat, end: nat, n: nat): Tail
    requires start <= end && (file.Some? ==> end <= |file.value|)
  {
    if file.None? then Tail([], start)
    else
      var chunk := file.value[start..end];
      var lastNl := RFind(chunk);
      if lastNl < 0 then Tail([], start)
      else Tail(LastN(Split(chunk[..lastNl]), n), start + lastNl + 1)
  }

  lemma SuffixCursor(file: Bytes, pos: nat)
    requires pos <= |file|
    ensures Cursor(file[pos..]) > 0 ==> Cursor(file) == pos + Cursor(file[pos..])
    ensures Cursor(file[pos..]) == 0 ==> Cursor(file) <= pos
  {
    hide BoundaryUpTo;
    var c := Cursor(file[pos..]);
    assert forall j :: pos <= j < |file| ==> file[j] == file[pos..][j - pos];
    if c > 0 {
      CursorIs(file, pos + c);
    }
  }

  lemma TrimIsCursor(s: Bytes)
    ensures DropPartial(s) == s[..Cursor(s)]
  {
    if s != [] && s[|s| - 1] == NL {
      CursorIs(s, |s|);
      assert s[..|s|] == s;
    } else {
      assert s[..0] == [];
    }
  }

  /** On text that ends in a newline, splitlines() gives exactly the complete lines. */
  lemma {:induction false} SplitLinesOfWhole(s: Bytes)
    requires s == [] || s[|s| - 1] == NL
    ensures SplitLines(s) == CompleteLines(s)
    decreases |s|
  {
    var i := FirstNewline(s);
    if i < |s| {
      SplitLinesOfWhole(s[i + 1..]);
    }
  }

  lemma LastNOfConcat(a: seq<Line>, b: seq<Line>, n: nat)
    requires |b| >= n
    ensures LastN(a + b, n) == LastN(b, n)
  {
  }

  /** The last n lines of a suffix holding more than n newlines are those of the whole file. */
  lemma SuffixLines(head: Bytes, data: Bytes, n: nat)
    requires n >= 1 && CountNewlines(data) > n
    ensures LastN(CompleteLines(data), n) == LastN(CompleteLines(head + data), n)
  {
    hide CompleteLines, NewlineFrom, BoundaryUpTo, CountNewlines;
    CountIsLineCount(data);
    NoNewlineNoLine(data);
    var i := FirstNewline(data);
    var line, rest := data[..i + 1], data[i + 1..];
    assert data == line + rest && head + data == (head + line) + rest;
    FirstLine(data, i);
    LinesConcat(line, rest);
    LinesConcat(head + line, rest);
    LastNOfConcat(CompleteLines(line), CompleteLines(rest), n);
    LastNOfConcat(CompleteLines(head + line), CompleteLines(rest), n);
  }

  lemma TailLinesOf(data: Bytes, n: nat)
    ensures LastN(SplitLines(data[..Cursor(data)]), n) == LastN(CompleteLines(data), n)
  {
    SplitLinesOfWhole(data[..Cursor(data)]);
    LinesUpToCursor(data);
  }

  /** For any file and n >= 1, and any block the backward reader may return, the tail is exactly the
      last min(n, count) complete lines and the cursor is just past the file's last newline. */
  lemma TailIsExact(file: Bytes, n: nat, b: Block)
    requires n >= 1 && IsTailBlock(file, n, b)
    ensures TailWithCursor(b, n) == Tail(LastN(CompleteLines(file), n), Cursor(file))
  {
    hide CompleteLines, Cursor, CountNewlines, SplitLines;
    if b.size == 0 {
      assert file == [];
      NoLines();
      LinesUpToCursor(file);
    } else {
      TrimIsCursor(b.data);
      TailLinesOf(b.data, n);
      SuffixCursor(file, b.pos);
      if b.pos == 0 {
        assert b.data == file;
      } else {
        assert file == file[..b.pos] + b.data;
        SuffixLines(file[..b.pos], b.data, n);
        CountIsLineCount(b.data);
        NoNewlineNoLine(b.data);
      }
    }
  }

  /** Block reading and tail extraction together, for every block size. */
  method TailLines(file: Option<Bytes>, n: nat, block: nat) returns (t: Tail)
    requires n >= 1 && block > 0
    ensures file.None? ==> t == Tail([], 0)
    ensures file.Some? ==> t == Tail(LastN(CompleteLines(file.value), n), Cursor(file.value))
  {
    var b := ReadTailBlock(file, n, block);
    t := TailWithCursor(b, n);
    if file.Some? {
      TailIsExact(file.value, n, b);
    }
  }

  lemma OneLine(line: Bytes)
    requires Plain(line, 0, |line|)
    ensures CompleteLines(line + [NL]) == [line]
  {
    var s := line + [NL];
    FirstNewlineIs(s, |line|);
    assert s[..|line|] == line && s[|line| + 1..] == [];
  }

  /** split("\n") leaves the lines the text would have if it ended in a newline. */
  lemma {:induction false} SplitIsLines(head: Bytes)
    ensures Split(head) == CompleteLines(head + [NL])
    decreases |head|
  {
    hide CompleteLines, NewlineFrom;
    var i, s := FirstNewline(head), head + [NL];
    if i == |head| {
      OneLine(head);
    } else {
      FirstLine(s, i);
      assert s[..i] == head[..i] && s[i + 1..] == head[i + 1..] + [NL];
      SplitIsLines(head[i + 1..]);
    }
  }

  lemma SplitDropsTheBreak(chunk: Bytes)
    requires Cursor(chunk) > 0
    ensures Split(chunk[..Cursor(chunk) - 1]) == CompleteLines(chunk)
  {
    hide CompleteLines, NewlineFrom, BoundaryUpTo, Split;
    var c := Cursor(chunk);
    SplitIsLines(chunk[..c - 1]);
    LinesUpToCursor(chunk);
    assert chunk[..c - 1] + [NL] == chunk[..c];
  }

  /** The delta from a line boundary is the complete lines after it, capped to the newest n; the new
      cursor is the boundary after the last of them. */
  lemma DeltaIsExact(file: Bytes, start: nat, end: nat, n: nat)
    requires start <= end <= |file|
    ensures ReadLogRange(Some(file), start, end, n)
            == Tail(LastN(CompleteLines(file[start..end]), n), start + Cursor(file[start..end]))
  {
    var chunk := file[start..end];
    NoNewlineNoLine(chunk);
    if Cursor(chunk) > 0 {
      SplitDropsTheBreak(chunk);
    }
  }

  // ------------------------------------------------------------- /api/logs, unfiltered

  datatype Response = Response(lines: seq<Line>, offset: nat, reset: bool)

  function ClampLines(n: int): (r: nat)
    ensures n < 1 ==> r == 1
    ensures 1 <= n <= 1000 ==> r == n
    ensures n > 1000 ==> r == 1000
  {
    Max(1, Min(n, MAX_LINES))
  }

  /** One unfiltered request. `stat` is the size seen up front (None: the call failed) and `file` the
      contents seen by the read that follows; the log may have grown in between. */
  method ApiLogs(stat: Option<nat>, file: Option<Bytes>, since: Option<int>, lines: int, block: nat)
    returns (r: Response)
    requires block > 0
    requires stat.Some? && file.Some? ==> stat.value <= |file.value|
    ensures r == LogsReply(stat, file, since, lines)
  {
    var n := ClampLines(lines);
    var size := if stat.Some? then stat.value else 0;
    if since.None? || since.value < 0 || since.value > size {
      var t := TailLines(file, n, block);
      return Response(t.lines, t.cursor, true);
    }
    if since.value >= size {
      return Response([], since.value, false);
    }
    var t := ReadLogRange(file, since.value, size, n);
    if file.Some? {
      DeltaIsExact(file.value, since.value, size, n);
    }
    return Response(t.lines, t.cursor, false);
  }

  /** The reply stated on the whole file. */
  function LogsReply(stat: Option<nat>, file: Option<Bytes>, since: Option<int>, lines: int): Response
    requires stat.Some? && file.Some? ==> stat.value <= |file.value|
  {
    var n := ClampLines(lines);
    var size := if stat.Some? then stat.value else 0;
    if since.None? || since.value < 0 || since.value > size then
      if file.None? then Response([], 0, true)
      else Response(LastN(CompleteLines(file.value), n), Cursor(file.value), true)
    else if since.value >= size || file.None? then Response([], since.value, false)
    else
      var chunk := file.value[since.value..size];
      Response(LastN(CompleteLines(chunk), n), since.value + Cursor(chunk), false)
  }

  /** Without a cursor, with a negative one or one past the end, the reply is the newest lines of the file, as
      many as asked for, at least one and at most 1000; with one at the end it is empty. */
  lemma UnusableCursorGivesTail(size: nat, file: Bytes, since: Option<int>, lines: int)
    requires size <= |file|
    ensures since.None? || since.value < 0 || since.value > size ==>
              LogsReply(Some(size), Some(file), since, lines)
              == Response(LastN(CompleteLines(file), if lines < 1 then 1 else if lines > 1000 then 1000 else lines),
                          Cursor(file), true)
    ensures since == Some(size as int) ==> LogsReply(Some(size), Some(file), since, lines) == Response([], size, false)
  {
  }

  // ------------------------------------------------------------- client

  datatype View = View(rows: seq<Line>, offset: Option<nat>)  // rows newest first

  function Apply(v: View, r: Response): View {
    if r.reset then View(Reverse(r.lines), Some(r.offset))
    else if r.lines == [] then v.(offset := Some(r.offset))
    else
      var rows := Reverse(r.lines) + v.rows;
      View(rows[..Min(|rows|, MAX_LINES)], Some(r.offset))
  }

  class LogPane {
    var rows: seq<Line>
    var logOffset: Option<nat>

    ghost function Abs(): View
      reads this
    {
      View(rows, logOffset)
    }

    constructor ()
      ensures Abs() == View([], None)
    {
      rows, logOffset := [], None;
    }

    /** The response handler of loadAppLog, with the routine-HTTP filter off. */
    method Receive(r: Response)
      modifies this
      ensures Abs() == Apply(old(Abs()), r)
    {
      hide Reverse;
      logOffset := Some(r.offset);
      if r.reset {
        rows := [];
        var i := |r.lines|;
        while i > 0
          invariant 0 <= i <= |r.lines|
          invariant rows == Reverse(r.lines[i..])
          invariant logOffset == Some(r.offset)
        {
          i := i - 1;
          ReverseSnoc(r.lines[i], r.lines[i + 1..]);
          assert r.lines[i..] == [r.lines[i]] + r.lines[i + 1..];
          rows := rows + [r.lines[i]];
        }
        return;
      }
      if |r.lines| == 0 {
        return;
      }
      var j := 0;
      while j < |r.lines|
        invariant 0 <= j <= |r.lines|
        invariant rows == Reverse(r.lines[..j]) + old(rows)
        invariant logOffset == Some(r.offset)
      {
        ReverseAppend(r.lines[..j], r.lines[j]);
        assert r.lines[..j + 1] == r.lines[..j] + [r.lines[j]];
        rows := [r.lines[j]] + rows;
        j := j + 1;
      }
      assert r.lines[..j] == r.lines;
      ghost var all := rows;
      while |rows| > MAX_LINES
        invariant |rows| <= |all| && rows == all[..|rows|] && (|rows| >= MAX_LINES || rows == all)
        invariant logOffset == Some(r.offset)
        decreases |rows|
      {
        rows := rows[..|rows| - 1];
      }
    }
  }

  lemma ReverseAppend(s: seq<Line>, x: Line)
    ensures Reverse(s + [x]) == [x] + Reverse(s)
  {
  }

  lemma ReverseSnoc(x: Line, s: seq<Line>)
    ensures Reverse([x] + s) == Reverse(s) + [x]
  {
    assert ([x] + s)[1..] == s;
  }

  // ------------------------------------------------------------- the protocol

  /** The view shows exactly the newest MAX_LINES complete lines up to its cursor, newest first. */
  ghost predicate Exact(v: View, file: Bytes) {
    v.offset.Some? ==>
      Boundary(file, v.offset.value)
      && v.rows == Reverse(LastN(CompleteLines(file[..v.offset.value]), MAX_LINES))
  }

  lemma ReverseOfLast(earlier: seq<Line>, newer: seq<Line>, n: nat)
    ensures var rows := Reverse(LastN(newer, n)) + Reverse(LastN(earlier, n));
            rows[..Min(|rows|, n)] == Reverse(LastN(earlier + newer, n))
  {
    var rows := Reverse(LastN(newer, n)) + Reverse(LastN(earlier, n));
    var all := earlier + newer;
    var want := Reverse(LastN(all, n));
    assert |want| == Min(|rows|, n);
    forall i | 0 <= i < |want|
      ensures rows[i] == want[i]
    {
      assert want[i] == all[|all| - 1 - i];
    }
  }

  /** One poll: the log's contents when it is read, the size seen just before (None: stat failed),
      and whether the read succeeds. */
  datatype Poll = Poll(file: Bytes, stat: Option<nat>, readable: bool)

  function Reply(p: Poll, since: Option<nat>): Response
    requires p.stat.Some? ==> p.stat.value <= |p.file|
  {
    LogsReply(p.stat, if p.readable then Some(p.file) else None,
              if since.Some? then Some(since.value) else None, MAX_LINES)
  }

  function AfterPoll(v: View, p: Poll): View
    requires p.stat.Some? ==> p.stat.value <= |p.file|
  {
    Apply(v, Reply(p, v.offset))
  }

  lemma PrefixLines(file: Bytes, grown: Bytes, c: nat)
    requires file <= grown && Boundary(file, c)
    ensures Boundary(grown, c) && grown[..c] == file[..c]
  {
  }

  lemma DeltaExtends(file: Bytes, c: nat, size: nat)
    requires c <= size <= |file| && Boundary(file, c)
    ensures var next := c + Cursor(file[c..size]);
            next <= |file| && Boundary(file, next)
            && CompleteLines(file[..next]) == CompleteLines(file[..c]) + CompleteLines(file[c..size])
  {
    hide CompleteLines, Cursor, FirstNewline;
    var chunk := file[c..size];
    var k := Cursor(chunk);
    LinesUpToCursor(chunk);
    assert file[..c + k] == file[..c] + chunk[..k];
    LinesConcat(file[..c], chunk[..k]);
    if k > 0 {
      assert file[c + k - 1] == chunk[k - 1];
    }
  }

  lemma DeltaKeepsExact(v: View, file: Bytes, size: nat)
    requires v.offset.Some? && Exact(v, file) && v.offset.value < size <= |file|
    ensures var v' := Apply(v, LogsReply(Some(size), Some(file), Some(v.offset.value), MAX_LINES));
            v'.offset == Some(v.offset.value + Cursor(file[v.offset.value..size])) && Exact(v', file)
  {
    hide CompleteLines, Cursor, FirstNewline;
    var c := v.offset.value;
    var chunk := file[c..size];
    DeltaExtends(file, c, size);
    ReverseOfLast(CompleteLines(file[..c]), CompleteLines(chunk), MAX_LINES);
    if LastN(CompleteLines(chunk), MAX_LINES) == [] {
      assert CompleteLines(chunk) == [];
      NoNewlineNoLine(chunk);
    }
  }

  /** A full tail, asked for with any cursor, makes any view exact. */
  lemma ResetIsExact(v: View, p: Poll, since: Option<nat>)
    requires (p.stat.Some? ==> p.stat.value <= |p.file|) && Reply(p, since).reset
    ensures var v' := Apply(v, Reply(p, since));
            Exact(v', p.file) && v'.offset == Some(if p.readable then Cursor(p.file) else 0)
  {
    LinesUpToCursor(p.file);
    assert p.file[..0] == [];
    assert CompleteLines([]) == [];
  }

  lemma SuffixEnd(file: Bytes, c: nat)
    requires Boundary(file, c)
    ensures c + Cursor(file[c..]) == Cursor(file)
  {
    SuffixCursor(file, c);
    if Cursor(file[c..]) == 0 {
      assert forall j :: c <= j < |file| ==> file[j] == file[c..][j - c];
      CursorIs(file, c);
    }
  }

  /** Every poll of a growing log leaves the view exact, whatever fails; and a poll that sees the
      whole file leaves no complete line out. */
  lemma PollKeepsExact(v: View, file: Bytes, p: Poll)
    requires Exact(v, file) && file <= p.file
    requires p.stat.Some? ==> p.stat.value <= |p.file|
    ensures var v' := AfterPoll(v, p);
            && v'.offset.Some? && Exact(v', p.file)
            && (p.readable && p.stat == Some(|p.file|) ==> v'.offset.value == Cursor(p.file))
  {
    hide CompleteLines, Cursor, FirstNewline;
    var g := p.file;
    var size := if p.stat.Some? then p.stat.value else 0;
    if Reply(p, v.offset).reset {
      ResetIsExact(v, p, v.offset);
    } else {
      var c := v.offset.value;
      PrefixLines(file, g, c);
      assert Exact(v, g);
      if c < size && p.readable {
        DeltaKeepsExact(v, g, size);
      }
      SuffixEnd(g, c);
      if size == |g| {
        assert g[c..size] == g[c..];
      }
    }
  }

  /** The polls of an append-only log: each sees an extension of what the one before saw. */
  ghost predicate Growing(file: Bytes, ps: seq<Poll>)
    decreases |ps|
  {
    ps != [] ==>
      && file <= ps[0].file
      && (ps[0].stat.Some? ==> ps[0].stat.value <= |ps[0].file|)
      && Growing(ps[0].file, ps[1..])
  }

  ghost function AfterPolls(v: View, file: Bytes, ps: seq<Poll>): (View, Bytes)
    requires Growing(file, ps)
    decreases |ps|
  {
    if ps == [] then (v, file) else AfterPolls(AfterPoll(v, ps[0]), ps[0].file, ps[1..])
  }

  /** After any number of unfiltered polls the rows are exactly the newest 1000 complete lines up to
      the cursor, each once and whole, however much arrived in between. */
  lemma {:induction false} FeedIsExact(v: View, file: Bytes, ps: seq<Poll>)
    requires Exact(v, file) && Growing(file, ps)
    ensures var (v', file') := AfterPolls(v, file, ps); Exact(v', file')
    decreases |ps|
  {
    if ps != [] {
      PollKeepsExact(v, file, ps[0]);
      FeedIsExact(AfterPoll(v, ps[0]), ps[0].file, ps[1..]);
    }
  }

  // ------------------------------------------------------------- stale cursors
  // loadAppLog puts the cursor into the path when it is called. A call made while an earlier request
  // is still in flight is therefore queued with the cursor of before that request's answer.

  lemma ReverseInjective(x: seq<Line>, y: seq<Line>)
    requires Reverse(x) == Reverse(y)
    ensures x == y
  {
    assert |x| == |y|;
    forall i | 0 <= i < |x|
      ensures x[i] == y[i]
    {
      assert Reverse(x)[|x| - 1 - i] == x[i] && Reverse(y)[|x| - 1 - i] == y[i];
    }
  }

  lemma LastOfJoin(a: seq<Line>, b: seq<Line>, n: nat)
    ensures |LastN(b, n)| <= n && LastN(a + b, n) == LastN(a, n - |LastN(b, n)|) + LastN(b, n)
  {
  }

  /** Rows left when a delta that follows the lines `behind` is put on top of the lines `shown`. */
  lemma StaleRows(shown: seq<Line>, behind: seq<Line>, delta: seq<Line>, n: nat)
    ensures var rows, k := Reverse(LastN(delta, n)) + Reverse(LastN(shown, n)), n - |LastN(delta, n)|;
            && k >= 0
            && (rows[..Min(|rows|, n)] == Reverse(LastN(behind + delta, n)) <==> LastN(shown, k) == LastN(behind, k))
  {
    hide Reverse, LastN;
    var d := LastN(delta, n);
    ReverseOfLast(shown, delta, n);
    LastOfJoin(shown, delta, n);
    LastOfJoin(behind, delta, n);
    var k := n - |d|;
    var x, y := LastN(shown, k), LastN(behind, k);
    if Reverse(x + d) == Reverse(y + d) {
      ReverseInjective(x + d, y + d);
      assert |x + d| == |y + d|;
      assert x == (x + d)[..|x|] && y == (y + d)[..|y|];
    }
  }

  /** The lines a delta from `since` brings before they are capped. */
  function Brought(p: Poll, since: nat): seq<Line>
    requires p.stat.Some? ==> p.stat.value <= |p.file|
  {
    if p.readable && p.stat.Some? && since < p.stat.value then CompleteLines(p.file[since..p.stat.value]) else []
  }

  /** Every reply but a full tail continues the lines before the cursor it was asked with. */
  lemma ReplyContinues(p: Poll, since: nat)
    requires (p.stat.Some? ==> p.stat.value <= |p.file|) && Boundary(p.file, since)
    ensures var r := Reply(p, Some(since));
            !r.reset ==>
              && r.lines == LastN(Brought(p, since), MAX_LINES)
              && Boundary(p.file, r.offset)
              && CompleteLines(p.file[..r.offset]) == CompleteLines(p.file[..since]) + Brought(p, since)
  {
    hide CompleteLines, Cursor, FirstNewline;
    var none: seq<Line> := [];
    assert LastN(none, MAX_LINES) == none;
    assert CompleteLines(p.file[..since]) + none == CompleteLines(p.file[..since]);
    if p.readable && p.stat.Some? && since < p.stat.value {
      DeltaExtends(p.file, since, p.stat.value);
    }
  }

  /** Below the newest k rows that a reply to `since` fills, the panel already holds the right lines. */
  predicate SameBelow(file: Bytes, shown: nat, since: nat, k: nat)
    requires shown <= |file| && since <= |file|
  {
    LastN(CompleteLines(file[..shown]), k) == LastN(CompleteLines(file[..since]), k)
  }

  /** A reply that keeps an exact view exact: a full tail, or one that leaves room for k older rows and
      finds the right ones there. */
  predicate Fits(v: View, p: Poll, since: Option<nat>)
    requires p.stat.Some? ==> p.stat.value <= |p.file|
    requires since.Some? ==> v.offset.Some? && v.offset.value <= |p.file| && since.value <= |p.file|
  {
    var r := Reply(p, since);
    r.reset || (since.Some? && |r.lines| <= MAX_LINES
                && SameBelow(p.file, v.offset.value, since.value, MAX_LINES - |r.lines|))
  }

  /** The view as it would be after putting rows on top, in one formula. */
  lemma ApplyOnTop(v: View, r: Response)
    requires !r.reset && |v.rows| <= MAX_LINES
    ensures var rows := Reverse(r.lines) + v.rows; Apply(v, r) == View(rows[..Min(|rows|, MAX_LINES)], Some(r.offset))
  {
    if r.lines == [] {
      assert Reverse(r.lines) + v.rows == v.rows;
    }
  }

  /** Any reply to any cursor, older or not, whatever of stat and read has failed, leaves an exact view
      exact if and only if it fits. */
  lemma StaleCursorExactly(v: View, p: Poll, since: nat)
    requires v.offset.Some? && Exact(v, p.file) && Boundary(p.file, since)
    requires p.stat.Some? ==> p.stat.value <= |p.file|
    ensures Exact(Apply(v, Reply(p, Some(since))), p.file) <==> Fits(v, p, Some(since))
  {
    hide CompleteLines, Cursor, FirstNewline, Reverse, LogsReply, Apply, LastN;
    var r := Reply(p, Some(since));
    if r.reset {
      ResetIsExact(v, p, Some(since));
    } else {
      ReplyContinues(p, since);
      var shown, behind := CompleteLines(p.file[..v.offset.value]), CompleteLines(p.file[..since]);
      var delta := Brought(p, since);
      StaleRows(shown, behind, delta, MAX_LINES);
      LastOfJoin([], shown, MAX_LINES);
      ApplyOnTop(v, r);
    }
  }

  /** In terms a caller can look at: with unequal newest lines before the two cursors (time-stamped lines
      mostly are), the view stays exact if and only if the reply is a full tail, the cursors agree, or
      the delta alone fills the panel. A failed read or a reply with nothing new is no exception: it
      moves the cursor back. */
  lemma StaleCursorPlainly(v: View, p: Poll, since: nat)
    requires v.offset.Some? && Exact(v, p.file) && Boundary(p.file, since)
    requires p.stat.Some? ==> p.stat.value <= |p.file|
    ensures var r := Reply(p, Some(since));
            var shown, behind := CompleteLines(p.file[..v.offset.value]), CompleteLines(p.file[..since]);
            var simple := r.reset || since == v.offset.value || |r.lines| == MAX_LINES;
            && (simple ==> Exact(Apply(v, r), p.file))
            && (shown == [] || behind == [] || shown[|shown| - 1] != behind[|behind| - 1] ==>
                  (Exact(Apply(v, r), p.file) <==> simple))
  {
    hide CompleteLines, Cursor, FirstNewline, Reverse, Reply, Apply, LastN, Brought;
    StaleCursorExactly(v, p, since);
    var r, c := Reply(p, Some(since)), v.offset.value;
    if !r.reset {
      ReplyContinues(p, since);
      LastOfJoin([], Brought(p, since), MAX_LINES);
      var shown, behind, k := CompleteLines(p.file[..c]), CompleteLines(p.file[..since]), MAX_LINES - |r.lines|;
      if k == 0 {
        LastOfNone(shown);
        LastOfNone(behind);
      } else if since != c {
        CountsDiffer(p.file, since, c);
        if shown == [] || behind == [] || shown[|shown| - 1] != behind[|behind| - 1] {
          EndsDiffer(shown, behind, k);
        }
      }
    }
  }

  lemma LastOfNone(s: seq<Line>)
    ensures LastN(s, 0) == []
  {
  }

  lemma EndsDiffer(a: seq<Line>, b: seq<Line>, k: nat)
    requires k > 0 && |a| != |b| && (a == [] || b == [] || a[|a| - 1] != b[|b| - 1])
    ensures LastN(a, k) != LastN(b, k)
  {
    var x, y := LastN(a, k), LastN(b, k);
    assert a != [] ==> x[|x| - 1] == a[|a| - 1];
    assert b != [] ==> y[|y| - 1] == b[|b| - 1];
  }

  lemma CountsDiffer(file: Bytes, since: nat, c: nat)
    requires Boundary(file, since) && Boundary(file, c) && since != c
    ensures |CompleteLines(file[..since])| != |CompleteLines(file[..c])|
  {
    hide CompleteLines;
    if since < c {
      StaleParts(file, since, c);
    } else {
      StaleParts(file, c, since);
    }
  }

  lemma LinesAcross(file: Bytes, a: nat, b: nat, c: nat)
    requires a <= b <= c <= |file| && Boundary(file, b)
    ensures CompleteLines(file[a..c]) == CompleteLines(file[a..b]) + CompleteLines(file[b..c])
  {
    hide CompleteLines;
    var p := file[a..b];
    assert p != [] ==> p[|p| - 1] == file[b - 1];
    assert file[a..c] == p + file[b..c];
    LinesConcat(p, file[b..c]);
  }

  lemma NoLinesBetween(file: Bytes, a: nat, b: nat)
    requires a <= b && Boundary(file, b)
    ensures CompleteLines(file[a..b]) == [] <==> a == b
  {
    hide CompleteLines, BoundaryUpTo;
    var p := file[a..b];
    assert p != [] ==> p[|p| - 1] == file[b - 1];
    NoNewlineNoLine(p);
  }

  lemma StaleParts(file: Bytes, since: nat, c: nat)
    requires Boundary(file, since) && Boundary(file, c) && since <= c
    ensures CompleteLines(file)
            == CompleteLines(file[..since]) + CompleteLines(file[since..c]) + CompleteLines(file[c..])
    ensures CompleteLines(file[since..]) == CompleteLines(file[since..c]) + CompleteLines(file[c..])
    ensures CompleteLines(file[..c]) == CompleteLines(file[..since]) + CompleteLines(file[since..c])
    ensures CompleteLines(file[since..c]) == [] <==> since == c
  {
    hide CompleteLines;
    assert file[0..since] == file[..since] && file[0..c] == file[..c] && file[0..|file|] == file;
    assert file[since..|file|] == file[since..] && file[c..|file|] == file[c..];
    LinesAcross(file, 0, since, c);
    LinesAcross(file, since, c, |file|);
    LinesAcross(file, 0, c, |file|);
    NoLinesBetween(file, since, c);
  }

  /** The smallest such run: one line is shown, then shown again by the queued stale poll. */
  lemma StaleCursorDuplicates()
    ensures var file: Bytes := [65, NL];
            var poll := Poll(file, Some(2), true);
            var first := Apply(View([], Some(0)), Reply(poll, Some(0)));
            && first.rows == [[65]]
            && Apply(first, Reply(poll, Some(0))).rows == [[65], [65]]
  {
    var file: Bytes := [65, NL];
    assert file[0..2] == file;
    FirstNewlineIs(file, 1);
    assert file[..1] == [65] && file[2..] == [];
    assert CompleteLines([]) == [];
    assert CompleteLines(file) == [[65]];
  }

  /** A stale request whose read fails brings nothing and takes the cursor back. */
  lemma StaleFailureMovesBack(v: View, p: Poll, since: nat)
    requires p.stat.Some? && since <= p.stat.value <= |p.file| && !p.readable
    ensures Apply(v, Reply(p, Some(since))) == v.(offset := Some(since))
  {
  }

  // ------------------------------------------------------------- every interleaving of calls and answers

  /** The panel behind the poll queue: at most one log request in flight and at most one waiting, each
      with the cursor put into its path when it was called (None: no cursor yet). */
  datatype Feed = Feed(view: View, file: Bytes, asked: Option<Option<nat>>, queued: Option<Option<nat>>)

  datatype FeedAction =
    | Call                          // loadAppLog: queued, or coalesced into the waiting request with the newer path
    | Send                          // the queue dispatches the waiting request, any time later
    | Answer(poll: Option<Poll>)    // its answer arrives; None: it failed or was aborted

  ghost predicate CanDo(s: Feed, a: FeedAction) {
    match a
    case Call => true
    case Send => s.asked.None? && s.queued.Some?
    case Answer(poll) =>
      s.asked.Some? && (poll.Some? ==> s.file <= poll.value.file
                                       && (poll.value.stat.Some? ==> poll.value.stat.value <= |poll.value.file|))
  }

  function Do(s: Feed, a: FeedAction): Feed
    requires a.Send? ==> s.queued.Some?
    requires a.Answer? ==> s.asked.Some?
    requires a.Answer? && a.poll.Some? && a.poll.value.stat.Some? ==> a.poll.value.stat.value <= |a.poll.value.file|
  {
    match a
    case Call => s.(queued := Some(s.view.offset))
    case Send => s.(asked := s.queued, queued := None)
    case Answer(poll) =>
      if poll.None? then s.(asked := None)
      else Feed(Apply(s.view, Reply(poll.value, s.asked.value)), poll.value.file, None, s.queued)
  }

  ghost predicate CanRun(s: Feed, acts: seq<FeedAction>)
    decreases |acts|
  {
    acts != [] ==> CanDo(s, acts[0]) && CanRun(Do(s, acts[0]), acts[1..])
  }

  ghost predicate CursorKnown(s: Feed, cursor: Option<Option<nat>>) {
    cursor.Some? && cursor.value.Some? ==> s.view.offset.Some? && Boundary(s.file, cursor.value.value)
  }

  /** Every cursor about is the start of some line. */
  ghost predicate FeedInv(s: Feed) {
    && (s.view.offset.Some? ==> Boundary(s.file, s.view.offset.value))
    && CursorKnown(s, s.asked) && CursorKnown(s, s.queued)
  }

  lemma DoKeepsInv(s: Feed, a: FeedAction)
    requires FeedInv(s) && CanDo(s, a)
    ensures FeedInv(Do(s, a))
  {
    hide CompleteLines, Cursor, FirstNewline, Reverse, LastN;
    if a.Answer? && a.poll.Some? {
      var p, since := a.poll.value, s.asked.value;
      if Reply(p, since).reset {
        ResetIsExact(s.view, p, since);
      } else {
        ReplyContinues(p, since.value);
      }
    }
  }

  ghost predicate AlwaysExact(s: Feed, acts: seq<FeedAction>)
    requires CanRun(s, acts)
    decreases |acts|
  {
    Exact(s.view, s.file) && (acts != [] ==> AlwaysExact(Do(s, acts[0]), acts[1..]))
  }

  /** Every answer of the run fits the view it arrives at. */
  ghost predicate AlwaysFits(s: Feed, acts: seq<FeedAction>)
    requires FeedInv(s) && CanRun(s, acts)
    decreases |acts|
  {
    acts != [] ==>
      && (acts[0].Answer? && acts[0].poll.Some? ==> Fits(s.view, acts[0].poll.value, s.asked.value))
      && (DoKeepsInv(s, acts[0]); AlwaysFits(Do(s, acts[0]), acts[1..]))
  }

  lemma AnswerExactly(s: Feed, a: FeedAction)
    requires FeedInv(s) && CanDo(s, a) && Exact(s.view, s.file)
    ensures Exact(Do(s, a).view, Do(s, a).file) <==>
            (a.Answer? && a.poll.Some? ==> Fits(s.view, a.poll.value, s.asked.value))
  {
    hide CompleteLines, Cursor, FirstNewline, Reverse, LastN, Reply, Apply, SameBelow;
    if a.Answer? && a.poll.Some? {
      var p, since := a.poll.value, s.asked.value;
      if s.view.offset.Some? {
        PrefixLines(s.file, p.file, s.view.offset.value);
      }
      if since.Some? {
        StaleCursorExactly(s.view, p, since.value);
      } else {
        assert Reply(p, since).reset by { NoCursorNoDelta(p); }
        ResetIsExact(s.view, p, since);
      }
    }
  }

  lemma NoCursorNoDelta(p: Poll)
    requires p.stat.Some? ==> p.stat.value <= |p.file|
    ensures Reply(p, None).reset
  {
  }

  /** Over every interleaving of calls, dispatches and answers, whatever fails and whatever is appended
      in between, the view is exact throughout if and only if every answer fits. */
  lemma {:induction false} FeedIsExactExactly(s: Feed, acts: seq<FeedAction>)
    requires FeedInv(s) && CanRun(s, acts) && Exact(s.view, s.file)
    ensures AlwaysExact(s, acts) <==> AlwaysFits(s, acts)
    decreases |acts|
  {
    hide Exact, Fits, Do, FeedInv;
    if acts != [] {
      AnswerExactly(s, acts[0]);
      DoKeepsInv(s, acts[0]);
      var t := Do(s, acts[0]);
      if Exact(t.view, t.file) {
        FeedIsExactExactly(t, acts[1..]);
      }
    }
  }

  /** The smallest run that shows a line twice: the log is empty and known to be; it grows by one line, and
      loadAppLog is called again while its request for that line is still in flight. */
  lemma StaleRunDuplicates()
    ensures var file: Bytes := [65, NL];
            var answer := Answer(Some(Poll(file, Some(2), true)));
            var s := Feed(View([], Some(0)), [], None, None);
            var acts := [Call, Send, Call, answer, Send, answer];
            && FeedInv(s) && Exact(s.view, s.file) && CanRun(s, acts)
            && !AlwaysExact(s, acts) && !CallsApart(s, acts)
            && Do(Do(Do(Do(Do(Do(s, Call), Send), Call), answer), Send), answer).view.rows == [[65], [65]]
  {
    hide CompleteLines, Cursor, FirstNewline, Reply, Apply;
    var file: Bytes := [65, NL];
    var answer := Answer(Some(Poll(file, Some(2), true)));
    var s := Feed(View([], Some(0)), [], None, None);
    assert file[..0] == [] && s.file <= file;
    NoLines();
    StaleCursorDuplicates();
    var first := Apply(View([], Some(0)), Reply(Poll(file, Some(2), true), Some(0)));
    var second := Apply(first, Reply(Poll(file, Some(2), true), Some(0)));
    var s3 := Feed(View([], Some(0)), [], Some(Some(0)), Some(Some(0)));
    var s5 := Feed(first, file, Some(Some(0)), None);
    var s6 := Feed(second, file, None, None);
    assert CanRun(s6, []);
    assert [answer][1..] == [];
    assert CanRun(s5, [answer]);
    assert [answer, Send, answer][1..][1..] == [answer];
    assert [answer, Send, answer][1..] == [Send, answer] && [Send, answer][1..] == [answer];
    assert CanRun(s3, [answer, Send, answer]);
    var s1, s2 := s.(queued := Some(Some(0))), s.(asked := Some(Some(0)));
    assert Do(s, Call) == s1 && Do(s1, Send) == s2 && Do(s2, Call) == s3;
    var r3 := [Call, answer, Send, answer];
    var r4 := [Send, Call, answer, Send, answer];
    assert r3[1..] == [answer, Send, answer] && r4[1..] == r3 && [Call, Send, Call, answer, Send, answer][1..] == r4;
    assert CanRun(s2, r3);
    assert CanRun(s1, r4);
    ApplySetsOffset(first, Reply(Poll(file, Some(2), true), Some(0)));
    TooManyRows(second, file);
    assert !AlwaysExact(s6, []);
    assert !AlwaysExact(s5, [answer]);
    assert !AlwaysExact(s3, [answer, Send, answer]);
    assert !AlwaysExact(s2, r3) && !CallsApart(s2, r3);
    assert !AlwaysExact(s1, r4) && !CallsApart(s1, r4);
  }

  lemma ApplySetsOffset(v: View, r: Response)
    ensures Apply(v, r).offset == Some(r.offset)
  {
  }

  lemma TooManyRows(v: View, file: Bytes)
    requires v.rows == [[65], [65]] && file == [65, NL]
    requires v.offset.Some?
    ensures !Exact(v, file)
  {
    if Exact(v, file) {
      var c := v.offset.value;
      CountIsLineCount(file[..c]);
      assert CountNewlines(file[..c]) <= 1 by { FewNewlines(file[..c]); }
    }
  }

  lemma FewNewlines(s: Bytes)
    requires s <= [65, NL]
    ensures CountNewlines(s) <= 1
  {
    if |s| == 2 {
      assert s[1..][1..] == [];
      assert CountNewlines(s[1..]) <= 1;
    } else if |s| == 1 {
      assert s[1..] == [];
    }
  }

  /** No call is made while a log request is in flight. */
  ghost predicate CallsApart(s: Feed, acts: seq<FeedAction>)
    requires CanRun(s, acts)
    decreases |acts|
  {
    acts != [] ==> (acts[0].Call? ==> s.asked.None?) && CallsApart(Do(s, acts[0]), acts[1..])
  }

  /** Whoever asks or waits has the cursor of the view. */
  ghost predicate Fresh(s: Feed) {
    && (s.asked.Some? ==> s.asked.value == s.view.offset && s.queued.None?)
    && (s.queued.Some? ==> s.queued.value == s.view.offset)
  }

  /** Then the view is exact throughout: the queue alone, with its waits behind other keys, its
      coalescing and its lost requests, never makes a cursor stale. */
  lemma {:induction false} CallsApartStayExact(s: Feed, acts: seq<FeedAction>)
    requires FeedInv(s) && CanRun(s, acts) && Exact(s.view, s.file) && Fresh(s) && CallsApart(s, acts)
    ensures AlwaysExact(s, acts)
    decreases |acts|
  {
    hide Exact, FeedInv, CompleteLines, Cursor, FirstNewline, Reverse, LastN, LogsReply, Apply;
    if acts != [] {
      var a := acts[0];
      DoKeepsInv(s, a);
      if a.Answer? && a.poll.Some? {
        PollKeepsExact(s.view, s.file, a.poll.value);
      }
      CallsApartStayExact(Do(s, a), acts[1..]);
    }
  }

  // ------------------------------------------------------------- the filtered tail

  function Filter(s: seq<Line>, routine: Line -> bool): seq<Line> {
    if s == [] then [] else (if routine(s[0]) then [] else [s[0]]) + Filter(s[1..], routine)
  }

  /** The scanned window, without a leading line that starts before it. */
  function WindowText(file: Bytes, scan: nat): Bytes {
    var start := Max(0, |file| - scan);
    var data := file[start..];
    var nl := FirstNewline(data);
    if start == 0 then data else if nl < |data| then data[nl + 1..] else []
  }

  /** `_tail_meaningful_with_cursor`: scans back at most `scan` bytes. */
  function TailMeaningful(file: Bytes, n: nat, scan: nat, routine: Line -> bool): Tail {
    if file == [] then Tail([], 0)
    else
      var start := Max(0, |file| - scan);
      var lastNl := RFind(file[start..]);
      var cursor := if lastNl >= 0 then start + lastNl + 1 else 0;
      Tail(LastN(Filter(SplitLines(DropPartial(WindowText(file, scan))), routine), n), cursor)
  }

  /** Where the first line that lies wholly in the scanned window starts. */
  function WindowStart(file: Bytes, scan: nat): (b: nat)
    ensures b <= |file|
  {
    if |file| <= scan then 0
    else
      var start := |file| - scan;
      var nl := FirstNewline(file[start..]);
      if nl < scan then start + nl + 1 else |file|
  }

  lemma WindowTextIsSuffix(file: Bytes, scan: nat)
    ensures WindowText(file, scan) == file[WindowStart(file, scan)..]
  {
  }

  ghost predicate Increasing(idx: seq<nat>) {
    forall a, b :: 0 <= a < b < |idx| ==> idx[a] < idx[b]
  }

  /** `lines` are the lines of `w` at these places, in order; they are the newest n that are not routine, or
      all of those that there are. */
  ghost predicate PicksNewest(idx: seq<nat>, lines: seq<Line>, w: seq<Line>, n: nat, routine: Line -> bool) {
    && Increasing(idx) && |lines| == |idx|
    && (forall a :: 0 <= a < |idx| ==> idx[a] < |w| && lines[a] == w[idx[a]] && !routine(w[idx[a]]))
    && (forall k: nat :: k < |w| && !routine(w[k]) && (|idx| < n || (|idx| > 0 && idx[0] <= k)) ==> k in idx)
    && |idx| <= n
  }

  /** The places from i on of the lines that are kept. */
  ghost function KeptPlaces(w: seq<Line>, routine: Line -> bool, i: nat): (p: seq<nat>)
    requires i <= |w|
    ensures forall a :: 0 <= a < |p| ==> i <= p[a] < |w| && !routine(w[p[a]])
    decreases |w| - i
  {
    if i == |w| then [] else (if routine(w[i]) then [] else [i]) + KeptPlaces(w, routine, i + 1)
  }

  lemma {:induction false} KeptInOrder(w: seq<Line>, routine: Line -> bool, i: nat)
    requires i <= |w|
    ensures Increasing(KeptPlaces(w, routine, i))
    decreases |w| - i
  {
    if i < |w| { KeptInOrder(w, routine, i + 1); }
  }

  lemma {:induction false} KeptAll(w: seq<Line>, routine: Line -> bool, i: nat, k: nat)
    requires i <= k < |w| && !routine(w[k])
    ensures k in KeptPlaces(w, routine, i)
    decreases k - i
  {
    if i < k { KeptAll(w, routine, i + 1, k); }
  }

  ghost function LinesAt(w: seq<Line>, p: seq<nat>): (lines: seq<Line>)
    requires forall a :: 0 <= a < |p| ==> p[a] < |w|
  {
    seq(|p|, a requires 0 <= a < |p| => w[p[a]])
  }

  lemma {:induction false} FilterIsKept(w: seq<Line>, routine: Line -> bool, i: nat)
    requires i <= |w|
    ensures Filter(w[i..], routine) == LinesAt(w, KeptPlaces(w, routine, i))
    decreases |w| - i
  {
    if i < |w| {
      FilterIsKept(w, routine, i + 1);
      FilterStep(w, routine, i);
      hide Filter;
      var rest := KeptPlaces(w, routine, i + 1);
      assert [] + rest == rest && [] + LinesAt(w, rest) == LinesAt(w, rest);
      LinesAtCons(w, i, rest);
    }
  }

  lemma FilterStep(w: seq<Line>, routine: Line -> bool, i: nat)
    requires i < |w|
    ensures Filter(w[i..], routine) == (if routine(w[i]) then [] else [w[i]]) + Filter(w[i + 1..], routine)
  {
    assert w[i..][1..] == w[i + 1..];
  }

  lemma LinesAtCons(w: seq<Line>, i: nat, rest: seq<nat>)
    requires i < |w| && forall a :: 0 <= a < |rest| ==> rest[a] < |w|
    ensures LinesAt(w, [i] + rest) == [w[i]] + LinesAt(w, rest)
  {
  }

  lemma LastIsNewest(w: seq<Line>, routine: Line -> bool, n: nat) returns (idx: seq<nat>)
    ensures PicksNewest(idx, LastN(Filter(w, routine), n), w, n, routine)
  {
    hide Filter, KeptPlaces;
    KeptInOrder(w, routine, 0);
    FilterIsKept(w, routine, 0);
    assert w[0..] == w;
    var p := KeptPlaces(w, routine, 0);
    var cut := if |p| <= n then 0 else |p| - n;
    idx := p[cut..];
    forall k: nat | k < |w| && !routine(w[k]) && (|idx| < n || (|idx| > 0 && idx[0] <= k))
      ensures k in idx
    {
      KeptAll(w, routine, 0, k);
      NotCut(p, cut, k, n);
    }
  }

  lemma NotCut(p: seq<nat>, cut: nat, k: nat, n: nat)
    requires Increasing(p) && cut <= |p| && k in p && (cut == 0 || (cut < |p| && p[cut] <= k))
    ensures k in p[cut..]
  {
    var a :| 0 <= a < |p| && p[a] == k;
    assert cut <= a;
    assert p[cut..][a - cut] == k;
  }

  /** The filtered tail is the newest n lines of the window that are not routine (all there are, if fewer),
      and those of the whole file when the window covers it. Its cursor is the unfiltered one if and only if
      the window holds the file's last newline (or the file has none): otherwise it falls back to 0. */
  lemma MeaningfulTailIsExact(file: Bytes, n: nat, scan: nat, routine: Line -> bool)
    ensures var t := TailMeaningful(file, n, scan, routine);
            var w := CompleteLines(file[WindowStart(file, scan)..]);
            && (exists idx: seq<nat> :: PicksNewest(idx, t.lines, w, n, routine))
            && (|file| <= scan ==> w == CompleteLines(file))
            && (t.cursor == Cursor(file) <==> Cursor(file) == 0 || Cursor(file) > |file| - scan)
  {
    hide CompleteLines, NewlineFrom, BoundaryUpTo, SplitLines, DropPartial, WindowText, Filter, PicksNewest;
    TailIsFiltered(file, n, scan, routine);
    var idx := LastIsNewest(CompleteLines(file[WindowStart(file, scan)..]), routine, n);
    assert |file| <= scan ==> file[WindowStart(file, scan)..] == file;
    if file != [] {
      SuffixCursor(file, Max(0, |file| - scan));
    }
  }

  lemma TailIsFiltered(file: Bytes, n: nat, scan: nat, routine: Line -> bool)
    ensures TailMeaningful(file, n, scan, routine).lines
            == LastN(Filter(CompleteLines(file[WindowStart(file, scan)..]), routine), n)
  {
    hide CompleteLines, NewlineFrom, BoundaryUpTo, SplitLines, DropPartial, WindowText, Filter;
    NoLines();
    if file != [] {
      WindowTextIsSuffix(file, scan);
      var text := WindowText(file, scan);
      TrimIsCursor(text);
      LinesUpToCursor(text);
      SplitLinesOfWhole(text[..Cursor(text)]);
    } else {
      assert file[WindowStart(file, scan)..] == [];
      FilterNone(routine);
    }
  }

  /** What the view is for: of an event line and a routine poll line, the event is shown. */
  lemma EventIsShown(event: Line, poll: Line, scan: nat, routine: Line -> bool)
    requires Plain(event, 0, |event|) && Plain(poll, 0, |poll|) && !routine(event) && routine(poll)
    requires |event + [NL] + (poll + [NL])| <= scan
    ensures TailMeaningful(event + [NL] + (poll + [NL]), 1000, scan, routine).lines == [event]
  {
    hide CompleteLines, Filter;
    var file := event + [NL] + (poll + [NL]);
    TailIsFiltered(file, 1000, scan, routine);
    assert file[WindowStart(file, scan)..] == file;
    LinesConcat(event + [NL], poll + [NL]);
    OneLine(event);
    OneLine(poll);
    FilterTwo(event, poll, routine);
  }

  lemma FilterTwo(event: Line, poll: Line, routine: Line -> bool)
    requires !routine(event) && routine(poll)
    ensures Filter([event] + [poll], routine) == [event]
  {
    var w := [event] + [poll];
    assert w[1..] == [poll] && [poll][1..] == [];
    assert Filter([poll], routine) == [] && w[0] == event;
  }

  /** A complete line followed by an unfinished one as long as the window: the cursor is 0, not 2. */
  lemma FilteredCursorFallsToZero(n: nat, routine: Line -> bool)
    ensures var file: Bytes := [65, NL, 66, 66];
            TailMeaningful(file, n, 2, routine).cursor == 0 && Cursor(file) == 2
  {
    var file: Bytes := [65, NL, 66, 66];
    assert file[2..] == [66, 66];
    CursorIs(file[2..], 0);
    CursorIs(file, 2);
  }

  lemma FilterNone(routine: Line -> bool)
    ensures Filter([], routine) == []
  {
  }
}
