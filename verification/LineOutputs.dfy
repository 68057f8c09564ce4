/** `lineOutput`: child output logged line by line, within a budget shared by the streams. */
module LineOutputs {
  import opened Bytes
  import opened Paths

  const MAX_VERBOSE_LINE: nat := 4096
  const EVENT_OVERHEAD: nat := 256

  /** A logged line and whether it is shorter than what the child wrote. */
  datatype Event = Event(line: Bytes, truncated: bool)

  /** The bytes still to be spent and the events emitted so far. */
  datatype Sink = Sink(remaining: int, events: seq<Event>)

  // ---------- what is to be logged ----------

  /** The lines of `s` that a newline ends. */
  function EndedLines(s: Bytes): seq<Bytes>
    decreases |s|
  {
    var k := Cut(s);
    if k == |s| then [] else [s[..k]] + EndedLines(s[k + 1..])
  }

  /** What follows the last newline of `s`. */
  function OpenLine(s: Bytes): (r: Bytes)
    ensures LF !in r
    decreases |s|
  {
    var k := Cut(s);
    if k == |s| then assert s[..k] == s; s else OpenLine(s[k + 1..])
  }

  function Unlines(lines: seq<Bytes>): Bytes {
    if lines == [] then [] else lines[0] + [LF] + Unlines(lines[1..])
  }

  /** The ended lines and the open line are the text, split at its newlines and nowhere else. */
  lemma {:induction false} LinesAreTheText(s: Bytes)
    ensures Unlines(EndedLines(s)) + OpenLine(s) == s
    ensures forall l :: l in EndedLines(s) ==> LF !in l
    decreases |s|
  {
    hide EndedLines, OpenLine;
    var k := Cut(s);
    if k < |s| {
      OneLine(s);
      LinesAreTheText(s[k + 1..]);
      assert s == s[..k] + [LF] + s[k + 1..];
      assert EndedLines(s)[1..] == EndedLines(s[k + 1..]);
    } else {
      AllOpen(s);
    }
  }

  function FirstOf(s: Bytes, n: nat): Bytes {
    if |s| <= n then s else s[..n]
  }

  function Cost(e: Event): nat {
    4 * |e.line| + EVENT_OVERHEAD
  }

  function TotalCost(events: seq<Event>): nat {
    if events == [] then 0 else TotalCost(events[..|events| - 1]) + Cost(events[|events| - 1])
  }

  /** One line: nothing if it is empty or the budget is used up, or as much of it as fits. */
  function Log(s: Sink, line: Bytes): Sink {
    if line == [] || s.remaining <= EVENT_OVERHEAD then s
    else
      var room := (s.remaining - EVENT_OVERHEAD) / 4;
      var text := FirstOf(FirstOf(line, MAX_VERBOSE_LINE), room);
      var e := Event(text, |text| < |line|);
      Sink(s.remaining - Cost(e), s.events + [e])
  }

  function LogAll(s: Sink, lines: seq<Bytes>): Sink
    decreases lines
  {
    if lines == [] then s else LogAll(Log(s, lines[0]), lines[1..])
  }

  /** The budget is never overdrawn, and all of it that is gone is in the events. */
  predicate Balanced(s: Sink, start: int) {
    s.remaining >= 0 && TotalCost(s.events) + s.remaining == start
  }

  lemma LogBalances(s: Sink, line: Bytes, start: int)
    requires Balanced(s, start)
    ensures Balanced(Log(s, line), start)
  {
  }

  /** Whatever lines the streams flush, in whatever interleaving, the budget stays balanced. */
  lemma {:induction false} SharedBudget(s: Sink, lines: seq<Bytes>, start: int)
    requires Balanced(s, start)
    ensures Balanced(LogAll(s, lines), start)
    ensures TotalCost(LogAll(s, lines).events) <= start
    ensures LogAll(s, lines).remaining <= s.remaining && s.events <= LogAll(s, lines).events
    decreases lines
  {
    if lines != [] {
      LogBalances(s, lines[0], start);
      SharedBudget(Log(s, lines[0]), lines[1..], start);
    }
  }

  /** An event holds a beginning of its line, and its flag tells whether it is all of it. */
  lemma LogIsPrefix(s: Sink, line: Bytes)
    requires Log(s, line) != s
    ensures var e := Log(s, line).events[|s.events|];
            e.line <= line && |e.line| <= MAX_VERBOSE_LINE && (e.truncated <==> e.line != line)
  {
  }

  /**
   * How much of a line is logged: as much of it as 4096 bytes and the budget allow, where an
   * event costs 256 bytes and four for each of its own. Nothing is logged of an empty line,
   * or when no more than 256 bytes are left.
   */
  lemma LogExactly(s: Sink, line: Bytes)
    ensures line == [] || s.remaining <= 256 ==> Log(s, line) == s
    ensures line != [] && s.remaining > 256 ==>
              var room := (s.remaining - 256) / 4;
              var k := if |line| <= 4096 && |line| <= room then |line| else if 4096 <= room then 4096 else room;
              Log(s, line) == Sink(s.remaining - 256 - 4 * k, s.events + [Event(line[..k], k < |line|)])
  {
    if line != [] && s.remaining > 256 {
      var room := (s.remaining - 256) / 4;
      assert |line| > 4096 && room < 4096 ==> line[..4096][..room] == line[..room];
      assert line[..|line|] == line;
    }
  }

  lemma {:induction false} LogAllAppend(s: Sink, a: seq<Bytes>, b: seq<Bytes>)
    ensures LogAll(s, a + b) == LogAll(LogAll(s, a), b)
    decreases a
  {
    if a == [] {
      assert a + b == b;
    } else {
      LogAllAppend(Log(s, a[0]), a[1..], b);
      assert (a + b)[1..] == a[1..] + b;
    }
  }

  lemma CutAppend(a: Bytes, b: Bytes)
    requires Cut(a) < |a|
    ensures Cut(a + b) == Cut(a) && (a + b)[..Cut(a)] == a[..Cut(a)] && (a + b)[Cut(a) + 1..] == a[Cut(a) + 1..] + b
  {
    assert (a + b)[..Cut(a)] == a[..Cut(a)];
    CutIsUnique(a + b, Cut(a));
  }

  /** Cutting text into lines does not depend on where it was split before. */
  lemma {:induction false} LinesOfChunks(a: Bytes, b: Bytes)
    ensures EndedLines(a + b) == EndedLines(a) + EndedLines(OpenLine(a) + b)
    ensures OpenLine(a + b) == OpenLine(OpenLine(a) + b)
    decreases |a|
  {
    hide EndedLines, OpenLine;
    var k := Cut(a);
    if k < |a| {
      var rest := a[k + 1..];
      LinesOfChunks(rest, b);
      CutAppend(a, b);
      OneLine(a + b);
      OneLine(a);
      Regroup(a[..k], EndedLines(rest), EndedLines(OpenLine(rest) + b));
    } else {
      AllOpen(a);
      assert [] + EndedLines(a + b) == EndedLines(a + b);
    }
  }

  lemma Regroup(x: Bytes, ys: seq<Bytes>, zs: seq<Bytes>)
    ensures [x] + (ys + zs) == [x] + ys + zs
  {
  }

  lemma AllOpen(s: Bytes)
    requires Cut(s) == |s|
    ensures EndedLines(s) == [] && OpenLine(s) == s
  {
  }

  lemma OneLine(s: Bytes)
    requires Cut(s) < |s|
    ensures EndedLines(s) == [s[..Cut(s)]] + EndedLines(s[Cut(s) + 1..])
    ensures OpenLine(s) == OpenLine(s[Cut(s) + 1..])
  {
    hide Cut;
    var k := Cut(s);
    assert EndedLines(s) == [s[..k]] + EndedLines(s[k + 1..]);
    assert OpenLine(s) == OpenLine(s[k + 1..]);
  }

  /** The next newline of `rest` ends the current line. */
  lemma NextNewline(line: Bytes, rest: Bytes)
    requires LF !in line && Cut(rest) < |rest|
    ensures EndedLines(line + rest) == [line + rest[..Cut(rest)]] + EndedLines(rest[Cut(rest) + 1..])
    ensures OpenLine(line + rest) == OpenLine(rest[Cut(rest) + 1..])
  {
    hide EndedLines, OpenLine;
    var k := |line| + Cut(rest);
    assert (line + rest)[..k] == line + rest[..Cut(rest)];
    assert (line + rest)[k + 1..] == rest[Cut(rest) + 1..];
    CutIsUnique(line + rest, k);
    OneLine(line + rest);
  }

  /** After more text, the open line and the events are those of all the text at once. */
  lemma MoreText(line: Bytes, text: Bytes, p: Bytes, s: Sink)
    ensures OpenLine(line + (text + p)) == OpenLine(OpenLine(line + text) + p)
    ensures LogAll(s, EndedLines(line + (text + p))) ==
            LogAll(LogAll(s, EndedLines(line + text)), EndedLines(OpenLine(line + text) + p))
  {
    hide EndedLines, OpenLine, LogAll;
    LinesOfChunks(line + text, p);
    assert line + text + p == line + (text + p);
    LogAllAppend(s, EndedLines(line + text), EndedLines(OpenLine(line + text) + p));
  }

  lemma LastPart(line: Bytes, rest: Bytes, s: Sink)
    requires LF !in line && LF !in rest
    ensures OpenLine(line + rest) == line + rest && LogAll(s, EndedLines(line + rest)) == s
  {
  }

  lemma NextPart(line: Bytes, rest: Bytes, s: Sink)
    requires LF !in line && Cut(rest) < |rest|
    ensures OpenLine(line + rest) == OpenLine(rest[Cut(rest) + 1..])
    ensures LogAll(s, EndedLines(line + rest)) ==
            LogAll(Log(s, line + rest[..Cut(rest)]), EndedLines(rest[Cut(rest) + 1..]))
  {
    hide EndedLines;
    NextNewline(line, rest);
  }

  lemma NotLogged(s: Sink, line: Bytes)
    requires line == [] || s.remaining <= EVENT_OVERHEAD
    ensures Log(s, line) == s
  {
  }

  /** What `flush` does with the buffered beginning of a line. */
  lemma FlushIsLog(s: Sink, line: Bytes, text: Bytes, buf: Bytes)
    requires line != [] && s.remaining > EVENT_OVERHEAD && buf == FirstOf(line, MAX_VERBOSE_LINE)
    requires text == FirstOf(buf, (s.remaining - EVENT_OVERHEAD) / 4)
    ensures Log(s, line) == Sink(s.remaining - (4 * |text| + EVENT_OVERHEAD),
                                 s.events + [Event(text, |line| > MAX_VERBOSE_LINE || |text| < |buf|)])
  {
  }

  // ---------- the writers ----------

  class VerboseBudget {
    var remaining: int
    var events: seq<Event>
    ghost const start: int

    ghost predicate Valid()
      reads this
    {
      Balanced(Sink(remaining, events), start)
    }

    constructor (limit: nat)
      ensures Valid() && start == limit && Spent() == Sink(limit, [])
    {
      remaining, events, start := limit, [], limit;
    }

    function Spent(): Sink
      reads this
    {
      Sink(remaining, events)
    }
  }

  class LineOutput {
    const budget: VerboseBudget
    var buf: Bytes
    var truncated: bool
    /** All of the current line, of which `buf` keeps the beginning. */
    ghost var line: Bytes

    ghost predicate Valid()
      reads this
    {
      && LF !in line
      && buf == FirstOf(line, MAX_VERBOSE_LINE) && truncated == (|line| > MAX_VERBOSE_LINE)
    }

    constructor (budget: VerboseBudget)
      ensures Valid() && line == [] && this.budget == budget
    {
      this.budget := budget;
      buf, truncated, line := [], false, [];
    }

    /** `flush`: logs the current line and starts an empty one. */
    method Flush()
      requires Valid() && budget.Valid()
      modifies this, budget
      ensures Valid() && budget.Valid() && line == []
      ensures budget.Spent() == Log(old(budget.Spent()), old(line))
    {
      hide Balanced, Log, TotalCost;
      if |buf| == 0 && !truncated {
        NotLogged(budget.Spent(), line);
        return;
      }
      LogBalances(budget.Spent(), line, budget.start);
      if budget.remaining > EVENT_OVERHEAD {
        var content := buf;
        if |content| > (budget.remaining - EVENT_OVERHEAD) / 4 {
          content := content[..(budget.remaining - EVENT_OVERHEAD) / 4];
        }
        FlushIsLog(budget.Spent(), line, content, buf);
        budget.remaining := budget.remaining - (4 * |content| + EVENT_OVERHEAD);
        budget.events := budget.events + [Event(content, truncated || |content| < |buf|)];
      } else {
        NotLogged(budget.Spent(), line);
      }
      buf, truncated, line := [], false, [];
    }

    /** Adds to the current line the part of the output that belongs to it. */
    method Append(part: Bytes)
      requires Valid() && LF !in part
      modifies this
      ensures Valid() && line == old(line) + part
    {
      if |part| > MAX_VERBOSE_LINE - |buf| {
        buf := buf + part[..MAX_VERBOSE_LINE - |buf|];
        truncated := true;
      } else {
        buf := buf + part;
      }
      line := line + part;
    }

    /** `Write`: logs every line that `p` ends, and keeps the rest for the next call. */
    method Write(p: Bytes) returns (n: nat)
      requires Valid() && budget.Valid()
      modifies this, budget
      ensures Valid() && budget.Valid() && n == |p|
      ensures line == OpenLine(old(line) + p)
      ensures budget.Spent() == LogAll(old(budget.Spent()), EndedLines(old(line) + p))
    {
      hide EndedLines, OpenLine, Log, LogAll, Balanced;
      n := |p|;
      var rest := p;
      while |rest| > 0
        invariant Valid() && budget.Valid()
        invariant OpenLine(line + rest) == OpenLine(old(line) + p)
        invariant LogAll(budget.Spent(), EndedLines(line + rest)) == LogAll(old(budget.Spent()), EndedLines(old(line) + p))
        decreases |rest|
      {
        var i := Cut(rest);
        ghost var before, spent := line, budget.Spent();
        if i == |rest| {
          assert rest[..i] == rest;
          Append(rest);
          LastPart(before, rest, spent);
          return;
        }
        Append(rest[..i]);
        Flush();
        NextPart(before, rest, spent);
        rest := rest[i + 1..];
        assert line + rest == rest;
      }
      assert line + [] == line;
      LastPart(line, [], budget.Spent());
    }
  }

  /** Only the concatenation of the chunks matters, for the kept line and for the events. */
  method WriteChunks(o: LineOutput, chunks: seq<Bytes>)
    requires o.Valid() && o.budget.Valid()
    modifies o, o.budget
    ensures o.Valid() && o.budget.Valid()
    ensures o.line == OpenLine(old(o.line) + Concat(chunks))
    ensures o.budget.Spent() == LogAll(old(o.budget.Spent()), EndedLines(old(o.line) + Concat(chunks)))
  {
    hide EndedLines, OpenLine, LogAll, Balanced;
    ghost var line, s := o.line, o.budget.Spent();
    LastPart(line, [], s);
    assert line + [] == line;
    for i := 0 to |chunks|
      invariant o.Valid() && o.budget.Valid()
      invariant o.line == OpenLine(line + Concat(chunks[..i]))
      invariant o.budget.Spent() == LogAll(s, EndedLines(line + Concat(chunks[..i])))
    {
      var n := o.Write(chunks[i]);
      assert chunks[..i + 1][..i] == chunks[..i];
      MoreText(line, Concat(chunks[..i]), chunks[i], s);
    }
    assert chunks[..|chunks|] == chunks;
  }

  /** What the writes `w` send to one of the streams. */
  function Sent(w: seq<(bool, Bytes)>, stream: bool): Bytes {
    if w == [] then []
    else
      var last := w[|w| - 1];
      Sent(w[..|w| - 1], stream) + (if last.0 == stream then last.1 else [])
  }

  /** The lines that one write has ended. */
  datatype Batch = Batch(stream: bool, lines: seq<Bytes>)

  /** The lines that the writes `w` end, in the order of the writes. */
  function Batches(la: Bytes, lb: Bytes, w: seq<(bool, Bytes)>): seq<Batch> {
    if w == [] then []
    else
      var front, last := w[..|w| - 1], w[|w| - 1];
      Batches(la, lb, front) + [Batch(last.0, EndedLines(OpenLine(LineOf(la, lb, last.0) + Sent(front, last.0)) + last.1))]
  }

  function LineOf(la: Bytes, lb: Bytes, stream: bool): Bytes {
    if stream then la else lb
  }

  function AllLines(b: seq<Batch>): seq<Bytes> {
    if b == [] then [] else AllLines(b[..|b| - 1]) + b[|b| - 1].lines
  }

  /** The lines of one stream. */
  function LinesFrom(b: seq<Batch>, stream: bool): seq<Bytes> {
    if b == [] then []
    else LinesFrom(b[..|b| - 1], stream) + (if b[|b| - 1].stream == stream then b[|b| - 1].lines else [])
  }

  /** What the next write adds. */
  lemma NextBatch(la: Bytes, lb: Bytes, w: seq<(bool, Bytes)>, stream: bool)
    requires w != []
    ensures var front, last := w[..|w| - 1], w[|w| - 1];
            var ended := EndedLines(OpenLine(LineOf(la, lb, last.0) + Sent(front, last.0)) + last.1);
            && AllLines(Batches(la, lb, w)) == AllLines(Batches(la, lb, front)) + ended
            && LinesFrom(Batches(la, lb, w), stream) ==
               (if last.0 == stream then LinesFrom(Batches(la, lb, front), stream) + ended
                else LinesFrom(Batches(la, lb, front), stream))
            && Sent(w, stream) == (if last.0 == stream then Sent(front, stream) + last.1 else Sent(front, stream))
  {
  }

  lemma NothingFrom(la: Bytes, lb: Bytes, stream: bool)
    requires LF !in la && LF !in lb
    ensures LinesFrom(Batches(la, lb, []), stream) == EndedLines(LineOf(la, lb, stream) + Sent([], stream)) == []
  {
  }

  /** The lines of one stream are the lines of all that was sent to it. */
  lemma {:induction false} LinesByStream(la: Bytes, lb: Bytes, w: seq<(bool, Bytes)>, stream: bool)
    requires LF !in la && LF !in lb
    ensures LinesFrom(Batches(la, lb, w), stream) == EndedLines(LineOf(la, lb, stream) + Sent(w, stream))
    decreases |w|
  {
    hide *;
    if w == [] {
      NothingFrom(la, lb, stream);
    } else {
      var front, last, l := w[..|w| - 1], w[|w| - 1], LineOf(la, lb, stream);
      LinesByStream(la, lb, front, stream);
      NextBatch(la, lb, w, stream);
      if last.0 == stream {
        LinesOfChunks(l + Sent(front, stream), last.1);
        assert l + (Sent(front, stream) + last.1) == l + Sent(front, stream) + last.1;
      }
    }
  }

  lemma NothingSent(la: Bytes, lb: Bytes, s: Sink)
    requires LF !in la && LF !in lb
    ensures OpenLine(la + Sent([], true)) == la && OpenLine(lb + Sent([], false)) == lb
    ensures EndedLines(la + Sent([], true)) == [] && EndedLines(lb + Sent([], false)) == []
    ensures LogAll(s, AllLines(Batches(la, lb, []))) == s
  {
  }

  /**
   * Two streams of one budget, in any interleaving: each keeps its own open line, and what is
   * logged are the lines of both, in the order of the writes that end them.
   */
  method WriteBoth(a: LineOutput, b: LineOutput, w: seq<(bool, Bytes)>)
    requires a != b && a.budget == b.budget && a.Valid() && b.Valid() && a.budget.Valid()
    modifies a, b, a.budget
    ensures a.Valid() && b.Valid() && a.budget.Valid()
    ensures a.line == OpenLine(old(a.line) + Sent(w, true)) && b.line == OpenLine(old(b.line) + Sent(w, false))
    ensures a.budget.Spent() == LogAll(old(a.budget.Spent()), AllLines(Batches(old(a.line), old(b.line), w)))
  {
    hide EndedLines, OpenLine, LogAll, Balanced, Batches, AllLines, Sent;
    ghost var la, lb, s := a.line, b.line, a.budget.Spent();
    NothingSent(la, lb, s);
    assert w[..0] == [];
    for i := 0 to |w|
      invariant a.Valid() && b.Valid() && a.budget.Valid()
      invariant a.line == OpenLine(la + Sent(w[..i], true)) && b.line == OpenLine(lb + Sent(w[..i], false))
      invariant a.budget.Spent() == LogAll(s, AllLines(Batches(la, lb, w[..i])))
    {
      assert w[..i + 1][..i] == w[..i];
      NextBatch(la, lb, w[..i + 1], true);
      NextBatch(la, lb, w[..i + 1], false);
      ghost var open := OpenLine(LineOf(la, lb, w[i].0) + Sent(w[..i], w[i].0));
      LogAllAppend(s, AllLines(Batches(la, lb, w[..i])), EndedLines(open + w[i].1));
      var n;
      if w[i].0 {
        MoreText(la, Sent(w[..i], true), w[i].1, s);
        n := a.Write(w[i].1);
      } else {
        MoreText(lb, Sent(w[..i], false), w[i].1, s);
        n := b.Write(w[i].1);
      }
    }
    assert w[..|w|] == w;
  }
}
