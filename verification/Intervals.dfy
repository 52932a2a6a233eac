/** Splitting byte ranges: review states cut to a read, highlights cut at line ends. */
module Intervals {
  import opened Options

  // ---------- resolveSpan and clipStates ----------

  /** A read's clamped span, or none where the source refuses it. */
  function ResolveSpan(start: int, end: int, size: nat): (r: Option<(nat, nat)>)
    ensures r.Some? ==> r.value.0 <= r.value.1 <= size
    ensures start < 0 ==> r == Some((0, size))
    ensures start >= 0 && r.Some? ==> r.value.0 == start && r.value.1 == (if end >= 0 then end else size)
    ensures r.None? <==> start > size || (start >= 0 && end >= 0 && (end > size || end < start))
  {
    if start < 0 then Some((0, size))
    else if start > size || (end >= 0 && (end > size || end < start)) then None
    else Some((start, if end < 0 then size else end))
  }

  datatype StateRun = StateRun(off: int, len: int, group: nat, state: nat)

  predicate Holds(r: StateRun, p: int) {
    r.off <= p < r.off + r.len
  }

  /** What every run that holds byte `p` says of it, in run order. */
  function Owners(runs: seq<StateRun>, p: int): seq<(nat, nat)> {
    if runs == [] then []
    else
      var last := runs[|runs| - 1];
      Owners(runs[..|runs| - 1], p) + if Holds(last, p) then [(last.group, last.state)] else []
  }

  function Clip(r: StateRun, start: nat, end: nat): seq<StateRun> {
    var lo, hi := r.off, r.off + r.len;
    if r.len <= 0 || hi <= start || lo >= end then []
    else
      var lo' := if lo < start then start else lo;
      var hi' := if hi > end then end else hi;
      [StateRun(lo' - start, hi' - lo', r.group, r.state)]
  }

  function Clipped(runs: seq<StateRun>, start: nat, end: nat): seq<StateRun> {
    if runs == [] then []
    else Clipped(runs[..|runs| - 1], start, end) + Clip(runs[|runs| - 1], start, end)
  }

  method ClipStates(runs: seq<StateRun>, start: nat, end: nat) returns (out: seq<StateRun>)
    ensures out == Clipped(runs, start, end)
  {
    out := [];
    for k := 0 to |runs|
      invariant out == Clipped(runs[..k], start, end)
    {
      var r := runs[k];
      assert runs[..k + 1][..k] == runs[..k];
      var lo, hi := r.off, r.off + r.len;
      if r.len <= 0 || hi <= start || lo >= end {
        continue;
      }
      if lo < start {
        lo := start;
      }
      if hi > end {
        hi := end;
      }
      out := out + [StateRun(lo - start, hi - lo, r.group, r.state)];
    }
    assert runs[..|runs|] == runs;
  }

  lemma OwnersAdd(runs: seq<StateRun>, c: seq<StateRun>, p: int)
    requires |c| <= 1
    ensures Owners(runs + c, p) == Owners(runs, p) + if c != [] && Holds(c[0], p) then [(c[0].group, c[0].state)] else []
  {
    if c == [] {
      assert runs + c == runs;
    } else {
      assert (runs + c)[..|runs|] == runs;
    }
  }

  lemma ClipHolds(r: StateRun, start: nat, end: nat, p: int)
    requires start <= end
    ensures |Clip(r, start, end)| <= 1
    ensures Clip(r, start, end) != [] && Holds(Clip(r, start, end)[0], p) <==>
              0 <= p < end - start && Holds(r, p + start)
    ensures Clip(r, start, end) != [] ==>
              Clip(r, start, end)[0].group == r.group && Clip(r, start, end)[0].state == r.state
  {
  }

  /** For any runs at all, each byte of the read has exactly the owners it had in the
      document, and no run reaches outside the read. */
  lemma {:induction false} ClippedOwners(runs: seq<StateRun>, start: nat, end: nat, p: int)
    requires start <= end
    ensures Owners(Clipped(runs, start, end), p) == if 0 <= p < end - start then Owners(runs, p + start) else []
  {
    hide Clip, Holds;
    if runs != [] {
      var init, last := runs[..|runs| - 1], runs[|runs| - 1];
      ClippedOwners(init, start, end, p);
      ClipHolds(last, start, end, p);
      OwnersAdd(Clipped(init, start, end), Clip(last, start, end), p);
    }
  }

  function Reach(runs: seq<StateRun>): int {
    if runs == [] then 0 else runs[|runs| - 1].off + runs[|runs| - 1].len
  }

  /** Runs laid end to end from byte zero. */
  predicate Chained(runs: seq<StateRun>) {
    runs == [] ||
    (var init, last := runs[..|runs| - 1], runs[|runs| - 1];
     Chained(init) && last.off == Reach(init) && last.len >= 0)
  }

  predicate Tiles(runs: seq<StateRun>, n: int) {
    Chained(runs) && Reach(runs) == n
  }

  /** How much of `[start, end)` lies below `at`. */
  function Below(at: int, start: nat, end: nat): int {
    if at <= start then 0 else if at >= end then end - start else at - start
  }

  lemma ChainAdd(runs: seq<StateRun>, c: seq<StateRun>)
    requires Chained(runs) && |c| <= 1 && (c != [] ==> c[0].off == Reach(runs) && c[0].len >= 0)
    ensures Tiles(runs + c, if c == [] then Reach(runs) else Reach(runs) + c[0].len)
  {
    hide Chained, Reach;
    if c == [] {
      assert runs + c == runs;
    } else {
      ChainOne(runs, c[0]);
      assert c == [c[0]];
    }
  }

  lemma ChainOne(runs: seq<StateRun>, r: StateRun)
    requires Chained(runs) && r.off == Reach(runs) && r.len >= 0
    ensures Tiles(runs + [r], Reach(runs) + r.len)
  {
    var all := runs + [r];
    assert all[..|all| - 1] == runs && all[|all| - 1] == r && all != [];
  }

  lemma ClipStep(r: StateRun, start: nat, end: nat)
    requires start <= end && 0 <= r.off && 0 <= r.len
    ensures var c := Clip(r, start, end);
            && |c| <= 1
            && (c != [] ==> c[0].off == Below(r.off, start, end) && c[0].len >= 0)
            && Below(r.off + r.len, start, end) == Below(r.off, start, end) + if c == [] then 0 else c[0].len
  {
  }

  lemma {:induction false} ClippedChain(runs: seq<StateRun>, start: nat, end: nat)
    requires Chained(runs) && start <= end
    ensures Tiles(Clipped(runs, start, end), Below(Reach(runs), start, end))
    ensures Reach(runs) >= 0
  {
    hide Clip;
    if runs != [] {
      var init, last := runs[..|runs| - 1], runs[|runs| - 1];
      ClippedChain(init, start, end);
      ClipStep(last, start, end);
      ChainAdd(Clipped(init, start, end), Clip(last, start, end));
    }
  }

  /** Runs that tile the document, cut to the span any accepted read resolves to, tile
      the read. */
  lemma ClippedTiles(runs: seq<StateRun>, size: nat, start: int, end: int)
    requires Tiles(runs, size) && ResolveSpan(start, end, size).Some?
    ensures var (lo, hi) := ResolveSpan(start, end, size).value;
            Tiles(Clipped(runs, lo, hi), hi - lo)
  {
    hide Tiles, Clipped;
    var (lo, hi) := ResolveSpan(start, end, size).value;
    TilesReach(runs, size);
    ClippedChain(runs, lo, hi);
  }

  lemma TilesReach(runs: seq<StateRun>, n: int)
    requires Tiles(runs, n)
    ensures Chained(runs) && Reach(runs) == n
  {
  }

  /** No run of the result is empty exactly when the read is not, or no run straddles
      the place it stands at. */
  lemma {:induction false} ClippedNonEmpty(runs: seq<StateRun>, start: nat, end: nat)
    requires start <= end
    ensures (forall r :: r in Clipped(runs, start, end) ==> r.len > 0) <==>
              start < end || forall r :: r in runs ==> !(r.off < start < r.off + r.len)
  {
    if runs != [] {
      var init, last := runs[..|runs| - 1], runs[|runs| - 1];
      ClippedNonEmpty(init, start, end);
      assert runs == init + [last];
      assert Clipped(runs, start, end) == Clipped(init, start, end) + Clip(last, start, end);
      assert start < end ==> forall r :: r in Clip(last, start, end) ==> r.len > 0;
      assert start == end ==>
          Clip(last, start, end) == if last.off < start < last.off + last.len then [StateRun(0, 0, last.group, last.state)] else [];
      assert start == end && last.off < start < last.off + last.len ==>
          StateRun(0, 0, last.group, last.state) in Clipped(runs, start, end) && last in runs;
    }
  }

  /** The exception: an empty read in the middle of a run comes with an empty run. */
  lemma EmptyReadEmptyRun()
    ensures ResolveSpan(1, 1, 2) == Some((1, 1))
    ensures Clipped([StateRun(0, 2, 7, 1)], 1, 1) == [StateRun(0, 0, 7, 1)]
  {
    assert [StateRun(0, 2, 7, 1)][..0] == [];
  }

  lemma {:induction false} ReachBounds(runs: seq<StateRun>, p: int)
    requires Chained(runs)
    ensures Reach(runs) >= 0
    ensures |Owners(runs, p)| == if 0 <= p < Reach(runs) then 1 else 0
  {
    if runs != [] {
      ReachBounds(runs[..|runs| - 1], p);
    }
  }

  /** So every byte of every read that is not refused has exactly one owning state: the
      one it had. */
  lemma ReadStatesExact(runs: seq<StateRun>, size: nat, start: int, end: int, p: nat)
    requires Tiles(runs, size) && ResolveSpan(start, end, size).Some?
    requires var (lo, hi) := ResolveSpan(start, end, size).value; p < hi - lo
    ensures var (lo, hi) := ResolveSpan(start, end, size).value;
            && Owners(Clipped(runs, lo, hi), p) == Owners(runs, p + lo)
            && |Owners(runs, p + lo)| == 1
  {
    hide Owners, Clipped, Chained, Reach;
    var (lo, hi) := ResolveSpan(start, end, size).value;
    ClippedOwners(runs, lo, hi, p);
    ReachBounds(runs, p + lo);
  }

  // ---------- The line table ----------

  /** The offset of each line's first byte; a trailing newline opens an empty line. */
  function LineStarts(text: string): (s: seq<nat>)
    ensures s != [] && s[0] == 0
  {
    if text == "" then [0]
    else
      var n := |text|;
      LineStarts(text[..n - 1]) + if text[n - 1] == '\n' then [n] else []
  }

  predicate Increasing(s: seq<nat>) {
    forall i, j :: 0 <= i < j < |s| ==> s[i] < s[j]
  }

  lemma {:induction false} LineStartsIncrease(text: string)
    ensures Increasing(LineStarts(text)) && forall i :: 0 <= i < |LineStarts(text)| ==> LineStarts(text)[i] <= |text|
  {
    if text != "" {
      LineStartsIncrease(text[..|text| - 1]);
    }
  }

  /** A line starts at the beginning and behind every newline, and nowhere else. */
  lemma {:induction false} LineStartsMean(text: string, k: nat)
    ensures k in LineStarts(text) <==> k == 0 || (k <= |text| && text[k - 1] == '\n')
  {
    if text != "" {
      LineStartsMean(text[..|text| - 1], k);
    }
  }

  method NewDocument(text: string) returns (starts: seq<nat>)
    ensures starts == LineStarts(text) && forall i, j :: 0 <= i < j < |starts| ==> starts[i] < starts[j]
    ensures forall k: nat :: k in starts <==> k == 0 || (k <= |text| && text[k - 1] == '\n')
  {
    LineStartsIncrease(text);
    forall k: nat ensures k in LineStarts(text) <==> k == 0 || (k <= |text| && text[k - 1] == '\n') {
      LineStartsMean(text, k);
    }
    starts := [0];
    for i := 0 to |text|
      invariant starts == LineStarts(text[..i])
    {
      assert text[..i + 1][..i] == text[..i];
      if text[i] == '\n' {
        starts := starts + [i + 1];
      }
    }
    assert text[..|text|] == text;
  }

  /** A line table: where lines start, and how long the text is. */
  datatype Lines = Lines(starts: seq<nat>, size: nat) {
    ghost predicate Valid() {
      starts != [] && starts[0] == 0 && Increasing(starts) && starts[|starts| - 1] <= size
    }

    /** `doc.Offset` of a line's first column; past the last line, the end. */
    function Start(line: nat): nat {
      if line < |starts| then starts[line] else size
    }

    predicate OnLine(p: nat, line: nat) {
      line < |starts| && starts[line] <= p && (line + 1 < |starts| ==> p < starts[line + 1])
    }
  }

  method LineOf(d: Lines, off: nat) returns (line: nat)
    requires d.Valid()
    ensures d.OnLine(off, line)
    ensures line < |d.starts| && d.starts[line] <= off && (line + 1 < |d.starts| ==> off < d.starts[line + 1])
  {
    var lo, hi := 0, |d.starts| - 1;
    while lo < hi
      invariant 0 <= lo <= hi < |d.starts|
      invariant d.starts[lo] <= off
      invariant hi + 1 < |d.starts| ==> off < d.starts[hi + 1]
    {
      var mid := (lo + hi + 1) / 2;
      if d.starts[mid] <= off {
        lo := mid;
      } else {
        hi := mid - 1;
      }
    }
    line := lo;
  }

  // ---------- highlightRuns ----------

  /** A decoded highlight, its range already an ordered byte span of the document. */
  datatype Highlight = Highlight(lo: nat, hi: nat, write: bool)

  datatype Run = Run(start: nat, end: nat, write: bool)

  function Piece(d: Lines, h: Highlight, line: nat): seq<Run>
    requires d.Valid()
  {
    var lineStart, lineEnd := d.Start(line), d.Start(line + 1);
    var start := if h.lo < lineStart then lineStart else h.lo;
    var end := if h.hi > lineEnd then lineEnd else h.hi;
    if line < |d.starts| && start < end then [Run(start - lineStart, end - lineStart, h.write)] else []
  }

  /** The runs a line gets, in the order the highlights came. */
  function OnLine(d: Lines, hs: seq<Highlight>, line: nat): seq<Run>
    requires d.Valid()
  {
    if hs == [] then [] else OnLine(d, hs[..|hs| - 1], line) + Piece(d, hs[|hs| - 1], line)
  }

  function InsertRun(s: seq<Run>, r: Run): seq<Run> {
    if s == [] || !(r.start < s[|s| - 1].start) then s + [r]
    else InsertRun(s[..|s| - 1], r) + [s[|s| - 1]]
  }

  /** A run list in start order. The library's sort is not stable; nothing below
      depends on where equal starts fall. */
  function SortRuns(s: seq<Run>): seq<Run> {
    if s == [] then [] else InsertRun(SortRuns(s[..|s| - 1]), s[|s| - 1])
  }

  predicate InOrder(s: seq<Run>) {
    forall i, j :: 0 <= i < j < |s| ==> s[i].start <= s[j].start
  }

  lemma {:induction false} InsertRunSorts(s: seq<Run>, r: Run)
    requires InOrder(s)
    ensures InOrder(InsertRun(s, r)) && multiset(InsertRun(s, r)) == multiset(s) + multiset{r}
  {
    hide InOrder;
    if s == [] {
      NoRuns();
      OrderAdd([], r);
    } else {
      var init, last := s[..|s| - 1], s[|s| - 1];
      assert s == init + [last];
      if r.start < last.start {
        OrderInit(init, last);
        InsertRunSorts(init, r);
        NoneAfter(init, r, last);
        OrderAdd(InsertRun(init, r), last);
      } else {
        OrderInit(init, last);
        OrderAdd(s, r);
      }
    }
  }

  lemma OrderInit(init: seq<Run>, last: Run)
    requires InOrder(init + [last])
    ensures InOrder(init) && forall i :: 0 <= i < |init| ==> init[i].start <= last.start
  {
    var s := init + [last];
    forall i, j | 0 <= i < j < |init| ensures init[i].start <= init[j].start {
      assert s[i].start <= s[j].start;
    }
    forall i | 0 <= i < |init| ensures init[i].start <= last.start {
      assert s[i].start <= s[|init|].start;
    }
  }

  lemma OrderAdd(t: seq<Run>, last: Run)
    requires InOrder(t) && forall i :: 0 <= i < |t| ==> t[i].start <= last.start
    ensures InOrder(t + [last])
  {
  }

  lemma NoneAfter(init: seq<Run>, r: Run, last: Run)
    requires InOrder(init + [last]) && r.start < last.start
    requires multiset(InsertRun(init, r)) == multiset(init) + multiset{r}
    ensures forall i :: 0 <= i < |InsertRun(init, r)| ==> InsertRun(init, r)[i].start <= last.start
  {
    hide InsertRun;
    var t, s := InsertRun(init, r), init + [last];
    forall i | 0 <= i < |t| ensures t[i].start <= last.start {
      assert t[i] in multiset(t);
      if t[i] != r {
        assert t[i] in init;
        var j :| 0 <= j < |init| && init[j] == t[i];
        assert s[j].start <= s[|init|].start;
      }
    }
  }

  lemma {:induction false} SortRunsSorts(s: seq<Run>)
    ensures InOrder(SortRuns(s)) && multiset(SortRuns(s)) == multiset(s)
  {
    hide InsertRun, InOrder;
    if s != [] {
      SortRunsSorts(s[..|s| - 1]);
      InsertRunSorts(SortRuns(s[..|s| - 1]), s[|s| - 1]);
      assert s == s[..|s| - 1] + [s[|s| - 1]];
    } else {
      NoRuns();
    }
  }

  lemma NoRuns()
    ensures InOrder([])
  {
  }

  lemma LinesValid(text: string)
    ensures Lines(LineStarts(text), |text|).Valid()
  {
    LineStartsIncrease(text);
  }

  function Get(m: map<nat, seq<Run>>, line: nat): seq<Run> {
    if line in m then m[line] else []
  }

  method HighlightRuns(d: Lines, hs: seq<Highlight>) returns (byLine: map<nat, seq<Run>>)
    requires d.Valid() && forall i :: 0 <= i < |hs| ==> hs[i].hi <= d.size
    ensures forall line: nat :: Get(byLine, line) == SortRuns(OnLine(d, hs, line))
    ensures forall line :: line in byLine ==> byLine[line] != []
  {
    byLine := map[];
    for k := 0 to |hs|
      invariant forall line: nat :: Get(byLine, line) == OnLine(d, hs[..k], line)
      invariant forall line :: line in byLine ==> byLine[line] != []
    {
      assert hs[..k + 1][..k] == hs[..k];
      byLine := PlaceHighlight(d, hs[..k], hs[k], byLine);
      assert hs[..k + 1] == hs[..k] + [hs[k]];
    }
    assert hs[..|hs|] == hs;
    byLine := map line | line in byLine :: SortRuns(byLine[line]);
    forall line | line in byLine ensures byLine[line] != [] {
      SortRunsSorts(OnLine(d, hs, line));
    }
  }

  /** One highlight, cut at the line boundaries it crosses. */
  method PlaceHighlight(d: Lines, before: seq<Highlight>, h: Highlight, byLine: map<nat, seq<Run>>)
    returns (r: map<nat, seq<Run>>)
    requires d.Valid() && h.hi <= d.size
    requires forall line: nat :: Get(byLine, line) == OnLine(d, before, line)
    requires forall line :: line in byLine ==> byLine[line] != []
    ensures forall line: nat :: Get(r, line) == OnLine(d, before + [h], line)
    ensures forall line :: line in r ==> r[line] != []
  {
    hide Piece, OnLine, Get;
    r := byLine;
    if h.hi <= h.lo {
      NothingPlaced(d, before, h);
      return;
    }
    var first := LineOf(d, h.lo);
    var last := LineOf(d, h.hi - 1);
    OffLines(d, h, first, last);
    var line := first;
    while line <= last
      invariant first <= line <= last + 1
      invariant forall l: nat :: Get(r, l) == OnLine(d, before, l) + if first <= l < line then Piece(d, h, l) else []
      invariant forall l :: l in r ==> r[l] != []
    {
      r := PlaceOnLine(d, h, line, r);
      line := line + 1;
    }
    PlacedEverywhere(d, before, h, first, last);
  }

  method PlaceOnLine(d: Lines, h: Highlight, line: nat, byLine: map<nat, seq<Run>>) returns (r: map<nat, seq<Run>>)
    requires d.Valid() && line < |d.starts|
    requires forall l :: l in byLine ==> byLine[l] != []
    ensures forall l: nat :: Get(r, l) == if l == line then Get(byLine, l) + Piece(d, h, l) else Get(byLine, l)
    ensures forall l :: l in r ==> r[l] != []
  {
    r := byLine;
    var lineStart, lineEnd := d.Start(line), d.Start(line + 1);
    var start, end := h.lo, h.hi;
    if start < lineStart {
      start := lineStart;
    }
    if end > lineEnd {
      end := lineEnd;
    }
    if end > start {
      r := r[line := Get(r, line) + [Run(start - lineStart, end - lineStart, h.write)]];
    }
  }

  lemma NothingPlaced(d: Lines, before: seq<Highlight>, h: Highlight)
    requires d.Valid() && h.hi <= h.lo
    ensures forall l: nat :: OnLine(d, before + [h], l) == OnLine(d, before, l)
  {
    assert (before + [h])[..|before|] == before;
  }

  lemma PlacedEverywhere(d: Lines, before: seq<Highlight>, h: Highlight, first: nat, last: nat)
    requires d.Valid() && forall l: nat :: !(first <= l <= last) ==> Piece(d, h, l) == []
    ensures forall l: nat :: OnLine(d, before + [h], l) == OnLine(d, before, l) + if first <= l < last + 1 then Piece(d, h, l) else []
  {
    hide Piece;
    assert (before + [h])[..|before|] == before;
  }

  lemma OffLines(d: Lines, h: Highlight, first: nat, last: nat)
    requires d.Valid() && h.lo < h.hi <= d.size && d.OnLine(h.lo, first) && d.OnLine(h.hi - 1, last)
    ensures forall l: nat :: !(first <= l <= last) ==> Piece(d, h, l) == []
  {
  }

  // ---------- What the split loses and duplicates: nothing ----------

  /** How many runs emphasise column `c` of a line in the given way. */
  function Covering(runs: seq<Run>, c: int, write: bool): nat {
    if runs == [] then 0
    else
      var last := runs[|runs| - 1];
      Covering(runs[..|runs| - 1], c, write) + if last.start <= c < last.end && last.write == write then 1 else 0
  }

  /** How many highlights emphasise byte `p` in the given way. */
  function Emphasised(hs: seq<Highlight>, p: int, write: bool): nat {
    if hs == [] then 0
    else
      var last := hs[|hs| - 1];
      Emphasised(hs[..|hs| - 1], p, write) + if last.lo <= p < last.hi && last.write == write then 1 else 0
  }

  /** What one more run, or none, adds to a column. */
  lemma CoveringAdd(runs: seq<Run>, p: seq<Run>, c: int, write: bool)
    requires |p| <= 1
    ensures Covering(runs + p, c, write) ==
              Covering(runs, c, write) + if p != [] && p[0].start <= c < p[0].end && p[0].write == write then 1 else 0
  {
    if p == [] {
      assert runs + p == runs;
    } else {
      assert (runs + p)[..|runs|] == runs;
    }
  }

  lemma PieceCovers(d: Lines, h: Highlight, line: nat, c: nat)
    requires d.Valid() && line < |d.starts|
    ensures var p := Piece(d, h, line);
            && |p| <= 1
            && (p != [] ==> p[0].write == h.write)
            && (p != [] && p[0].start <= c < p[0].end <==>
                c < d.Start(line + 1) - d.Start(line) && h.lo <= d.starts[line] + c < h.hi)
  {
  }

  lemma {:induction false} CoveringOnLine(d: Lines, hs: seq<Highlight>, line: nat, c: nat, write: bool)
    requires d.Valid() && line < |d.starts|
    ensures Covering(OnLine(d, hs, line), c, write)
         == if c < d.Start(line + 1) - d.Start(line) then Emphasised(hs, d.starts[line] + c, write) else 0
  {
    hide Piece, Covering;
    if hs == [] {
      CoveringNothing(c, write);
    } else {
      var init, last := hs[..|hs| - 1], hs[|hs| - 1];
      CoveringOnLine(d, init, line, c, write);
      PieceCovers(d, last, line, c);
      CoveringAdd(OnLine(d, init, line), Piece(d, last, line), c, write);
    }
  }

  lemma CoveringNothing(c: int, write: bool)
    ensures Covering([], c, write) == 0
  {
  }

  lemma {:induction false} CoveringInsert(s: seq<Run>, r: Run, c: int, write: bool)
    ensures Covering(InsertRun(s, r), c, write) == Covering(s + [r], c, write)
  {
    assert (s + [r])[..|s|] == s;
    if s != [] && r.start < s[|s| - 1].start {
      var init, last := s[..|s| - 1], s[|s| - 1];
      CoveringInsert(init, r, c, write);
      assert (init + [r])[..|init|] == init;
      assert (InsertRun(init, r) + [last])[..|InsertRun(init, r)|] == InsertRun(init, r);
    }
  }

  lemma {:induction false} CoveringSorted(s: seq<Run>, c: int, write: bool)
    ensures Covering(SortRuns(s), c, write) == Covering(s, c, write)
  {
    if s != [] {
      CoveringSorted(s[..|s| - 1], c, write);
      var t := SortRuns(s[..|s| - 1]);
      CoveringInsert(t, s[|s| - 1], c, write);
      assert (t + [s[|s| - 1]])[..|t|] == t;
    }
  }

  /** Every byte of every highlight is emphasised on its own line as often as it was
      asked for, whichever lines the highlight crosses; nothing else is emphasised; and
      a line's runs are in start order. */
  lemma HighlightsExact(text: string, hs: seq<Highlight>, p: nat, line: nat, write: bool)
    requires p < |text| && Lines(LineStarts(text), |text|).OnLine(p, line)
    ensures var d := Lines(LineStarts(text), |text|);
            && d.Valid()
            && Covering(SortRuns(OnLine(d, hs, line)), p - d.starts[line], write) == Emphasised(hs, p, write)
            && InOrder(SortRuns(OnLine(d, hs, line)))
  {
    hide Covering, Emphasised, SortRuns, OnLine, LineStarts, InOrder, Increasing;
    LinesValid(text);
    var d := Lines(LineStarts(text), |text|);
    CoveringSorted(OnLine(d, hs, line), p - d.starts[line], write);
    CoveringOnLine(d, hs, line, p - d.starts[line], write);
    SortRunsSorts(OnLine(d, hs, line));
  }

  /** No run is empty or reaches past its line's end, newline included. */
  lemma {:induction false} RunsInBounds(d: Lines, hs: seq<Highlight>, line: nat)
    requires d.Valid()
    ensures forall r :: r in OnLine(d, hs, line) ==> r.start < r.end <= d.Start(line + 1) - d.Start(line)
  {
    if hs != [] {
      RunsInBounds(d, hs[..|hs| - 1], line);
    }
  }
}
