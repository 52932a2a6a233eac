/** The caret maps through a batch of edits, against the simultaneous replacement. */
module OffsetMaps {
  import opened Options
  import opened TextEdits

  // ---------- Where an offset of the old text falls in the new one ----------

  function DeltaBefore(p: nat): Edit -> int {
    (e: Edit) => if e.start < p then Delta(e) else 0
  }

  function DeltaFrom(p: nat): Edit -> int {
    (e: Edit) => if e.start >= p then Delta(e) else 0
  }

  function DeltaAt(p: nat): Edit -> int {
    (e: Edit) => if e.start == p then Delta(e) else 0
  }

  function InsertDelta(p: nat): Edit -> int {
    (e: Edit) => if IsInsertAt(e, p) then |e.text| else 0
  }

  function ReplaceDelta(p: nat): Edit -> int {
    (e: Edit) => if e.start == p < e.end then Delta(e) else 0
  }

  /** In front of everything the new text puts at `p`. */
  function At(edits: seq<Edit>, p: nat): int {
    p + Sum(DeltaBefore(p), edits)
  }

  /** Behind the insertions at `p`, in front of what replaces or keeps `p` itself. */
  function AfterInserts(edits: seq<Edit>, p: nat): int {
    At(edits, p) + Sum(InsertDelta(p), edits)
  }

  lemma {:induction false} InsertedSum(edits: seq<Edit>, p: nat)
    ensures |Inserted(edits, p, Reversed)| == Sum(InsertDelta(p), edits)
  {
    if edits != [] {
      InsertedSum(edits[..|edits| - 1], p);
    }
  }

  lemma {:induction false} ReplacedSum(edits: seq<Edit>, p: nat, n: nat)
    requires Batch(edits, n)
    ensures Sum(ReplaceDelta(p), edits) == match Replacement(edits, p) case Some(e) => Delta(e) case None => 0
  {
    if edits != [] {
      var init, last := edits[..|edits| - 1], edits[|edits| - 1];
      ReplacedSum(init, p, n);
    }
  }

  /** The new text from an open offset on is as long as the rest of the old one plus
      what the edits from there on add. */
  lemma {:induction false} EditedLength(text: string, edits: seq<Edit>, p: nat)
    requires Batch(edits, |text|) && p <= |text| && Open(edits, p)
    ensures |Edited(text, edits, p, Reversed)| == |text| - p + Sum(DeltaFrom(p), edits)
    decreases |text| - p
  {
    var n := |text|;
    InsertedSum(edits, p);
    ReplacedSum(edits, p, n);
    SumAdds(DeltaAt(p), InsertDelta(p), ReplaceDelta(p), edits);
    match Replacement(edits, p) {
      case Some(e) =>
        SpanIsClear(edits, n, e);
        EditedLength(text, edits, e.end);
        SumAdds(DeltaFrom(p), DeltaAt(p), DeltaFrom(e.end), edits);
      case None =>
        if p < n {
          EditedLength(text, edits, p + 1);
          SumAdds(DeltaFrom(p), DeltaAt(p), DeltaFrom(p + 1), edits);
        } else {
          SumEq(DeltaFrom(p), DeltaAt(p), edits);
        }
    }
  }

  predicate EndsWith(a: string, b: string) {
    |b| <= |a| && a[|a| - |b|..] == b
  }

  lemma EndsWithMore(pre: string, a: string, b: string)
    requires EndsWith(a, b)
    ensures EndsWith(pre + a, b)
  {
  }

  lemma {:induction false} EditedSuffix(text: string, edits: seq<Edit>, q: nat, p: nat)
    requires Batch(edits, |text|) && q <= p <= |text| && Open(edits, q) && Open(edits, p)
    ensures EndsWith(Edited(text, edits, q, Reversed), Edited(text, edits, p, Reversed))
    decreases |text| - q
  {
    if q < p {
      var ins := Inserted(edits, q, Reversed);
      match Replacement(edits, q) {
        case Some(e) =>
          SpanIsClear(edits, |text|, e);
          EditedSuffix(text, edits, e.end, p);
          EndsWithMore(e.text, Edited(text, edits, e.end, Reversed), Edited(text, edits, p, Reversed));
        case None =>
          EditedSuffix(text, edits, q + 1, p);
          EndsWithMore([text[q]], Edited(text, edits, q + 1, Reversed), Edited(text, edits, p, Reversed));
      }
      EndsWithMore(ins, Kept(text, edits, q, Reversed), Edited(text, edits, p, Reversed));
    }
  }

  /** `at` is the place in the new text `r` where `rest` begins and runs to the end. */
  predicate Begins(r: string, at: int, rest: string) {
    0 <= at <= |r| && r[at..] == rest
  }

  /** An open offset falls where the same suffix, with its own edits applied, begins;
      and what follows the insertions there begins behind them. */
  lemma SuffixBegins(text: string, edits: seq<Edit>, p: nat)
    requires Batch(edits, |text|) && p <= |text| && Open(edits, p)
    ensures Begins(Edited(text, edits, 0, Reversed), At(edits, p), Edited(text, edits, p, Reversed))
    ensures Begins(Edited(text, edits, 0, Reversed), AfterInserts(edits, p), Kept(text, edits, p, Reversed))
  {
    hide Inserted, Kept;
    EditedLength(text, edits, 0);
    EditedLength(text, edits, p);
    EditedSuffix(text, edits, 0, p);
    SumAdds(DeltaFrom(0), DeltaBefore(p), DeltaFrom(p), edits);
    InsertedSum(edits, p);
    var r, e, k := Edited(text, edits, 0, Reversed), Edited(text, edits, p, Reversed), Kept(text, edits, p, Reversed);
    assert e == Inserted(edits, p, Reversed) + k;
    assert r[|r| - |k|..] == r[|r| - |e|..][|e| - |k|..];
  }

  // ---------- shiftThroughEdits ----------

  predicate ByStart(a: Edit, b: Edit) {
    a.start < b.start
  }

  function ShiftFrom(off: nat, s: seq<Edit>, shift: int): int {
    if s == [] || off < s[0].start then off + shift
    else if off <= s[0].end then s[0].start + shift + |s[0].text|
    else ShiftFrom(off, s[1..], shift + Delta(s[0]))
  }

  function Shift(off: nat, edits: seq<Edit>): int {
    ShiftFrom(off, SortBy(ByStart, edits), 0)
  }

  method ShiftThroughEdits(off: nat, edits: seq<Edit>) returns (r: int)
    ensures r == Shift(off, edits)
  {
    var sorted := SortBy(ByStart, edits);
    var shift := 0;
    for k := 0 to |sorted|
      invariant ShiftFrom(off, sorted[k..], shift) == Shift(off, edits)
    {
      var e := sorted[k];
      assert sorted[k..][1..] == sorted[k + 1..];
      if off < e.start {
        break;
      }
      if off <= e.end {
        return e.start + shift + |e.text|;
      }
      shift := shift + |e.text| - (e.end - e.start);
    }
    return off + shift;
  }

  lemma ByStartOrders()
    ensures Ordering(ByStart)
  {
  }

  lemma SortedByStart(edits: seq<Edit>, n: nat)
    requires Batch(edits, n)
    ensures Sorted(ByStart, SortBy(ByStart, edits)) && Batch(SortBy(ByStart, edits), n)
    ensures multiset(SortBy(ByStart, edits)) == multiset(edits)
  {
    ByStartOrders();
    SortBySorts(ByStart, edits);
    BatchReordered(edits, SortBy(ByStart, edits), n);
  }

  predicate Touches(e: Edit, off: nat) {
    e.start <= off <= e.end
  }

  lemma {:induction false} SumCons(f: Edit -> int, s: seq<Edit>)
    requires s != []
    ensures Sum(f, s) == f(s[0]) + Sum(f, s[1..])
  {
    if |s| > 1 {
      SumCons(f, s[..|s| - 1]);
      assert s[1..][..|s| - 2] == s[..|s| - 1][1..];
    }
  }

  lemma {:induction false} ShiftFromOutside(off: nat, s: seq<Edit>, shift: int)
    requires Sorted(ByStart, s) && (forall i :: 0 <= i < |s| ==> s[i].start <= s[i].end && !Touches(s[i], off))
    ensures ShiftFrom(off, s, shift) == off + shift + Sum(DeltaBefore(off), s)
  {
    if s != [] {
      SumCons(DeltaBefore(off), s);
      if s[0].start <= off {
        ShiftFromOutside(off, s[1..], shift + Delta(s[0]));
      } else {
        forall i | 0 <= i < |s| ensures DeltaBefore(off)(s[i]) == Nothing()(s[i]) {
          assert !ByStart(s[i], s[0]) || i == 0;
        }
        SumEq(DeltaBefore(off), Nothing(), s);
        SumNothing(s);
      }
    }
  }

  function Nothing(): Edit -> int {
    (e: Edit) => 0
  }

  lemma {:induction false} SumNothing(s: seq<Edit>)
    ensures Sum(Nothing(), s) == 0
  {
    if s != [] {
      SumNothing(s[..|s| - 1]);
    }
  }

  lemma OpenUntouched(edits: seq<Edit>, n: nat, off: nat)
    requires Batch(edits, n) && forall i :: 0 <= i < |edits| ==> !Touches(edits[i], off)
    ensures Open(edits, off)
  {
  }

  /** An offset strictly outside every closed span maps to the place in the edited text
      where the same suffix begins, in whatever order the batch lists its edits. */
  lemma ShiftOutside(text: string, edits: seq<Edit>, off: nat)
    requires Batch(edits, |text|) && off <= |text|
    requires forall i :: 0 <= i < |edits| ==> !Touches(edits[i], off)
    ensures Begins(Edited(text, edits, 0, Reversed), Shift(off, edits), Edited(text, edits, off, Reversed))
  {
    hide Edited, Kept, Inserted, Replacement, Batch, Begins, Sorted, SortBy, InsertBy, ShiftFrom, Sum, Apart;
    var s := SortBy(ByStart, edits);
    SortedByStart(edits, |text|);
    SameMembers(edits, s);
    BatchFits(s, |text|);
    OpenUntouched(edits, |text|, off);
    ShiftFromOutside(off, s, 0);
    SumSortBy(ByStart, DeltaBefore(off), edits);
    SuffixBegins(text, edits, off);
  }

  lemma BatchFits(s: seq<Edit>, n: nat)
    requires Batch(s, n)
    ensures forall i :: 0 <= i < |s| ==> s[i].start <= s[i].end <= n
  {
  }

  lemma SameMembers(a: seq<Edit>, b: seq<Edit>)
    requires multiset(a) == multiset(b)
    ensures forall i :: 0 <= i < |b| ==> b[i] in a
  {
    forall i | 0 <= i < |b| ensures b[i] in a {
      assert b[i] in multiset(b);
    }
  }

  // ---------- Bounds and monotonicity ----------

  /** Every replaced span lies at or after `lo`; insertions may lie anywhere. */
  predicate Above(s: seq<Edit>, lo: int) {
    forall i :: 0 <= i < |s| ==> s[i].start >= lo || s[i].start == s[i].end
  }

  predicate Chain(s: seq<Edit>, n: nat) {
    Sorted(ByStart, s) && Batch(s, n)
  }

  lemma ChainTail(s: seq<Edit>, n: nat)
    requires Chain(s, n) && s != []
    ensures Chain(s[1..], n) && Above(s[1..], s[0].end)
  {
    forall i | 1 <= i < |s| ensures s[i].start >= s[0].end || s[i].start == s[i].end {
      assert Apart(s[0], s[i]) && !ByStart(s[i], s[0]);
    }
  }

  lemma {:induction false} ShiftFromLow(off: nat, s: seq<Edit>, shift: int, lo: int, n: nat)
    requires Chain(s, n) && Above(s, lo) && lo <= off
    ensures ShiftFrom(off, s, shift) >= lo + shift
  {
    if s != [] && s[0].end < off {
      ChainTail(s, n);
      var lo' := if s[0].start == s[0].end then lo else s[0].end;
      ShiftFromLow(off, s[1..], shift + Delta(s[0]), lo', n);
    }
  }

  function Deltas(): Edit -> int {
    (e: Edit) => Delta(e)
  }

  /** The edits past `lo` cannot delete more than there is. */
  lemma {:induction false} ChainRoom(s: seq<Edit>, lo: int, n: nat)
    requires Chain(s, n) && Above(s, lo) && lo <= n
    ensures lo <= n + Sum(Deltas(), s)
  {
    if s != [] {
      ChainTail(s, n);
      SumCons(Deltas(), s);
      ChainRoom(s[1..], if s[0].start == s[0].end then lo else s[0].end, n);
    }
  }

  lemma {:induction false} ShiftFromHigh(off: nat, s: seq<Edit>, shift: int, n: nat)
    requires Chain(s, n) && off <= n
    ensures ShiftFrom(off, s, shift) <= n + shift + Sum(Deltas(), s)
  {
    if s != [] {
      ChainTail(s, n);
      SumCons(Deltas(), s);
      if off < s[0].start {
        StartsAbove(s, n, off);
        ChainRoom(s, off, n);
      } else if off <= s[0].end {
        ChainRoom(s[1..], s[0].end, n);
      } else {
        ShiftFromHigh(off, s[1..], shift + Delta(s[0]), n);
      }
    }
  }

  lemma StartsAbove(s: seq<Edit>, n: nat, off: nat)
    requires Chain(s, n) && (s == [] || off < s[0].start)
    ensures Above(s, off)
  {
    forall i | 0 <= i < |s| ensures s[i].start >= off {
      assert i > 0 ==> !ByStart(s[i], s[0]);
    }
  }

  lemma {:induction false} ShiftFromMonotone(lo: nat, hi: nat, s: seq<Edit>, shift: int, n: nat)
    requires Chain(s, n) && lo <= hi
    ensures ShiftFrom(lo, s, shift) <= ShiftFrom(hi, s, shift)
  {
    if s == [] || lo < s[0].start {
      StartsAbove(s, n, lo);
      ShiftFromLow(hi, s, shift, lo, n);
    } else {
      ChainTail(s, n);
      if lo > s[0].end {
        ShiftFromMonotone(lo, hi, s[1..], shift + Delta(s[0]), n);
      } else if hi > s[0].end {
        ShiftFromLow(hi, s[1..], shift + Delta(s[0]), s[0].end, n);
      }
    }
  }

  /** For every batch, however its edits touch or share positions, the caret map keeps
      order and stays inside the new text, so neither clamp at its callers fires. */
  lemma ShiftMonotoneInBounds(text: string, edits: seq<Edit>, lo: nat, hi: nat)
    requires Batch(edits, |text|) && lo <= hi <= |text|
    ensures 0 <= Shift(lo, edits) <= Shift(hi, edits) <= |Edited(text, edits, 0, Reversed)|
  {
    hide Edited, ShiftFrom;
    var s, n := SortBy(ByStart, edits), |text|;
    SortedByStart(edits, n);
    ShiftFromMonotone(lo, hi, s, 0, n);
    ShiftFromLow(lo, s, 0, 0, n);
    ShiftFromHigh(hi, s, 0, n);
    EditedLength(text, edits, 0);
    SumEq(DeltaFrom(0), Deltas(), edits);
    SumSortBy(ByStart, Deltas(), edits);
  }

  // ---------- An offset inside or on a span ----------

  predicate FirstTouch(s: seq<Edit>, off: nat, k: nat) {
    k < |s| && Touches(s[k], off) && forall i :: 0 <= i < k ==> !Touches(s[i], off)
  }

  lemma {:induction false} ShiftFromTouched(off: nat, s: seq<Edit>, shift: int, k: nat, n: nat)
    requires Chain(s, n) && FirstTouch(s, off, k)
    ensures ShiftFrom(off, s, shift) == s[k].start + |s[k].text| + shift + Sum(Deltas(), s[..k])
  {
    if k > 0 {
      assert !ByStart(s[k], s[0]);
      SumCons(Deltas(), s[..k]);
      assert s[..k][1..] == s[1..][..k - 1];
      ChainTail(s, n);
      ShiftFromTouched(off, s[1..], shift + Delta(s[0]), k - 1, n);
    }
  }

  lemma {:induction false} SumSplit(f: Edit -> int, a: seq<Edit>, b: seq<Edit>)
    ensures Sum(f, a + b) == Sum(f, a) + Sum(f, b)
  {
    if b == [] {
      assert a + b == a;
    } else {
      assert (a + b)[..|a + b| - 1] == a + b[..|b| - 1];
      SumSplit(f, a, b[..|b| - 1]);
    }
  }

  lemma BeforeTouch(s: seq<Edit>, off: nat, k: nat, n: nat)
    requires Chain(s, n) && FirstTouch(s, off, k)
    ensures Sum(Deltas(), s[..k]) == Sum(DeltaBefore(s[k].start), s) + Sum(InsertDelta(s[k].start), s[..k])
  {
    var p := s[k].start;
    forall i | 0 <= i < k ensures Delta(s[i]) == DeltaBefore(p)(s[i]) + InsertDelta(p)(s[i]) {
      assert !ByStart(s[k], s[i]) && Apart(s[i], s[k]) && !Touches(s[i], off);
    }
    SumAdds(Deltas(), DeltaBefore(p), InsertDelta(p), s[..k]);
    forall i | k <= i < |s| ensures DeltaBefore(p)(s[i]) == 0 {
      assert i > k ==> !ByStart(s[i], s[k]);
    }
    SumEq(DeltaBefore(p), Nothing(), s[k..]);
    SumNothing(s[k..]);
    SumSplit(DeltaBefore(p), s[..k], s[k..]);
    assert s[..k] + s[k..] == s;
  }

  /** Behind the text of an edit: behind a replacement, or behind the insertions at its
      offset, of which the first listed comes last. */
  function EndOf(edits: seq<Edit>, e: Edit): int {
    if e.start == e.end then AfterInserts(edits, e.start) else At(edits, e.end)
  }

  /** Behind a replaced span is behind the insertions at its start and its own text. */
  lemma AtEnd(edits: seq<Edit>, n: nat, e: Edit)
    requires Batch(edits, n) && e in edits && e.start < e.end
    ensures At(edits, e.end) == AfterInserts(edits, e.start) + |e.text|
  {
    SpanIsClear(edits, n, e);
    ReplacedSum(edits, e.start, n);
    if Replacement(edits, e.start).Some? {
      SoleReplacement(edits, n, e, Replacement(edits, e.start).value);
    }
    SumAdds(DeltaAt(e.start), InsertDelta(e.start), ReplaceDelta(e.start), edits) by {
      BatchFits(edits, n);
    }
    SumAdds(DeltaBefore(e.end), DeltaBefore(e.start), DeltaAt(e.start), edits);
  }

  lemma ShiftTouchedGap(edits: seq<Edit>, n: nat, off: nat, k: nat)
    requires Batch(edits, n) && FirstTouch(SortBy(ByStart, edits), off, k)
    ensures var s := SortBy(ByStart, edits);
            EndOf(edits, s[k]) == Shift(off, edits) + Sum(InsertDelta(s[k].start), s[k + 1..])
  {
    hide ShiftFrom, InsertBy, SortBy, Sorted, Sum, Batch, AfterInserts, At, Apart;
    var s := SortBy(ByStart, edits);
    SortedByStart(edits, n);
    SameMembers(edits, s);
    ShiftFromTouched(off, s, 0, k, n);
    BeforeTouch(s, off, k, n);
    InsertsSplit(edits, s, k);
    EndOfIs(edits, n, s[k]);
    SumSortBy(ByStart, DeltaBefore(s[k].start), edits);
  }

  /** Where an edit's text ends, from its own start. */
  lemma EndOfIs(edits: seq<Edit>, n: nat, e: Edit)
    requires Batch(edits, n) && e in edits
    ensures e.start <= e.end
    ensures EndOf(edits, e) == e.start + Sum(DeltaBefore(e.start), edits) + Sum(InsertDelta(e.start), edits)
                             + if e.start < e.end then |e.text| else 0
  {
    hide Sum, Batch;
    BatchFits(edits, n);
    if e.start < e.end {
      AtEnd(edits, n, e);
    }
  }

  /** The insertions at an edit's start: those sorted before it, itself, those after. */
  lemma InsertsSplit(edits: seq<Edit>, s: seq<Edit>, k: nat)
    requires s == SortBy(ByStart, edits) && k < |s|
    ensures Sum(InsertDelta(s[k].start), edits)
         == Sum(InsertDelta(s[k].start), s[..k]) + (if s[k].start == s[k].end then |s[k].text| else 0)
            + Sum(InsertDelta(s[k].start), s[k + 1..])
  {
    hide Sum, SortBy;
    var f := InsertDelta(s[k].start);
    SumSortBy(ByStart, f, edits);
    assert s[..k] + s[k..] == s && s[k..][1..] == s[k + 1..];
    SumSplit(f, s[..k], s[k..]);
    SumCons(f, s[k..]);
  }

  /** `t` stands in `r` and ends at `at`. */
  predicate Ends(r: string, at: int, t: string) {
    |t| <= at <= |r| && r[at - |t|..at] == t
  }

  lemma {:induction false} FirstInsertIsLast(s: seq<Edit>, k: nat, p: nat)
    requires k < |s| && IsInsertAt(s[k], p) && forall i :: 0 <= i < k ==> !IsInsertAt(s[i], p)
    ensures EndsWith(Inserted(s, p, Reversed), s[k].text)
  {
    if k == |s| - 1 {
      NoInsert(s[..k], p, Reversed);
    } else {
      FirstInsertIsLast(s[..|s| - 1], k, p);
      EndsWithMore(s[|s| - 1].text, Inserted(s[..|s| - 1], p, Reversed), s[k].text);
    }
  }

  lemma {:induction false} InsertByStartKeeps(s: seq<Edit>, e: Edit, p: nat)
    ensures Inserted(InsertBy(ByStart, s, e), p, Reversed) == Inserted(s + [e], p, Reversed)
  {
    hide Inserted;
    if s != [] && ByStart(e, s[|s| - 1]) {
      var init, last := s[..|s| - 1], s[|s| - 1];
      InsertByStartKeeps(init, e, p);
      assert s == init + [last];
      InsertedAdd(InsertBy(ByStart, init, e), last, p, Reversed);
      InsertedAdd(init, e, p, Reversed);
      InsertedAdd(init, last, p, Reversed);
      InsertedAdd(s, e, p, Reversed);
    }
  }

  lemma {:induction false} SortByStartKeeps(edits: seq<Edit>, p: nat)
    ensures Inserted(SortBy(ByStart, edits), p, Reversed) == Inserted(edits, p, Reversed)
  {
    if edits != [] {
      var init, last := edits[..|edits| - 1], edits[|edits| - 1];
      SortByStartKeeps(init, p);
      var s := SortBy(ByStart, init);
      InsertByStartKeeps(s, last, p);
      assert (s + [last])[..|s|] == s;
    }
  }

  /** What stands on both sides of a replacement's end. */
  lemma ReplacementEnds(text: string, edits: seq<Edit>, e: Edit)
    requires Batch(edits, |text|) && e in edits && e.start < e.end
    ensures Ends(Edited(text, edits, 0, Reversed), EndOf(edits, e), e.text)
    ensures Begins(Edited(text, edits, 0, Reversed), EndOf(edits, e), Edited(text, edits, e.end, Reversed))
  {
    hide Edited, Inserted, Batch, Apart, Sum, Replacement, Open, AfterInserts, At, Begins, Ends, EndsWith;
    var n := |text|;
    BatchFits(edits, n);
    SpanIsClear(edits, n, e);
    SpanStartOpen(edits, n, e);
    SoleAt(edits, n, e);
    AtEnd(edits, n, e);
    SuffixBegins(text, edits, e.end);
    SuffixBegins(text, edits, e.start);
    assert Kept(text, edits, e.start, Reversed) == e.text + Edited(text, edits, e.end, Reversed);
    EndsWithItself(e.text);
    EndsBehind(Edited(text, edits, 0, Reversed), AfterInserts(edits, e.start), e.text,
               Edited(text, edits, e.end, Reversed), e.text);
  }

  lemma EndsWithItself(t: string)
    ensures EndsWith(t, t)
  {
  }

  lemma SoleAt(edits: seq<Edit>, n: nat, e: Edit)
    requires Batch(edits, n) && e in edits && e.start < e.end
    ensures Replacement(edits, e.start) == Some(e)
  {
    if Replacement(edits, e.start).Some? {
      SoleReplacement(edits, n, e, Replacement(edits, e.start).value);
    }
  }

  lemma SpanStartOpen(edits: seq<Edit>, n: nat, e: Edit)
    requires Batch(edits, n) && e in edits
    ensures Open(edits, e.start)
  {
    var k :| 0 <= k < |edits| && edits[k] == e;
    forall i | 0 <= i < |edits| ensures !(edits[i].start < e.start < edits[i].end) {
      if i != k {
        ApartAt(edits, n, i, k);
      }
    }
  }

  lemma EndsBehind(r: string, at: int, ins: string, rest: string, t: string)
    requires Begins(r, at, ins + rest) && EndsWith(ins, t)
    ensures Ends(r, at + |ins|, t)
  {
    assert r == r[..at] + (ins + rest);
    assert r[at..at + |ins|] == ins;
    assert r[at + |ins| - |t|..at + |ins|] == ins[|ins| - |t|..];
  }

  /** What stands on both sides of the first listed insertion's end. */
  lemma InsertionEnds(text: string, edits: seq<Edit>, e: Edit)
    requires Batch(edits, |text|) && e in edits && e.start == e.end
    requires EndsWith(Inserted(edits, e.start, Reversed), e.text)
    ensures Ends(Edited(text, edits, 0, Reversed), EndOf(edits, e), e.text)
    ensures Begins(Edited(text, edits, 0, Reversed), EndOf(edits, e), Kept(text, edits, e.start, Reversed))
  {
    hide Inserted, Kept, Replacement;
    var p := e.start;
    BatchFits(edits, |text|);
    SpanStartOpen(edits, |text|, e);
    SuffixBegins(text, edits, p);
    InsertedSum(edits, p);
    EndsBehind(Edited(text, edits, 0, Reversed), At(edits, p), Inserted(edits, p, Reversed),
               Kept(text, edits, p, Reversed), e.text);
  }

  /** An offset inside or on a span: the first edit it touches, by start and then by
      listing, has its text end at `EndOf`, and what follows that text begins there. The
      caret map answers exactly that place if and only if the insertions at that edit's
      start that are listed after it insert nothing. */
  lemma ShiftTouched(text: string, edits: seq<Edit>, off: nat, k: nat)
    requires Batch(edits, |text|) && FirstTouch(SortBy(ByStart, edits), off, k)
    ensures var s, r := SortBy(ByStart, edits), Edited(text, edits, 0, Reversed);
            var e := s[k];
            && e in edits && Ends(r, EndOf(edits, e), e.text)
            && (e.start < e.end ==> Begins(r, EndOf(edits, e), Edited(text, edits, e.end, Reversed)))
            && (e.start == e.end ==> e.end <= |text| && Begins(r, EndOf(edits, e), Kept(text, edits, e.end, Reversed)))
            && (Shift(off, edits) == EndOf(edits, e) <==> Sum(InsertDelta(e.start), s[k + 1..]) == 0)
  {
    hide Edited, Kept, Inserted, InsertBy, SortBy, ShiftFrom, EndOf, Sorted, Begins, Ends;
    var s := SortBy(ByStart, edits);
    SortedByStart(edits, |text|);
    SameMembers(edits, s);
    BatchFits(s, |text|);
    ShiftTouchedGap(edits, |text|, off, k);
    var e := s[k];
    if e.start < e.end {
      ReplacementEnds(text, edits, e);
    } else {
      forall i | 0 <= i < k ensures !IsInsertAt(s[i], off) {
        assert !Touches(s[i], off);
      }
      FirstInsertIsLast(s, k, off);
      SortByStartKeeps(edits, off);
      InsertionEnds(text, edits, e);
    }
  }

  /** A replacement listed before an insertion at its start: the caret inside the
      replaced span comes to rest inside the replacement's text. */
  lemma InsertListedLater()
    ensures var edits := [Edit(0, 2, "xy"), Edit(0, 0, "ab")];
            && Batch(edits, 2)
            && Edited("pq", edits, 0, Reversed) == "abxy"
            && Shift(1, edits) == 2
  {
    hide Kept, SortBy, Sum;
    var e, i := Edit(0, 2, "xy"), Edit(0, 0, "ab");
    var edits := [e, i];
    assert edits[..1] == [e];
    NoInsert([e], 0, Reversed);
    assert Inserted(edits, 0, Reversed) == "ab";
    PairKept(e, i);
    PairSorted(e, i);
  }

  lemma PairKept(e: Edit, i: Edit)
    requires e == Edit(0, 2, "xy") && i == Edit(0, 0, "ab")
    ensures Kept("pq", [e, i], 0, Reversed) == "xy"
  {
    NoInsert([e, i], 2, Reversed);
    assert [e, i][..1] == [e] && [e][..0] == [];
    assert Replacement([e, i], 2) == None;
    assert Replacement([e, i], 0) == Some(e);
  }

  lemma PairSorted(a: Edit, b: Edit)
    requires a.start <= b.start
    ensures SortBy(ByStart, [a, b]) == [a, b]
  {
    assert [a, b][..1] == [a] && [a][..0] == [];
    assert SortBy(ByStart, [a]) == [a];
    assert [a] + [b] == [a, b];
  }
}
