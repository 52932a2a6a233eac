/** The rename caret and the accepted completion's caret, beside `shiftThroughEdits`. */
module CaretMaps {
  import opened TextEdits
  import opened OffsetMaps

  // ---------- renameShiftOffset ----------

  predicate BySpan(a: Edit, b: Edit) {
    if a.start != b.start then a.start < b.start else a.end < b.end
  }

  function RenameFrom(off: nat, s: seq<Edit>, delta: int): int {
    if s == [] then off + delta
    else if s[0].end <= off then RenameFrom(off, s[1..], delta + Delta(s[0]))
    else if s[0].start <= off then s[0].start + delta + |s[0].text|
    else RenameFrom(off, s[1..], delta)
  }

  function Rename(off: nat, edits: seq<Edit>): int {
    RenameFrom(off, SortBy(BySpan, edits), 0)
  }

  method RenameShiftOffset(off: nat, edits: seq<Edit>) returns (r: int)
    ensures r == Rename(off, edits)
  {
    var spans := SortBy(BySpan, edits);
    var delta := 0;
    for k := 0 to |spans|
      invariant RenameFrom(off, spans[k..], delta) == Rename(off, edits)
    {
      var s := spans[k];
      assert spans[k..][1..] == spans[k + 1..];
      if s.end <= off {
        delta := delta + |s.text| - (s.end - s.start);
      } else if s.start <= off {
        return s.start + delta + |s.text|;
      }
    }
    return off + delta;
  }

  predicate Covers(e: Edit, off: nat) {
    e.start <= off < e.end
  }

  function DeltaThrough(off: nat): Edit -> int {
    (e: Edit) => if e.end <= off then Delta(e) else 0
  }

  lemma {:induction false} RenameFromUncovered(off: nat, s: seq<Edit>, delta: int)
    requires forall i :: 0 <= i < |s| ==> s[i].start <= s[i].end && !Covers(s[i], off)
    ensures RenameFrom(off, s, delta) == off + delta + Sum(DeltaThrough(off), s)
  {
    if s != [] {
      SumCons(DeltaThrough(off), s);
      RenameFromUncovered(off, s[1..], if s[0].end <= off then delta + Delta(s[0]) else delta);
    }
  }

  lemma {:induction false} RenameFromCovered(off: nat, s: seq<Edit>, delta: int, k: nat, n: nat)
    requires Batch(s, n) && Sorted(BySpan, s) && k < |s| && Covers(s[k], off)
    ensures RenameFrom(off, s, delta) == s[k].start + |s[k].text| + delta + Sum(DeltaThrough(off), s)
  {
    hide Sum, Batch, Sorted;
    SumCons(DeltaThrough(off), s);
    SpanTail(s, n, k, off);
    if k == 0 {
      SumEq(DeltaThrough(off), Nothing(), s[1..]);
      SumNothing(s[1..]);
    } else {
      RenameFromCovered(off, s[1..], delta + Delta(s[0]), k - 1, n);
    }
  }

  lemma SpanTail(s: seq<Edit>, n: nat, k: nat, off: nat)
    requires Batch(s, n) && Sorted(BySpan, s) && k < |s| && Covers(s[k], off)
    ensures Batch(s[1..], n) && Sorted(BySpan, s[1..])
    ensures k == 0 ==> forall i :: 0 <= i < |s[1..]| ==> s[1..][i].end > off
    ensures k > 0 ==> s[0].end <= off
    ensures s[0].start <= s[0].end
  {
    forall i | k < i < |s| ensures s[i].end > off {
      assert Apart(s[k], s[i]) && !BySpan(s[i], s[k]);
    }
    if k > 0 {
      assert Apart(s[0], s[k]) && !BySpan(s[k], s[0]);
    }
  }

  lemma SortedBySpan(edits: seq<Edit>, n: nat)
    requires Batch(edits, n)
    ensures Sorted(BySpan, SortBy(BySpan, edits)) && Batch(SortBy(BySpan, edits), n)
    ensures multiset(SortBy(BySpan, edits)) == multiset(edits)
  {
    SortBySorts(BySpan, edits);
    BatchReordered(edits, SortBy(BySpan, edits), n);
  }

  /** Edits that end at or before an open offset: those before it and its insertions. */
  lemma ThroughOpen(edits: seq<Edit>, n: nat, off: nat)
    requires Batch(edits, n) && forall i :: 0 <= i < |edits| ==> !Covers(edits[i], off)
    ensures off + Sum(DeltaThrough(off), edits) == AfterInserts(edits, off)
  {
    SumAdds(DeltaThrough(off), DeltaBefore(off), InsertDelta(off), edits);
  }

  lemma ThroughCovered(edits: seq<Edit>, n: nat, off: nat, e: Edit)
    requires Batch(edits, n) && e in edits && Covers(e, off)
    ensures e.start + Sum(DeltaThrough(off), edits) == AfterInserts(edits, e.start)
  {
    var k :| 0 <= k < |edits| && edits[k] == e;
    forall i | 0 <= i < |edits|
      ensures DeltaThrough(off)(edits[i]) == DeltaBefore(e.start)(edits[i]) + InsertDelta(e.start)(edits[i])
    {
      if i != k {
        ApartAt(edits, n, i, k);
      }
    }
    SumAdds(DeltaThrough(off), DeltaBefore(e.start), InsertDelta(e.start), edits);
  }

  /** The rename caret is exact for every batch: an offset a replaced span covers maps to
      the end of its replacement, any other to the place behind the insertions at it
      where the same suffix begins. */
  lemma RenameExact(text: string, edits: seq<Edit>, off: nat)
    requires Batch(edits, |text|) && off <= |text|
    ensures (forall i :: 0 <= i < |edits| ==> !Covers(edits[i], off)) ==>
              && Rename(off, edits) == AfterInserts(edits, off)
              && Begins(Edited(text, edits, 0, Reversed), Rename(off, edits), Kept(text, edits, off, Reversed))
    ensures forall i :: 0 <= i < |edits| && Covers(edits[i], off) ==>
              && Rename(off, edits) == EndOf(edits, edits[i])
              && Ends(Edited(text, edits, 0, Reversed), Rename(off, edits), edits[i].text)
              && edits[i].end <= |text|
              && Begins(Edited(text, edits, 0, Reversed), Rename(off, edits), Edited(text, edits, edits[i].end, Reversed))
  {
    hide Edited, Kept, Begins, Ends, Sorted, RenameFrom, InsertBy, SortBy;
    var s, n := SortBy(BySpan, edits), |text|;
    SortedBySpan(edits, n);
    SameMembers(edits, s);
    SameMembers(s, edits);
    BatchFits(s, n);
    BatchFits(edits, n);
    SumSortBy(BySpan, DeltaThrough(off), edits);
    if forall i :: 0 <= i < |edits| ==> !Covers(edits[i], off) {
      RenameFromUncovered(off, s, 0);
      ThroughOpen(edits, n, off);
      SuffixBegins(text, edits, off);
    } else {
      forall i | 0 <= i < |edits| && Covers(edits[i], off)
        ensures Rename(off, edits) == EndOf(edits, edits[i])
        ensures Ends(Edited(text, edits, 0, Reversed), Rename(off, edits), edits[i].text)
        ensures Begins(Edited(text, edits, 0, Reversed), Rename(off, edits), Edited(text, edits, edits[i].end, Reversed))
      {
        var e := edits[i];
        var k :| 0 <= k < |s| && s[k] == e;
        RenameFromCovered(off, s, 0, k, n);
        ThroughCovered(edits, n, off, e);
        AtEnd(edits, n, e);
        ReplacementEnds(text, edits, e);
      }
    }
  }

  // ---------- Agreement on separated edits ----------

  /** No two edits touch or share a position. */
  predicate Separated(edits: seq<Edit>) {
    forall i, j :: 0 <= i < j < |edits| ==> edits[i].end < edits[j].start || edits[j].end < edits[i].start
  }

  lemma OnlyTouch(edits: seq<Edit>, off: nat, i: nat, j: nat)
    requires Separated(edits) && i < |edits| && j < |edits| && Touches(edits[i], off) && Touches(edits[j], off)
    ensures i == j
  {
  }

  lemma SeparatedReordered(a: seq<Edit>, b: seq<Edit>)
    requires Separated(a) && multiset(a) == multiset(b)
    ensures Separated(b)
  {
    forall i, j | 0 <= i < j < |b| ensures b[i].end < b[j].start || b[j].end < b[i].start {
      PairFound(a, b, i, j);
      var k, l :| 0 <= k < |a| && 0 <= l < |a| && k != l && a[k] == b[i] && a[l] == b[j];
      assert k < l || l < k;
    }
  }

  /** The first edit of `s` that touches the offset, or `|s|`. */
  function FirstTouchOf(s: seq<Edit>, off: nat): (k: nat)
    ensures k <= |s| && (k < |s| ==> FirstTouch(s, off, k))
    ensures k == |s| ==> forall i :: 0 <= i < |s| ==> !Touches(s[i], off)
  {
    if s == [] then 0
    else
      var k := FirstTouchOf(s[..|s| - 1], off);
      if k < |s| - 1 then k else if Touches(s[k], off) then k else |s|
  }

  lemma SeparatedAlone(s: seq<Edit>, n: nat, k: nat, p: nat)
    requires Batch(s, n) && Separated(s) && k < |s| && Touches(s[k], p)
    ensures Sum(InsertDelta(p), s[k + 1..]) == 0
    ensures s[k].start < s[k].end ==> Sum(InsertDelta(p), s) == 0
  {
    forall i | 0 <= i < |s| && i != k ensures InsertDelta(p)(s[i]) == 0 {
      if Touches(s[i], p) {
        OnlyTouch(s, p, i, k);
      }
    }
    SumEq(InsertDelta(p), Nothing(), s[k + 1..]);
    SumNothing(s[k + 1..]);
    if s[k].start < s[k].end {
      SumEq(InsertDelta(p), Nothing(), s);
      SumNothing(s);
    }
  }

  lemma NoInsertDelta(s: seq<Edit>, p: nat)
    requires forall i :: 0 <= i < |s| ==> !Touches(s[i], p)
    ensures Sum(InsertDelta(p), s) == 0
  {
    SumEq(InsertDelta(p), Nothing(), s);
    SumNothing(s);
  }

  /** On edits no two of which touch, the rename caret and `shiftThroughEdits` are the
      same map, at every offset and for every listing. */
  lemma RenameAgrees(text: string, edits: seq<Edit>, off: nat)
    requires Batch(edits, |text|) && Separated(edits) && off <= |text|
    ensures Rename(off, edits) == Shift(off, edits)
  {
    hide Edited, Kept, Begins, Ends, Sorted, RenameFrom, Rename, InsertBy, SortBy, ShiftFrom, Separated;
    var s, n := SortBy(ByStart, edits), |text|;
    SortedByStart(edits, n);
    SameMembers(edits, s);
    SameMembers(s, edits);
    BatchFits(edits, n);
    BatchFits(s, n);
    SeparatedReordered(edits, s);
    RenameExact(text, edits, off);
    var k := FirstTouchOf(s, off);
    if k == |s| {
      ShiftFromOutside(off, s, 0);
      SumSortBy(ByStart, DeltaBefore(off), edits);
      NoInsertDelta(edits, off);
    } else {
      var e := s[k];
      SeparatedAlone(s, n, k, e.start);
      ShiftTouchedGap(edits, n, off, k);
      if !Covers(e, off) {
        SumSortBy(ByStart, InsertDelta(off), edits);
        UncoveredTouch(edits, s, off, k);
        UncoveredEnd(edits, s, n, off, k);
      }
    }
  }

  lemma UncoveredTouch(edits: seq<Edit>, s: seq<Edit>, off: nat, k: nat)
    requires Separated(s) && multiset(s) == multiset(edits)
    requires k < |s| && Touches(s[k], off) && !Covers(s[k], off)
    ensures forall i :: 0 <= i < |edits| ==> !Covers(edits[i], off)
  {
    SameMembers(s, edits);
    forall i | 0 <= i < |edits| ensures !Covers(edits[i], off) {
      var j :| 0 <= j < |s| && s[j] == edits[i];
      if Covers(s[j], off) {
        OnlyTouch(s, off, j, k);
      }
    }
  }

  lemma UncoveredEnd(edits: seq<Edit>, s: seq<Edit>, n: nat, off: nat, k: nat)
    requires Batch(s, n) && Separated(s) && k < |s| && Touches(s[k], off) && !Covers(s[k], off)
    requires Sum(InsertDelta(off), s) == Sum(InsertDelta(off), edits)
    ensures AfterInserts(edits, off) == EndOf(edits, s[k])
  {
    hide Separated, Batch;
    SeparatedAlone(s, n, k, off);
  }

  /** Separation is needed: where two replacements touch, one caret map answers the end
      of the first and the other the end of the second. */
  lemma TouchingDisagrees()
    ensures var edits := [Edit(0, 1, "a"), Edit(1, 2, "bb")];
            Batch(edits, 2) && Shift(1, edits) == 1 && Rename(1, edits) == 3
  {
    var edits := [Edit(0, 1, "a"), Edit(1, 2, "bb")];
    assert edits[..1] == [edits[0]] && edits[..1][..0] == [] && edits[1..] == [edits[1]];
    assert SortBy(ByStart, edits[..1]) == [edits[0]] && SortBy(BySpan, edits[..1]) == [edits[0]];
    assert SortBy(ByStart, edits) == edits && SortBy(BySpan, edits) == edits;
    assert RenameFrom(1, edits, 0) == RenameFrom(1, edits[1..], 0);
  }

  // ---------- Order of listing ----------

  lemma Without(b: seq<Edit>, k: nat)
    requires k < |b|
    ensures multiset(b[..k] + b[k + 1..]) == multiset(b) - multiset{b[k]}
  {
    assert b == b[..k] + [b[k]] + b[k + 1..];
  }

  lemma SumWithout(f: Edit -> int, b: seq<Edit>, k: nat)
    requires k < |b|
    ensures Sum(f, b) == Sum(f, b[..k] + b[k + 1..]) + f(b[k])
  {
    hide Sum;
    assert b[..k] + b[k..] == b && b[k..][1..] == b[k + 1..];
    SumSplit(f, b[..k], b[k..]);
    SumCons(f, b[k..]);
    SumSplit(f, b[..k], b[k + 1..]);
  }

  lemma {:induction false} SumPermuted(f: Edit -> int, a: seq<Edit>, b: seq<Edit>)
    requires multiset(a) == multiset(b)
    ensures Sum(f, a) == Sum(f, b)
    decreases |a|
  {
    if a == [] {
      assert |multiset(b)| == 0;
    } else {
      var n := |a| - 1;
      assert a[n] in multiset(b);
      var k :| 0 <= k < |b| && b[k] == a[n];
      Without(a, n);
      Without(b, k);
      assert a[..n] + a[n + 1..] == a[..n];
      SumPermuted(f, a[..n], b[..k] + b[k + 1..]);
      SumWithout(f, b, k);
    }
  }

  /** The rename caret does not depend on how the batch is listed, whatever touches. */
  lemma RenameAnyOrder(text: string, a: seq<Edit>, b: seq<Edit>, off: nat)
    requires Batch(a, |text|) && multiset(a) == multiset(b) && off <= |text|
    ensures Rename(off, a) == Rename(off, b)
  {
    hide Rename, Batch, AfterInserts, EndOf;
    BatchReordered(a, b, |text|);
    SameMembers(a, b);
    SameMembers(b, a);
    RenameIs(text, a, off);
    RenameIs(text, b, off);
    if i :| 0 <= i < |a| && Covers(a[i], off) {
      var j :| 0 <= j < |b| && b[j] == a[i];
      EndOfPermuted(a, b, a[i]);
    } else {
      AfterInsertsPermuted(a, b, off);
    }
  }

  /** The rename caret without the text it is measured in. */
  lemma RenameIs(text: string, edits: seq<Edit>, off: nat)
    requires Batch(edits, |text|) && off <= |text|
    ensures (forall i :: 0 <= i < |edits| ==> !Covers(edits[i], off)) ==> Rename(off, edits) == AfterInserts(edits, off)
    ensures forall i :: 0 <= i < |edits| && Covers(edits[i], off) ==> Rename(off, edits) == EndOf(edits, edits[i])
  {
    hide Edited, Kept, Begins, Ends, Rename, Batch, AfterInserts, EndOf;
    RenameExact(text, edits, off);
  }

  lemma AfterInsertsPermuted(a: seq<Edit>, b: seq<Edit>, p: nat)
    requires multiset(a) == multiset(b)
    ensures At(a, p) == At(b, p) && AfterInserts(a, p) == AfterInserts(b, p)
  {
    hide Sum;
    SumPermuted(DeltaBefore(p), a, b);
    SumPermuted(InsertDelta(p), a, b);
  }

  lemma EndOfPermuted(a: seq<Edit>, b: seq<Edit>, e: Edit)
    requires multiset(a) == multiset(b)
    ensures EndOf(a, e) == EndOf(b, e)
  {
    hide AfterInserts, At;
    AfterInsertsPermuted(a, b, e.start);
    AfterInsertsPermuted(a, b, e.end);
  }

  // ---------- Accepting a completion ----------

  function DeltaUpTo(p: nat): Edit -> int {
    (e: Edit) => if e.start <= p then Delta(e) else 0
  }

  /** The shift both accept paths add to the primary edit's start. */
  function AcceptShift(primary: Edit, additional: seq<Edit>): int {
    Sum(DeltaUpTo(primary.start), additional)
  }

  function AcceptCaret(primary: Edit, additional: seq<Edit>): int {
    primary.start + |primary.text| + AcceptShift(primary, additional)
  }

  /** The caret of a plain accept, with its two clamps against the new length `n`. */
  method AcceptCompletion(primary: Edit, additional: seq<Edit>, n: nat) returns (at: int)
    ensures AcceptCaret(primary, additional) < 0 ==> at == 0
    ensures AcceptCaret(primary, additional) > n ==> at == n
    ensures 0 <= AcceptCaret(primary, additional) <= n ==> at == AcceptCaret(primary, additional)
  {
    at := primary.start + |primary.text|;
    for k := 0 to |additional|
      invariant at == AcceptCaret(primary, additional[..k])
    {
      assert additional[..k + 1][..k] == additional[..k];
      var e := additional[k];
      if e.start <= primary.start {
        at := at + |e.text| - (e.end - e.start);
      }
    }
    assert additional[..|additional|] == additional;
    if at < 0 {
      at := 0;
    }
    if at > n {
      at := n;
    }
  }

  /** Where the snippet session of an accepted snippet starts and ends. */
  method AcceptSnippet(primary: Edit, additional: seq<Edit>) returns (start: int, end: int)
    ensures end == AcceptCaret(primary, additional) && start == end - |primary.text|
  {
    var shift := 0;
    for k := 0 to |additional|
      invariant shift == AcceptShift(primary, additional[..k])
    {
      assert additional[..k + 1][..k] == additional[..k];
      var e := additional[k];
      if e.start <= primary.start {
        shift := shift + |e.text| - (e.end - e.start);
      }
    }
    assert additional[..|additional|] == additional;
    start, end := primary.start + shift, primary.start + shift + |primary.text|;
  }

  lemma SumBatch(f: Edit -> int, primary: Edit, additional: seq<Edit>)
    ensures Sum(f, [primary] + additional) == f(primary) + Sum(f, additional)
  {
    SumCons(f, [primary] + additional);
    assert ([primary] + additional)[1..] == additional;
  }

  /** What an insertion must find at its offset for the accept paths to place it. */
  predicate NothingResizedAt(primary: Edit, additional: seq<Edit>) {
    match Replacement(additional, primary.start)
    case Some(e) => primary.start == primary.end ==> Delta(e) == 0
    case None => true
  }

  lemma AcceptGap(primary: Edit, additional: seq<Edit>, n: nat)
    requires Batch([primary] + additional, n)
    ensures AcceptCaret(primary, additional) == EndOf([primary] + additional, primary)
              + if primary.start == primary.end then Sum(ReplaceDelta(primary.start), additional) else 0
  {
    hide Batch;
    var all, p := [primary] + additional, primary.start;
    assert all[0] == primary;
    BatchFits(all, n);
    BatchRest(primary, additional, n);
    SumBatch(DeltaBefore(p), primary, additional);
    SumBatch(InsertDelta(p), primary, additional);
    if primary.start < primary.end {
      AtEnd(all, n, primary);
      SplitAtReplacement(primary, additional, n);
    } else {
      SplitAtInsertion(additional, n, p);
    }
  }

  lemma SplitAtReplacement(primary: Edit, additional: seq<Edit>, n: nat)
    requires Batch([primary] + additional, n) && primary.start < primary.end
    ensures Sum(DeltaUpTo(primary.start), additional)
         == Sum(DeltaBefore(primary.start), additional) + Sum(InsertDelta(primary.start), additional)
  {
    var all, p := [primary] + additional, primary.start;
    forall i | 0 <= i < |additional|
      ensures DeltaUpTo(p)(additional[i]) == DeltaBefore(p)(additional[i]) + InsertDelta(p)(additional[i])
    {
      assert Apart(all[0], all[i + 1]) && all[i + 1] == additional[i];
    }
    SumAdds(DeltaUpTo(p), DeltaBefore(p), InsertDelta(p), additional);
  }

  lemma SplitAtInsertion(s: seq<Edit>, n: nat, p: nat)
    requires Batch(s, n)
    ensures Sum(DeltaUpTo(p), s) == Sum(DeltaBefore(p), s) + Sum(InsertDelta(p), s) + Sum(ReplaceDelta(p), s)
  {
    SumAdds(DeltaAt(p), InsertDelta(p), ReplaceDelta(p), s);
    SumAdds(DeltaUpTo(p), DeltaBefore(p), DeltaAt(p), s);
  }

  lemma BatchRest(primary: Edit, additional: seq<Edit>, n: nat)
    requires Batch([primary] + additional, n)
    ensures Batch(additional, n)
  {
    var all := [primary] + additional;
    assert forall i :: 0 <= i < |additional| ==> additional[i] == all[i + 1];
    forall i, j | 0 <= i < j < |additional| ensures Apart(additional[i], additional[j]) {
      assert Apart(all[i + 1], all[j + 1]);
    }
  }

  /** The chosen text ends at `EndOf` in the new text, and the caret is there if and only
      if the chosen edit replaces something, or no additional edit that starts at its
      offset changes the length of what it replaces. */
  lemma AcceptCaretExact(text: string, primary: Edit, additional: seq<Edit>)
    requires Batch([primary] + additional, |text|)
    ensures var all := [primary] + additional;
            && Ends(Edited(text, all, 0, Reversed), EndOf(all, primary), primary.text)
            && (AcceptCaret(primary, additional) == EndOf(all, primary) <==> NothingResizedAt(primary, additional))
  {
    hide Edited, Kept, Begins, Ends, EndOf, Inserted;
    var all, n := [primary] + additional, |text|;
    assert all[0] == primary;
    BatchFits(all, n);
    BatchRest(primary, additional, n);
    AcceptGap(primary, additional, n);
    ReplacedSum(additional, primary.start, n);
    if primary.start < primary.end {
      ReplacementEnds(text, all, primary);
    } else {
      FirstInsertIsLast(all, 0, primary.start);
      InsertionEnds(text, all, primary);
    }
  }

  /** An additional edit that deletes text from the chosen insertion's offset on drags the
      caret below zero, so the accept path's clamp does fire. */
  lemma AcceptClampFires()
    ensures var primary, additional := Edit(0, 0, "w"), [Edit(0, 5, "")];
            && Batch([primary] + additional, 5)
            && AcceptCaret(primary, additional) == -4
            && EndOf([primary] + additional, primary) == 1
  {
    var primary, additional := Edit(0, 0, "w"), [Edit(0, 5, "")];
    assert additional[..0] == [];
    assert Sum(DeltaUpTo(0), additional) == -5;
    SumBatch(DeltaBefore(0), primary, additional);
    SumBatch(InsertDelta(0), primary, additional);
  }

  /** The caret does not depend on the order of the additional edits. */
  lemma AcceptAnyOrder(primary: Edit, a: seq<Edit>, b: seq<Edit>)
    requires multiset(a) == multiset(b)
    ensures AcceptCaret(primary, a) == AcceptCaret(primary, b)
  {
    SumPermuted(DeltaUpTo(primary.start), a, b);
  }

  /** On separated edits all three caret maps are one: the accept caret is where
      `shiftThroughEdits` puts the chosen edit's start. */
  lemma AcceptAgrees(text: string, primary: Edit, additional: seq<Edit>)
    requires Batch([primary] + additional, |text|) && Separated([primary] + additional)
    ensures AcceptCaret(primary, additional) == Shift(primary.start, [primary] + additional)
  {
    hide Edited, Kept, Begins, Ends, EndOf, Inserted, SortBy, ShiftFrom, Shift, Sorted, Separated;
    var all, n := [primary] + additional, |text|;
    var s, p := SortBy(ByStart, all), primary.start;
    assert all[0] == primary;
    BatchFits(all, n);
    SortedByStart(all, n);
    SameMembers(s, all);
    SameMembers(all, s);
    SeparatedReordered(all, s);
    assert primary in all;
    var j :| 0 <= j < |s| && s[j] == primary;
    var k := FirstTouchOf(s, p);
    OnlyTouch(s, p, j, k);
    SeparatedAlone(s, n, k, p);
    ShiftTouchedGap(all, n, p, k);
    AcceptCaretExact(text, primary, additional);
    SeparatedNothingAt(primary, additional);
  }

  lemma SeparatedNothingAt(primary: Edit, additional: seq<Edit>)
    requires Separated([primary] + additional) && primary.start <= primary.end
    ensures NothingResizedAt(primary, additional)
  {
    if Replacement(additional, primary.start).Some? {
      var all := [primary] + additional;
      var i :| 0 <= i < |additional| && additional[i] == Replacement(additional, primary.start).value;
      OnlyTouch(all, primary.start, 0, i + 1);
    }
  }
}
