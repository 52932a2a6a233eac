/** Server edit batches: what applying one means, as one simultaneous replacement. */
module TextEdits {
  import opened Options

  /** A replacement in the original text's coordinates; an insertion has an empty span. */
  datatype Edit = Edit(start: nat, end: nat, text: string)

  function Delta(e: Edit): int {
    |e.text| - (e.end - e.start)
  }

  predicate IsInsertAt(e: Edit, p: nat) {
    e.start == p == e.end
  }

  predicate Apart(a: Edit, b: Edit) {
    a.end <= b.start || b.end <= a.start
  }

  /** In bounds and non-overlapping. Edits may touch, and insertions may share a position. */
  predicate Batch(edits: seq<Edit>, n: nat) {
    && (forall i :: 0 <= i < |edits| ==> edits[i].start <= edits[i].end <= n)
    && forall i, j :: 0 <= i < j < |edits| ==> Apart(edits[i], edits[j])
  }

  // ---------- Stable sorting ----------

  function InsertBy(less: (Edit, Edit) -> bool, s: seq<Edit>, e: Edit): seq<Edit> {
    if s == [] || !less(e, s[|s| - 1]) then s + [e]
    else InsertBy(less, s[..|s| - 1], e) + [s[|s| - 1]]
  }

  /** What `sort.SliceStable` leaves in the copied slice. */
  function SortBy(less: (Edit, Edit) -> bool, edits: seq<Edit>): seq<Edit> {
    if edits == [] then []
    else InsertBy(less, SortBy(less, edits[..|edits| - 1]), edits[|edits| - 1])
  }

  predicate Sorted(less: (Edit, Edit) -> bool, s: seq<Edit>) {
    forall i, j :: 0 <= i < j < |s| ==> !less(s[j], s[i])
  }

  ghost predicate Ordering(less: (Edit, Edit) -> bool) {
    && (forall a, b :: less(a, b) ==> !less(b, a))
    && forall a, b, c :: !less(b, a) && !less(c, b) ==> !less(c, a)
  }

  lemma LastStaysLast(less: (Edit, Edit) -> bool, init: seq<Edit>, e: Edit, last: Edit)
    requires Ordering(less) && Sorted(less, init + [last]) && less(e, last)
    requires multiset(InsertBy(less, init, e)) == multiset(init) + multiset{e}
    ensures forall i :: 0 <= i < |InsertBy(less, init, e)| ==> !less(last, InsertBy(less, init, e)[i])
  {
    hide InsertBy;
    var r, s := InsertBy(less, init, e), init + [last];
    forall i | 0 <= i < |r| ensures !less(last, r[i]) {
      assert r[i] in multiset(r);
      if r[i] != e {
        assert r[i] in init;
        var j :| 0 <= j < |init| && init[j] == r[i];
        assert !less(s[|init|], s[j]);
      }
    }
  }

  lemma SortedInit(less: (Edit, Edit) -> bool, init: seq<Edit>, last: Edit)
    requires Sorted(less, init + [last])
    ensures Sorted(less, init) && forall i :: 0 <= i < |init| ==> !less(last, init[i])
  {
    var s := init + [last];
    forall i, j | 0 <= i < j < |init| ensures !less(init[j], init[i]) {
      assert !less(s[j], s[i]);
    }
    forall i | 0 <= i < |init| ensures !less(last, init[i]) {
      assert !less(s[|init|], s[i]);
    }
  }

  lemma SortedAdd(less: (Edit, Edit) -> bool, s: seq<Edit>, e: Edit)
    requires Sorted(less, s) && forall i :: 0 <= i < |s| ==> !less(e, s[i])
    ensures Sorted(less, s + [e])
  {
  }

  lemma NotBefore(less: (Edit, Edit) -> bool, a: Edit, b: Edit, c: Edit)
    requires Ordering(less) && !less(b, a) && !less(c, b)
    ensures !less(c, a)
  {
  }

  lemma {:induction false} InsertBySorts(less: (Edit, Edit) -> bool, s: seq<Edit>, e: Edit)
    requires Ordering(less) && Sorted(less, s)
    ensures Sorted(less, InsertBy(less, s, e))
    ensures multiset(InsertBy(less, s, e)) == multiset(s) + multiset{e}
  {
    hide Sorted, Ordering;
    if s == [] {
      SortedAdd(less, s, e) by {
        SortedNothing(less);
      }
    } else {
      var init, last := s[..|s| - 1], s[|s| - 1];
      assert s == init + [last];
      SortedInit(less, init, last);
      if less(e, last) {
        InsertBySorts(less, init, e);
        LastStaysLast(less, init, e, last);
        SortedAdd(less, InsertBy(less, init, e), last);
      } else {
        forall i | 0 <= i < |s| ensures !less(e, s[i]) {
          if i < |init| {
            NotBefore(less, s[i], last, e);
          }
        }
        SortedAdd(less, s, e);
      }
    }
  }

  lemma SortedNothing(less: (Edit, Edit) -> bool)
    ensures Sorted(less, [])
  {
  }

  lemma {:induction false} SortBySorts(less: (Edit, Edit) -> bool, edits: seq<Edit>)
    requires Ordering(less)
    ensures Sorted(less, SortBy(less, edits))
    ensures multiset(SortBy(less, edits)) == multiset(edits)
  {
    hide Sorted, Ordering, InsertBy;
    if edits == [] {
      SortedNothing(less);
    } else {
      var init, last := edits[..|edits| - 1], edits[|edits| - 1];
      SortBySorts(less, init);
      InsertBySorts(less, SortBy(less, init), last);
      assert edits == init + [last];
    }
  }

  // ---------- Sums over a batch ----------

  function Sum(f: Edit -> int, edits: seq<Edit>): int {
    if edits == [] then 0 else Sum(f, edits[..|edits| - 1]) + f(edits[|edits| - 1])
  }

  lemma {:induction false} SumEq(f: Edit -> int, g: Edit -> int, edits: seq<Edit>)
    requires forall i :: 0 <= i < |edits| ==> f(edits[i]) == g(edits[i])
    ensures Sum(f, edits) == Sum(g, edits)
  {
    if edits != [] {
      SumEq(f, g, edits[..|edits| - 1]);
    }
  }

  lemma {:induction false} SumAdds(f: Edit -> int, g: Edit -> int, h: Edit -> int, edits: seq<Edit>)
    requires forall i :: 0 <= i < |edits| ==> f(edits[i]) == g(edits[i]) + h(edits[i])
    ensures Sum(f, edits) == Sum(g, edits) + Sum(h, edits)
  {
    if edits != [] {
      SumAdds(f, g, h, edits[..|edits| - 1]);
    }
  }

  lemma {:induction false} SumInsertBy(less: (Edit, Edit) -> bool, f: Edit -> int, s: seq<Edit>, e: Edit)
    ensures Sum(f, InsertBy(less, s, e)) == Sum(f, s) + f(e)
  {
    if s == [] || !less(e, s[|s| - 1]) {
      assert (s + [e])[..|s|] == s;
    } else {
      SumInsertBy(less, f, s[..|s| - 1], e);
      var r := InsertBy(less, s[..|s| - 1], e);
      assert (r + [s[|s| - 1]])[..|r|] == r;
    }
  }

  /** A sum over the batch does not see the order the sort gave it. */
  lemma {:induction false} SumSortBy(less: (Edit, Edit) -> bool, f: Edit -> int, edits: seq<Edit>)
    ensures Sum(f, SortBy(less, edits)) == Sum(f, edits)
  {
    if edits != [] {
      SumSortBy(less, f, edits[..|edits| - 1]);
      SumInsertBy(less, f, SortBy(less, edits[..|edits| - 1]), edits[|edits| - 1]);
    }
  }

  // ---------- The simultaneous replacement ----------

  /** The order in which insertions that share a position appear in the new text. */
  datatype Order = Listed | Reversed

  function Inserted(edits: seq<Edit>, p: nat, order: Order): string {
    if edits == [] then ""
    else Joined(Inserted(edits[..|edits| - 1], p, order), edits[|edits| - 1], p, order)
  }

  function Joined(before: string, e: Edit, p: nat, order: Order): string {
    if !IsInsertAt(e, p) then before
    else if order == Listed then before + e.text
    else e.text + before
  }

  lemma InsertedAdd(edits: seq<Edit>, e: Edit, p: nat, order: Order)
    ensures Inserted(edits + [e], p, order) == Joined(Inserted(edits, p, order), e, p, order)
  {
    assert (edits + [e])[..|edits|] == edits;
  }

  function Replacement(edits: seq<Edit>, p: nat): (r: Option<Edit>)
    ensures r.Some? ==> r.value in edits && r.value.start == p < r.value.end
    ensures r.None? ==> forall e :: e in edits ==> !(e.start == p < e.end)
  {
    if edits == [] then None
    else
      var init, last := edits[..|edits| - 1], edits[|edits| - 1];
      if last.start == p < last.end then Some(last) else Replacement(init, p)
  }

  /** The new text from offset `p` of the old one, reading left to right: the insertions
      at `p`, then the replacement that starts there or the byte that is kept. No edit
      is ever applied to the result of another. */
  function Edited(text: string, edits: seq<Edit>, p: nat, order: Order): string
    requires Batch(edits, |text|) && p <= |text|
    decreases |text| - p, 1
  {
    Inserted(edits, p, order) + Kept(text, edits, p, order)
  }

  function Kept(text: string, edits: seq<Edit>, p: nat, order: Order): string
    requires Batch(edits, |text|) && p <= |text|
    decreases |text| - p, 0
  {
    match Replacement(edits, p)
    case Some(e) => e.text + Edited(text, edits, e.end, order)
    case None => if p == |text| then "" else [text[p]] + Edited(text, edits, p + 1, order)
  }

  /** No replaced span strictly contains `p`. */
  predicate Open(edits: seq<Edit>, p: nat) {
    forall i :: 0 <= i < |edits| ==> !(edits[i].start < p < edits[i].end)
  }

  // ---------- Applying the batch one edit at a time ----------

  predicate FromEnd(a: Edit, b: Edit) {
    if a.start != b.start then a.start > b.start else a.end > b.end
  }

  /** The pane's replace, with its clamps. */
  function ReplaceRange(text: string, start: nat, end: nat, ins: string): string {
    var s := if start > |text| then |text| else start;
    var e := if end < s then s else if end > |text| then |text| else end;
    text[..s] + ins + text[e..]
  }

  lemma {:induction false} EditedBelow(text: string, edits: seq<Edit>, p: nat, q: nat, order: Order)
    requires Batch(edits, |text|) && p <= q <= |text|
    requires forall i :: 0 <= i < |edits| ==> edits[i].start >= q
    ensures Edited(text, edits, p, order) == text[p..q] + Edited(text, edits, q, order)
    decreases q - p
  {
    if p < q {
      NoInsert(edits, p, order);
      EditedBelow(text, edits, p + 1, q, order);
      assert text[p..q] == [text[p]] + text[p + 1..q];
    } else {
      assert text[p..q] == "";
    }
  }

  lemma {:induction false} NoInsert(edits: seq<Edit>, p: nat, order: Order)
    requires forall i :: 0 <= i < |edits| ==> !IsInsertAt(edits[i], p)
    ensures Inserted(edits, p, order) == ""
  {
    if edits != [] {
      NoInsert(edits[..|edits| - 1], p, order);
    }
  }

  lemma {:induction false} EditedAbove(text: string, edits: seq<Edit>, e: Edit, p: nat, order: Order)
    requires Batch(edits + [e], |text|) && Batch(edits, |text|) && e.start < p <= |text|
    ensures Edited(text, edits + [e], p, order) == Edited(text, edits, p, order)
    decreases |text| - p
  {
    assert (edits + [e])[..|edits|] == edits;
    match Replacement(edits, p) {
      case Some(r) => EditedAbove(text, edits, e, r.end, order);
      case None =>
        if p < |text| {
          EditedAbove(text, edits, e, p + 1, order);
        }
    }
  }

  lemma ReplaceMiddle(head: string, mid: string, tail: string, ins: string)
    ensures ReplaceRange(head + mid + tail, |head|, |head| + |mid|, ins) == head + (ins + tail)
  {
    var t := head + mid + tail;
    assert t[..|head|] == head && t[|head| + |mid|..] == tail;
  }

  /** One replace below everything applied so far. */
  lemma ApplyLowest(text: string, done: seq<Edit>, e: Edit)
    requires Batch(done + [e], |text|) && Batch(done, |text|)
    requires forall i :: 0 <= i < |done| ==> done[i].start >= e.end
    ensures ReplaceRange(Edited(text, done, 0, Reversed), e.start, e.end, e.text)
         == Edited(text, done + [e], 0, Reversed)
  {
    hide Edited, ReplaceRange, Batch;
    BatchLast(done, e, |text|);
    EditedBelow(text, done, 0, e.end, Reversed);
    EditedBelow(text, done + [e], 0, e.start, Reversed);
    LowestFirst(text, done, e);
    ReplaceIn(text, e.start, e.end, Edited(text, done, e.end, Reversed), e.text);
  }

  lemma BatchLast(done: seq<Edit>, e: Edit, n: nat)
    requires Batch(done + [e], n) && forall i :: 0 <= i < |done| ==> done[i].start >= e.end
    ensures e.start <= e.end <= n
    ensures forall i :: 0 <= i < |done + [e]| ==> (done + [e])[i].start >= e.start
  {
    hide Apart;
    assert (done + [e])[|done|] == e;
  }

  /** A replace that leaves everything behind it as it is. */
  lemma ReplaceIn(text: string, start: nat, end: nat, tail: string, ins: string)
    requires start <= end <= |text|
    ensures ReplaceRange(text[0..end] + tail, start, end, ins) == text[0..start] + (ins + tail)
  {
    hide ReplaceRange;
    assert text[0..end] == text[0..start] + text[start..end];
    ReplaceMiddle(text[0..start], text[start..end], tail, ins);
  }

  lemma LowestFirst(text: string, done: seq<Edit>, e: Edit)
    requires Batch(done + [e], |text|) && Batch(done, |text|) && e.start <= e.end <= |text|
    requires forall i :: 0 <= i < |done| ==> done[i].start >= e.end
    ensures Edited(text, done + [e], e.start, Reversed) == e.text + Edited(text, done, e.end, Reversed)
  {
    if e.start == e.end {
      InsertLowest(text, done, e);
    } else {
      var all := done + [e];
      assert all[..|done|] == done && all[|done|] == e;
      NoInsert(all, e.start, Reversed);
      EditedAbove(text, done, e, e.end, Reversed);
    }
  }

  lemma InsertLowest(text: string, done: seq<Edit>, e: Edit)
    requires Batch(done + [e], |text|) && Batch(done, |text|) && e.start == e.end <= |text|
    ensures Edited(text, done + [e], e.start, Reversed) == e.text + Edited(text, done, e.start, Reversed)
  {
    hide Kept, Replacement, Batch;
    KeptAbove(text, done, e);
    assert (done + [e])[..|done|] == done;
  }

  lemma KeptAbove(text: string, done: seq<Edit>, e: Edit)
    requires Batch(done + [e], |text|) && Batch(done, |text|) && e.start == e.end <= |text|
    ensures Kept(text, done + [e], e.start, Reversed) == Kept(text, done, e.start, Reversed)
  {
    hide Edited, Inserted, Batch, Replacement;
    var p := e.start;
    ReplacementFits(done, |text|, p);
    InsertNoReplacement(done, e);
    match Replacement(done, p) {
      case Some(r) => EditedAbove(text, done, e, r.end, Reversed);
      case None =>
        if p < |text| {
          EditedAbove(text, done, e, p + 1, Reversed);
        }
    }
  }

  lemma ReplacementFits(edits: seq<Edit>, n: nat, p: nat)
    requires Batch(edits, n)
    ensures Replacement(edits, p).Some? ==> p < Replacement(edits, p).value.end <= n
  {
    hide Replacement, Apart;
  }

  lemma InsertNoReplacement(done: seq<Edit>, e: Edit)
    requires e.start == e.end
    ensures Replacement(done + [e], e.start) == Replacement(done, e.start)
  {
    assert (done + [e])[..|done|] == done;
  }

  // ---------- A stable sort keeps the meaning ----------

  lemma {:induction false} InsertByKeepsOrder(s: seq<Edit>, e: Edit, p: nat, order: Order)
    ensures Inserted(InsertBy(FromEnd, s, e), p, order) == Inserted(s + [e], p, order)
  {
    hide Inserted;
    if s != [] && FromEnd(e, s[|s| - 1]) {
      var init, last := s[..|s| - 1], s[|s| - 1];
      InsertByKeepsOrder(init, e, p, order);
      assert s == init + [last];
      InsertedAdd(InsertBy(FromEnd, init, e), last, p, order);
      InsertedAdd(init, e, p, order);
      InsertedAdd(init, last, p, order);
      InsertedAdd(s, e, p, order);
    }
  }

  lemma {:induction false} SortKeepsOrder(edits: seq<Edit>, p: nat, order: Order)
    ensures Inserted(SortBy(FromEnd, edits), p, order) == Inserted(edits, p, order)
  {
    if edits != [] {
      var init, last := edits[..|edits| - 1], edits[|edits| - 1];
      SortKeepsOrder(init, p, order);
      var s := SortBy(FromEnd, init);
      InsertByKeepsOrder(s, last, p, order);
      assert (s + [last])[..|s|] == s;
    }
  }

  lemma BatchReordered(a: seq<Edit>, b: seq<Edit>, n: nat)
    requires Batch(a, n) && multiset(a) == multiset(b)
    ensures Batch(b, n)
  {
    forall i | 0 <= i < |b| ensures b[i].start <= b[i].end <= n {
      assert b[i] in multiset(b);
      assert b[i] in a;
    }
    forall i, j | 0 <= i < j < |b| ensures Apart(b[i], b[j]) {
      PairFound(a, b, i, j);
    }
  }

  lemma PairFound(a: seq<Edit>, b: seq<Edit>, i: nat, j: nat)
    requires multiset(a) == multiset(b) && i < j < |b|
    ensures exists k, l :: 0 <= k < |a| && 0 <= l < |a| && k != l && a[k] == b[i] && a[l] == b[j]
  {
    var x, y := b[i], b[j];
    if x != y {
      assert x in multiset(b) && y in multiset(b);
      assert x in a && y in a;
    } else {
      assert b == b[..i] + [x] + b[i + 1..j] + [x] + b[j + 1..];
      assert multiset(b)[x] >= 2;
      TwiceFound(a, x);
    }
  }

  lemma {:induction false} TwiceFound(a: seq<Edit>, x: Edit)
    requires multiset(a)[x] >= 2
    ensures exists k, l :: 0 <= k < l < |a| && a[k] == x && a[l] == x
  {
    var n := |a| - 1;
    assert a == a[..n] + [a[n]];
    if a[n] == x {
      assert x in multiset(a[..n]);
      var k :| 0 <= k < n && a[..n][k] == x;
      assert a[k] == x;
    } else {
      TwiceFound(a[..n], x);
      var k, l :| 0 <= k < l < n && a[..n][k] == x && a[..n][l] == x;
      assert a[k] == x && a[l] == x;
    }
  }

  lemma {:induction false} SameReplacement(a: seq<Edit>, b: seq<Edit>, n: nat, p: nat)
    requires Batch(a, n) && multiset(a) == multiset(b)
    ensures Replacement(a, p) == Replacement(b, p)
  {
    forall e ensures e in a <==> e in b {
      assert e in multiset(a) <==> e in multiset(b);
    }
    if Replacement(a, p).Some? && Replacement(b, p).Some? {
      SoleReplacement(a, n, Replacement(a, p).value, Replacement(b, p).value);
    }
  }

  lemma SoleReplacement(a: seq<Edit>, n: nat, x: Edit, y: Edit)
    requires Batch(a, n) && x in a && y in a
    requires x.start == y.start && x.start < x.end && y.start < y.end
    ensures x == y
  {
    var i :| 0 <= i < |a| && a[i] == x;
    var j :| 0 <= j < |a| && a[j] == y;
    if i != j {
      ApartAt(a, n, i, j);
    }
  }

  lemma ApartAt(a: seq<Edit>, n: nat, i: nat, j: nat)
    requires Batch(a, n) && i < |a| && j < |a| && i != j
    ensures Apart(a[i], a[j])
  {
    assert Apart(if i < j then a[i] else a[j], if i < j then a[j] else a[i]);
  }

  lemma {:induction false} SortKeepsMeaning(text: string, edits: seq<Edit>, p: nat, order: Order)
    requires Batch(edits, |text|) && p <= |text|
    requires Batch(SortBy(FromEnd, edits), |text|) && multiset(SortBy(FromEnd, edits)) == multiset(edits)
    ensures Edited(text, SortBy(FromEnd, edits), p, order) == Edited(text, edits, p, order)
    decreases |text| - p
  {
    hide Inserted, InsertBy, SortBy, Replacement, Apart;
    var s := SortBy(FromEnd, edits);
    SortKeepsOrder(edits, p, order);
    SameReplacement(edits, s, |text|, p);
    match Replacement(edits, p) {
      case Some(e) => SortKeepsMeaning(text, edits, e.end, order);
      case None =>
        if p < |text| {
          SortKeepsMeaning(text, edits, p + 1, order);
        }
    }
  }

  lemma FromEndOrders()
    ensures Ordering(FromEnd)
  {
  }

  lemma FromEndDescends(s: seq<Edit>, n: nat, k: nat)
    requires Batch(s, n) && Sorted(FromEnd, s) && k < |s|
    ensures forall i :: 0 <= i < k ==> s[i].start >= s[k].end
  {
    forall i | 0 <= i < k ensures s[i].start >= s[k].end {
      assert Apart(s[i], s[k]);
      assert !FromEnd(s[k], s[i]);
    }
  }

  /** The highest edit first, each in original coordinates: the result is the
      simultaneous replacement, insertions that share a position in reverse. */
  method ApplyServerEdits(text: string, edits: seq<Edit>) returns (r: string)
    requires Batch(edits, |text|)
    ensures r == Edited(text, edits, 0, Reversed)
  {
    hide Edited, Kept, Inserted, Replacement, ReplaceRange, SortBy, FromEnd, Apart, Ordering;
    var sorted := SortBy(FromEnd, edits);
    FromEndOrders();
    SortBySorts(FromEnd, edits);
    BatchReordered(edits, sorted, |text|);
    NothingEdited(text);
    r := text;
    for k := 0 to |sorted|
      invariant Batch(sorted[..k], |text|)
      invariant r == Edited(text, sorted[..k], 0, Reversed)
    {
      FromEndDescends(sorted, |text|, k);
      assert sorted[..k + 1] == sorted[..k] + [sorted[k]];
      ApplyLowest(text, sorted[..k], sorted[k]);
      r := ReplaceRange(r, sorted[k].start, sorted[k].end, sorted[k].text);
    }
    assert sorted[..|sorted|] == sorted;
    SortKeepsMeaning(text, edits, 0, Reversed);
  }

  lemma NothingEdited(text: string)
    ensures Edited(text, [], 0, Reversed) == text
  {
    EditedBelow(text, [], 0, |text|, Reversed);
    assert text[0..|text|] == text;
  }

  // ---------- What the protocol asks ----------

  lemma {:induction false} InsertedLength(edits: seq<Edit>, p: nat)
    ensures |Inserted(edits, p, Listed)| == |Inserted(edits, p, Reversed)|
  {
    if edits != [] {
      InsertedLength(edits[..|edits| - 1], p);
    }
  }

  /** The two readings agree up to a position only by agreeing on its insertions. */
  lemma {:induction false} OrderShows(text: string, edits: seq<Edit>, p: nat)
    requires Batch(edits, |text|) && p <= |text|
    ensures |Edited(text, edits, p, Listed)| == |Edited(text, edits, p, Reversed)|
    ensures Edited(text, edits, p, Listed) == Edited(text, edits, p, Reversed) <==>
              && Inserted(edits, p, Listed) == Inserted(edits, p, Reversed)
              && match Replacement(edits, p)
                 case Some(e) => Edited(text, edits, e.end, Listed) == Edited(text, edits, e.end, Reversed)
                 case None => p < |text| ==> Edited(text, edits, p + 1, Listed) == Edited(text, edits, p + 1, Reversed)
    decreases |text| - p
  {
    InsertedLength(edits, p);
    match Replacement(edits, p) {
      case Some(e) =>
        OrderShows(text, edits, e.end);
        SplitEqual(e.text, Edited(text, edits, e.end, Listed), e.text, Edited(text, edits, e.end, Reversed));
      case None =>
        if p < |text| {
          OrderShows(text, edits, p + 1);
          SplitEqual([text[p]], Edited(text, edits, p + 1, Listed), [text[p]], Edited(text, edits, p + 1, Reversed));
        }
    }
    SplitEqual(Inserted(edits, p, Listed), Kept(text, edits, p, Listed),
               Inserted(edits, p, Reversed), Kept(text, edits, p, Reversed));
  }

  lemma SplitEqual(a: string, b: string, c: string, d: string)
    requires |a| == |c|
    ensures a + b == c + d <==> a == c && b == d
  {
    if a + b == c + d {
      assert (a + b)[..|a|] == a && (c + d)[..|a|] == c;
      assert (a + b)[|a|..] == b && (c + d)[|a|..] == d;
    }
  }

  predicate SameInserts(edits: seq<Edit>, p: nat) {
    Inserted(edits, p, Listed) == Inserted(edits, p, Reversed)
  }

  lemma SameInsertsFrom(edits: seq<Edit>, p: nat, n: nat)
    requires p < n
    ensures (forall q :: p <= q <= n ==> SameInserts(edits, q)) <==>
            SameInserts(edits, p) && forall q :: p + 1 <= q <= n ==> SameInserts(edits, q)
  {
    if SameInserts(edits, p) && forall q :: p + 1 <= q <= n ==> SameInserts(edits, q) {
      forall q | p <= q <= n ensures SameInserts(edits, q) {
        if q != p {
          assert p + 1 <= q <= n;
        }
      }
    }
  }

  lemma {:induction false} OrderShowsFrom(text: string, edits: seq<Edit>, p: nat, n: nat)
    requires Batch(edits, |text|) && p <= n == |text| && Open(edits, p)
    ensures Edited(text, edits, p, Listed) == Edited(text, edits, p, Reversed) <==>
              forall q :: p <= q <= n ==> SameInserts(edits, q)
    decreases n - p
  {
    OrderShows(text, edits, p);
    assert SameInserts(edits, p) <==> Inserted(edits, p, Listed) == Inserted(edits, p, Reversed);
    match Replacement(edits, p) {
      case Some(e) =>
        SpanIsClear(edits, n, e);
        OrderShowsFrom(text, edits, e.end, n);
        forall q | p < q < e.end ensures SameInserts(edits, q) {
          NoInsert(edits, q, Listed);
          NoInsert(edits, q, Reversed);
        }
      case None =>
        if p < n {
          OrderShowsFrom(text, edits, p + 1, n);
          SameInsertsFrom(edits, p, n);
        }
    }
  }

  /** Nothing else starts inside a replaced span, and its end is open. */
  lemma SpanIsClear(edits: seq<Edit>, n: nat, e: Edit)
    requires Batch(edits, n) && e in edits && e.start < e.end
    ensures Open(edits, e.end)
    ensures forall i :: 0 <= i < |edits| ==> !(e.start < edits[i].start < e.end)
  {
    var k :| 0 <= k < |edits| && edits[k] == e;
    forall i | 0 <= i < |edits|
      ensures !(edits[i].start < e.end < edits[i].end) && !(e.start < edits[i].start < e.end)
    {
      if i < k {
        assert Apart(edits[i], edits[k]);
      } else if k < i {
        assert Apart(edits[k], edits[i]);
      }
    }
  }

  /** The protocol puts insertions that share a position in the order the array lists
      them. The batch meets that exactly when, at every offset, listing the inserted
      texts forwards and backwards gives the same string. */
  lemma AppliedInListedOrder(text: string, edits: seq<Edit>)
    requires Batch(edits, |text|)
    ensures Edited(text, edits, 0, Reversed) == Edited(text, edits, 0, Listed) <==>
              forall p :: 0 <= p <= |text| ==> SameInserts(edits, p)
  {
    OrderShowsFrom(text, edits, 0, |text|);
  }

  /** Two imports inserted at the top come out swapped. */
  lemma TwoInsertsSwap()
    ensures var edits := [Edit(0, 0, "a"), Edit(0, 0, "b")];
            && Batch(edits, 1)
            && Edited("x", edits, 0, Reversed) == "bax"
            && Edited("x", edits, 0, Listed) == "abx"
  {
    hide Edited, Kept, Inserted;
    var a, b := Edit(0, 0, "a"), Edit(0, 0, "b");
    TopPair(a, b, Reversed);
    TopPair(a, b, Listed);
  }

  lemma TopPair(a: Edit, b: Edit, order: Order)
    requires a.start == a.end == b.start == b.end == 0
    ensures Batch([a, b], 1)
    ensures Edited("x", [a, b], 0, order) == (if order == Listed then a.text + b.text else b.text + a.text) + "x"
  {
    hide Inserted, Kept;
    assert [a] == [] + [a] && [a, b] == [a] + [b];
    InsertedAdd([], a, 0, order);
    InsertedAdd([a], b, 0, order);
    NoInsert([], 0, order);
    TopKept(a, b, order);
  }

  lemma TopKept(a: Edit, b: Edit, order: Order)
    requires a.start == a.end == b.start == b.end == 0
    ensures Kept("x", [a, b], 0, order) == "x"
  {
    hide Inserted;
    var edits := [a, b];
    NoInsert(edits, 1, order);
    assert Replacement(edits, 1) == None && Replacement(edits, 0) == None;
    assert Kept("x", edits, 1, order) == "";
  }
}
