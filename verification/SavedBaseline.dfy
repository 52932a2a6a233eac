/** The text `savedContent` rebuilds for a save made at an earlier version. It replays
    the op prefix over stores that already hold later bytes, and over an origin cut
    back to the base. */
module SavedBaseline {
  import opened Options
  import opened PieceTable
  import opened OpLog
  import opened OpLogRuns

  /** The piece shows a byte of the Original store past its first `n`. */
  predicate ReachesPast(p: Piece, n: nat) {
    p.buf == ORIGINAL && 0 < p.length && n < p.start + p.length
  }

  predicate Visible(ps: seq<Piece>, n: nat) {
    forall k :: 0 <= k < |ps| ==> !ReachesPast(ps[k], n)
  }

  lemma {:induction false} CopiedSlices(acc: Texts, texts: Texts, a: nat, base: Bytes)
    requires 1 <= a <= |texts| <= 256 && 3 <= |acc|
    requires acc[0] == base
    requires forall b: u8 :: 0 < b < a ==> Len(acc, b) == Len(texts, b) && (b < |acc| ==> acc[b] == texts[b])
    requires forall b: u8 :: a <= b ==> Len(acc, b) == 0
    ensures var t := CopyStores(acc, texts, a);
            && 3 <= |t| && t[0] == base
            && forall b: u8 :: 0 < b < |texts| ==> Len(t, b) == Len(texts, b) && (b < |t| ==> t[b] == texts[b])
    decreases |texts| - a
  {
    if a < |texts| {
      var next := if |texts[a]| > 0 then Append(acc, a, texts[a]) else acc;
      if |texts[a]| > 0 {
        AppendExtends(acc, a, texts[a]);
        assert next[a] == [] + texts[a];
      }
      CopiedSlices(next, texts, a + 1, base);
    }
  }

  /** `t` is `s` with the Original store cut back to `base`. */
  ghost predicate CutBack(t: Texts, s: Texts, base: Bytes) {
    && 3 <= |t| && 0 < |s| <= 256 && t[0] == base && base <= s[0]
    && forall b: u8 :: 0 < b < |s| ==> Len(t, b) == Len(s, b) && (b < |t| ==> t[b] == s[b])
  }

  lemma SliceOverCopy(t: Texts, s: Texts, p: Piece, base: Bytes)
    requires CutBack(t, s, base) && InStore(s, p)
    ensures var cut, whole := Slice(t, p.buf, p.start, p.length), Slice(s, p.buf, p.start, p.length);
            if ReachesPast(p, |base|) then |cut| == 0 < |whole| else cut == whole
  {
    if p.buf != ORIGINAL {
      assert Len(t, p.buf) == Len(s, p.buf);
    }
  }

  /** Over a store that kept only `base` of the origin, a document renders the same if
      no piece reaches past it, and otherwise comes out shorter. */
  lemma {:induction false} RenderOverCopy(t: Texts, s: Texts, ps: seq<Piece>, base: Bytes)
    requires CutBack(t, s, base) && AllInStore(s, ps)
    ensures Visible(ps, |base|) ==> Render(t, ps) == Render(s, ps)
    ensures |Render(t, ps)| <= |Render(s, ps)|
    ensures !Visible(ps, |base|) ==> |Render(t, ps)| < |Render(s, ps)|
  {
    hide CutBack, Slice;
    if ps != [] {
      SliceOverCopy(t, s, ps[0], base);
      RenderOverCopy(t, s, ps[1..], base);
      VisibleHead(ps, |base|);
    }
  }

  lemma VisibleHead(ps: seq<Piece>, n: nat)
    requires ps != []
    ensures Visible(ps, n) <==> !ReachesPast(ps[0], n) && Visible(ps[1..], n)
  {
    assert forall k :: 0 < k < |ps| ==> ps[k] == ps[1..][k - 1];
  }

  /** A rebuilt session: its pieces are in store, and its document is the
      replay of its journal. The Original store may have grown past the base. */
  ghost predicate Rebuilt(s: Session) {
    && 3 <= |s.texts| <= 256 && s.origLen <= |s.texts[0]|
    && OpsInStore(s.texts, s.journal)
    && s.Text() == s.TextAt(|s.journal|)
  }

  /** The baseline is the text at version `at` exactly when nothing visible there was
      written into the Original store after the base: those bytes are not copied. */
  lemma SavedContentExact(s: Session, at: nat)
    requires Rebuilt(s) && at <= |s.journal|
    ensures SavedText(s.BaseBytes(), s, at) == s.TextAt(at) <==>
            at == |s.journal| || Visible(Replay(BasePieces(s.origLen), s.journal[..at]), s.origLen)
  {
    hide Replay, Render, Visible, CopyStores, Append;
    var base := s.BaseBytes();
    if at < |s.journal| {
      var ps := Replay(BasePieces(s.origLen), s.journal[..at]);
      BaseInStore(s);
      ReplayInStore(s.texts, BasePieces(s.origLen), s.journal[..at]);
      CopiedSlices(NewTexts(base), s.texts, 1, base);
      RenderOverCopy(CopyStores(NewTexts(base), s.texts, 1), s.texts, ps, base);
    } else {
      assert s.journal[..at] == s.journal;
    }
  }

  /** While the Original store is exactly the file as loaded, as it is for every valid
      session, the baseline is right at every version. */
  lemma SavedContentIsTextAt(s: Session, at: nat)
    requires s.Valid() && at <= |s.journal|
    ensures SavedText(s.BaseBytes(), s, at) == s.TextAt(at)
  {
    forall i | 0 <= i < |s.journal| ensures AllInStore(s.texts, s.journal[i].ins) {
      assert s.ValidOp(i);
    }
    SavedContentExact(s, at);
    var ps := Replay(BasePieces(s.origLen), s.journal[..at]);
    BaseInStore(s);
    ReplayInStore(s.texts, BasePieces(s.origLen), s.journal[..at]);
    assert Visible(ps, s.origLen) by {
      forall k | 0 <= k < |ps| ensures !ReachesPast(ps[k], s.origLen) {
        assert InStore(s.texts, ps[k]);
      }
    }
  }

  // ---------- The same, from a log ----------

  /** Every session a log rebuilds is one the exact condition speaks of. */
  lemma BuiltIsRebuilt(l: seq<Record>)
    requires Build(l).Some?
    ensures BaseOf(l).Some? && BaseOf(l).value.Base?
    ensures Rebuilt(Build(l).value) && Build(l).value.BaseBytes() == BaseOf(l).value.bytes
  {
    hide Scan, Render, Replay, Append, BaseOf;
    var base := BaseOf(l).value.bytes;
    var f0, s := FreshFrame(base), Build(l).value;
    AcceptedOpsInStore(f0, l);
    ScanGrows(f0, l);
    ScanSlots(base, l);
    assert f0.texts[0] <= s.texts[0];
    assert s.journal[..|s.journal|] == s.journal;
  }

  /** For any log that replays, honest or crafted: the baseline of its base and session is
      the text at version `at` if and only if `at` is the present or no piece visible
      there reaches past the base in the Original store. */
  lemma SavedContentOfLog(l: seq<Record>, at: nat)
    requires Build(l).Some? && at <= |Build(l).value.journal|
    ensures BaseOf(l).Some? && BaseOf(l).value.Base?
    ensures var s := Build(l).value;
            && 0 < |s.texts| <= 256
            && (SavedText(BaseOf(l).value.bytes, s, at) == s.TextAt(at) <==>
                at == |s.journal| || Visible(Replay(BasePieces(s.origLen), s.journal[..at]), s.origLen))
  {
    hide Build, SavedText, Replay, Visible;
    BuiltIsRebuilt(l);
    SavedContentExact(Build(l).value, at);
  }

  const LOST := OneByteWrite(0, ORIGINAL, 1, ORIGINAL, 1, 1)
  const AFTER := OneByteWrite(1, 1, 2, ORIGINAL, 0, 2)

  /** A log that appends to the Original store, which no live session does: a base of one
      byte, a second byte under author 0, its insertion, and one more edit. */
  function LostLog(): seq<Record> {
    [Base([7], [7]), StoreAppend(ORIGINAL, 1, [8]), OpRec(LOST), OpRec(AFTER)]
  }

  const O0 := Op(0, ORIGINAL, 1, [], [Piece(ORIGINAL, 1, 1)], 0, 1, KIND_EDIT)
  const O1 := Op(1, 1, 2, [], [Piece(ORIGINAL, 0, 1)], 0, 2, KIND_EDIT)

  lemma LostScan()
    ensures var f := Scan(FreshFrame([7]), LostLog());
            f.Some? && f.value.texts == [[7, 8], [], []] && f.value.ops == [O0, O1]
  {
    hide CheckJournalRecs, FromJournalOp, Append, Scan;
    var l, f0 := LostLog(), FreshFrame([7]);
    var t := [[7, 8], [], []];
    LostStore();
    OneByteWriteReads(0, ORIGINAL, 1, ORIGINAL, 1, 1);
    OneByteWriteReads(1, 1, 2, ORIGINAL, 0, 2);
    OneByteWriteChecks(t, ORIGINAL, 1);
    OneByteWriteChecks(t, ORIGINAL, 0);
    var f1 := f0.(texts := t);
    var f2 := f1.(ops := [O0]);
    var f3 := f2.(ops := [O0, O1]);
    assert [] + [O0] == [O0] && [O0] + [O1] == [O0, O1];
    ScanNothing(f0, l);
    ScanTo(f0, l, 0, f0, f0);
    ScanTo(f0, l, 1, f0, f1);
    ScanTo(f0, l, 2, f1, f2);
    ScanTo(f0, l, 3, f2, f3);
    assert l[..4] == l;
  }

  lemma LostStore()
    ensures NewTexts([7]) == [[7], [], []] && Append([[7], [], []], ORIGINAL, [8]) == [[7, 8], [], []]
  {
    assert [7] + [8] == [7, 8];
  }

  /** The pieces of that log at version 1. */
  lemma LostPieces()
    ensures Replay(BasePieces(1), [O0]) == [Piece(ORIGINAL, 0, 1), Piece(ORIGINAL, 1, 1)]
  {
    hide Render;
    var p, q := Piece(ORIGINAL, 0, 1), Piece(ORIGINAL, 1, 1);
    assert BasePieces(1) == [p] && [O0][..0] == [];
    assert Before([p], 1) == [p] + Before([p][1..], 0) == [p];
    assert After([p], 1) == After([p][1..], 0) == [];
    assert Apply([p], O0) == [p] + [q] + [] == [p, q];
  }

  lemma TwoSlices(texts: Texts)
    ensures Render(texts, [Piece(ORIGINAL, 0, 1), Piece(ORIGINAL, 1, 1)]) == Slice(texts, 0, 0, 1) + Slice(texts, 0, 1, 1)
  {
    hide Slice;
    var p, q := Piece(ORIGINAL, 0, 1), Piece(ORIGINAL, 1, 1);
    assert [p, q][1..] == [q] && [q][1..] == [];
    assert Render(texts, [q]) == Slice(texts, 0, 1, 1) + [] == Slice(texts, 0, 1, 1);
  }

  /** The log replays, and the baseline of its version 1 misses the byte the text of that
      version has: it is `[7]`, the text `[7, 8]`. */
  lemma OriginalInsertIsLost()
    ensures BaseOf(LostLog()) == Some(Base([7], [7])) && Build(LostLog()).Some?
    ensures var s := Build(LostLog()).value;
            && |s.texts| == 3 && s.origLen == 1 && |s.journal| == 2
            && SavedText([7], s, 1) == [7] && s.TextAt(1) == [7, 8]
  {
    hide Scan, Replay, Render;
    LostScan();
    LostPieces();
    assert BaseOf(LostLog()) == Some(LostLog()[0]);
    var s := Build(LostLog()).value;
    assert s.journal[..1] == [O0];
    TwoSlices(s.texts);
    TwoSlices([[7], [], []]);
    LostStore();
    NothingToCopy(s.texts);
    assert [7] + [8] == [7, 8];
  }

  lemma NothingToCopy(texts: Texts)
    requires texts == [[7, 8], [], []]
    ensures CopyStores([[7], [], []], texts, 1) == [[7], [], []]
  {
    assert CopyStores([[7], [], []], texts, 3) == [[7], [], []];
    assert CopyStores([[7], [], []], texts, 2) == [[7], [], []];
  }
}
