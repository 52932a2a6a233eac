/** The append-only piece table under every buffer: per-author stores, a document of
    pieces that point into them, and the ops of a journal.

    A document is kept as a list of pieces, the form `Naive` has; `Doc` is the same
    list inside a B-tree. Text is what the pieces render to over the stores. */
module PieceTable {

  const MAX_INT: int := 0x7FFF_FFFF_FFFF_FFFF

  type u8 = x: int | 0 <= x < 0x100
  type u64 = x: int | 0 <= x < 0x1_0000_0000_0000_0000
  type Bytes = seq<u8>

  const ORIGINAL: u8 := 0

  const ACCEPTED: u8 := 0

  const KIND_EDIT: u8 := 0
  const KIND_UNDO: u8 := 1
  const KIND_REDO: u8 := 2

  /** A span of one author's store. */
  datatype Piece = Piece(buf: u8, start: nat, length: nat)

  /** Replace the pieces `del` by the pieces `ins` at document offset `pos`. */
  datatype Op = Op(seqNo: u64, author: u8, pos: nat, del: seq<Piece>, ins: seq<Piece>,
                   undoes: u64, group: u64, kind: u8)

  // ---------- Stores ----------

  /** One byte string per author slot; slot 0 is the file as loaded. */
  type Texts = seq<Bytes>

  function NewTexts(orig: Bytes): Texts {
    [orig, [], []]
  }

  function Grow(texts: Texts, a: u8): (r: Texts)
    ensures |r| == if |texts| > a then |texts| else a + 1
    ensures texts <= r
    ensures forall i :: |texts| <= i < |r| ==> r[i] == []
    decreases a - |texts|
  {
    if a < |texts| then texts else Grow(texts + [[]], a)
  }

  function Append(texts: Texts, a: u8, text: Bytes): Texts {
    var g := Grow(texts, a);
    g[a := g[a] + text]
  }

  function Len(texts: Texts, a: u8): nat {
    if a < |texts| then |texts[a]| else 0
  }

  function Slice(texts: Texts, a: u8, start: nat, length: nat): Bytes {
    if a >= |texts| then []
    else if start > |texts[a]| || length > |texts[a]| - start then []
    else texts[a][start..start + length]
  }

  /** Stores only grow: every slot of `t0` is a prefix of the same slot of `t1`. */
  ghost predicate Extends(t0: Texts, t1: Texts) {
    |t0| <= |t1| && forall a :: 0 <= a < |t0| ==> t0[a] <= t1[a]
  }

  lemma AppendExtends(texts: Texts, a: u8, text: Bytes)
    ensures Extends(texts, Append(texts, a, text))
    ensures Len(Append(texts, a, text), a) == Len(texts, a) + |text|
    ensures forall b: u8 :: b != a ==> Len(Append(texts, a, text), b) == Len(texts, b)
  {
  }

  // ---------- Documents ----------

  function RecsLen(ps: seq<Piece>): nat {
    if ps == [] then 0 else ps[0].length + RecsLen(ps[1..])
  }

  function Render(texts: Texts, ps: seq<Piece>): Bytes {
    if ps == [] then [] else Slice(texts, ps[0].buf, ps[0].start, ps[0].length) + Render(texts, ps[1..])
  }

  predicate InStore(texts: Texts, p: Piece) {
    p.buf < |texts| && p.start + p.length <= |texts[p.buf]|
  }

  predicate AllInStore(texts: Texts, ps: seq<Piece>) {
    forall i :: 0 <= i < |ps| ==> InStore(texts, ps[i])
  }

  /** The pieces covering the first `k` bytes, splitting the one that straddles. */
  function Before(ps: seq<Piece>, k: nat): seq<Piece> {
    if k == 0 || ps == [] then []
    else if ps[0].length <= k then [ps[0]] + Before(ps[1..], k - ps[0].length)
    else [ps[0].(length := k)]
  }

  /** The pieces covering everything from byte `k` on. */
  function After(ps: seq<Piece>, k: nat): seq<Piece> {
    if k == 0 || ps == [] then ps
    else if ps[0].length <= k then After(ps[1..], k - ps[0].length)
    else [Piece(ps[0].buf, ps[0].start + k, ps[0].length - k)] + ps[1..]
  }

  function RemoveRange(ps: seq<Piece>, pos: nat, length: nat): seq<Piece> {
    Before(ps, pos) + After(ps, pos + length)
  }

  function InsertRecs(ps: seq<Piece>, pos: nat, recs: seq<Piece>): seq<Piece> {
    if recs == [] then ps else Before(ps, pos) + recs + After(ps, pos)
  }

  function PieceRange(ps: seq<Piece>, pos: nat, length: nat): seq<Piece> {
    Before(After(ps, pos), length)
  }

  function Apply(ps: seq<Piece>, o: Op): seq<Piece> {
    var n := RecsLen(o.del);
    InsertRecs(if n > 0 then RemoveRange(ps, o.pos, n) else ps, o.pos, o.ins)
  }

  function BasePieces(n: nat): seq<Piece> {
    if n > 0 then [Piece(ORIGINAL, 0, n)] else []
  }

  /** Replays ops, oldest first, over a document. */
  function Replay(ps: seq<Piece>, ops: seq<Op>): seq<Piece> {
    if ops == [] then ps else Apply(Replay(ps, ops[..|ops| - 1]), ops[|ops| - 1])
  }

  // ---------- What a document means ----------

  function Min(a: nat, b: nat): nat {
    if a < b then a else b
  }

  /** Text with `n` bytes at `pos` replaced by `ins`; out-of-range requests clamp. */
  function Splice(text: Bytes, pos: nat, n: nat, ins: Bytes): Bytes {
    text[..Min(pos, |text|)] + ins + text[Min(pos + n, |text|)..]
  }

  lemma {:induction false} RenderLength(texts: Texts, ps: seq<Piece>)
    requires AllInStore(texts, ps)
    ensures |Render(texts, ps)| == RecsLen(ps)
  {
    if ps != [] {
      assert InStore(texts, ps[0]);
      RenderLength(texts, ps[1..]);
    }
  }

  lemma {:induction false} RenderConcat(texts: Texts, a: seq<Piece>, b: seq<Piece>)
    ensures Render(texts, a + b) == Render(texts, a) + Render(texts, b)
  {
    if a == [] {
      assert a + b == b;
    } else {
      assert (a + b)[1..] == a[1..] + b;
      RenderConcat(texts, a[1..], b);
    }
  }

  lemma RenderCons(texts: Texts, p: Piece, rest: seq<Piece>)
    ensures Render(texts, [p] + rest) == Slice(texts, p.buf, p.start, p.length) + Render(texts, rest)
  {
    assert ([p] + rest)[1..] == rest;
  }

  lemma InStoreCons(texts: Texts, p: Piece, rest: seq<Piece>)
    requires InStore(texts, p) && AllInStore(texts, rest)
    ensures AllInStore(texts, [p] + rest)
  {
  }

  /** A piece in store names as many bytes as it is long, and cutting it cuts them. */
  lemma SliceCut(texts: Texts, p: Piece, k: nat)
    requires InStore(texts, p) && k <= p.length
    ensures |Slice(texts, p.buf, p.start, p.length)| == p.length
    ensures InStore(texts, p.(length := k)) && InStore(texts, Piece(p.buf, p.start + k, p.length - k))
    ensures Slice(texts, p.buf, p.start, k) == Slice(texts, p.buf, p.start, p.length)[..k]
    ensures Slice(texts, p.buf, p.start + k, p.length - k) == Slice(texts, p.buf, p.start, p.length)[k..]
  {
  }

  lemma TakeJoin(head: Bytes, tail: Bytes, k: nat)
    ensures (head + tail)[..Min(k, |head + tail|)] ==
            if |head| <= k then head + tail[..Min(k - |head|, |tail|)] else head[..k]
  {
  }

  lemma DropJoin(head: Bytes, tail: Bytes, k: nat)
    ensures (head + tail)[Min(k, |head + tail|)..] ==
            if |head| <= k then tail[Min(k - |head|, |tail|)..] else head[k..] + tail
  {
  }

  lemma {:induction false} RenderBefore(texts: Texts, ps: seq<Piece>, k: nat)
    requires AllInStore(texts, ps)
    ensures AllInStore(texts, Before(ps, k))
    ensures Render(texts, Before(ps, k)) == Render(texts, ps)[..Min(k, |Render(texts, ps)|)]
  {
    hide Slice, Min, AllInStore, InStore, Render;
    if ps == [] || k == 0 {
      RenderNothing(texts, ps);
    } else {
      var p := ps[0];
      var head, tail := Slice(texts, p.buf, p.start, p.length), Render(texts, ps[1..]);
      InStoreHead(texts, ps);
      assert ps == [p] + ps[1..];
      RenderCons(texts, p, ps[1..]);
      TakeJoin(head, tail, k);
      if p.length <= k {
        SliceCut(texts, p, p.length);
        RenderBefore(texts, ps[1..], k - p.length);
        RenderCons(texts, p, Before(ps[1..], k - p.length));
        InStoreCons(texts, p, Before(ps[1..], k - p.length));
      } else {
        SliceCut(texts, p, k);
        RenderOne(texts, p.(length := k));
      }
    }
  }

  lemma RenderNothing(texts: Texts, ps: seq<Piece>)
    ensures Render(texts, []) == [] && AllInStore(texts, [])
    ensures Min(0, |Render(texts, ps)|) == 0 && (ps == [] ==> forall k: nat :: Min(k, |Render(texts, ps)|) == 0)
  {
  }

  lemma RenderOne(texts: Texts, p: Piece)
    requires InStore(texts, p)
    ensures Render(texts, [p]) == Slice(texts, p.buf, p.start, p.length) && AllInStore(texts, [p])
  {
    hide Slice;
    assert [p][1..] == [];
  }

  lemma InStoreHead(texts: Texts, ps: seq<Piece>)
    requires AllInStore(texts, ps) && ps != []
    ensures InStore(texts, ps[0]) && AllInStore(texts, ps[1..])
  {
    hide InStore;
  }

  lemma {:induction false} RenderAfter(texts: Texts, ps: seq<Piece>, k: nat)
    requires AllInStore(texts, ps)
    ensures AllInStore(texts, After(ps, k))
    ensures Render(texts, After(ps, k)) == Render(texts, ps)[Min(k, |Render(texts, ps)|)..]
  {
    hide Slice, Min, AllInStore, InStore, Render;
    if ps == [] || k == 0 {
      RenderNothing(texts, ps);
    } else {
      var p := ps[0];
      var head, tail := Slice(texts, p.buf, p.start, p.length), Render(texts, ps[1..]);
      InStoreHead(texts, ps);
      assert ps == [p] + ps[1..];
      RenderCons(texts, p, ps[1..]);
      DropJoin(head, tail, k);
      if p.length <= k {
        SliceCut(texts, p, p.length);
        RenderAfter(texts, ps[1..], k - p.length);
      } else {
        var cut := Piece(p.buf, p.start + k, p.length - k);
        SliceCut(texts, p, k);
        RenderCons(texts, cut, ps[1..]);
        InStoreCons(texts, cut, ps[1..]);
      }
    }
  }

  /** The pieces an op records as deleted render to exactly the bytes it removes. */
  lemma PieceRangeRenders(texts: Texts, ps: seq<Piece>, pos: nat, length: nat)
    requires AllInStore(texts, ps)
    requires pos + length <= |Render(texts, ps)|
    ensures AllInStore(texts, PieceRange(ps, pos, length))
    ensures Render(texts, PieceRange(ps, pos, length)) == Render(texts, ps)[pos..pos + length]
    ensures RecsLen(PieceRange(ps, pos, length)) == length
  {
    RenderAfter(texts, ps, pos);
    RenderBefore(texts, After(ps, pos), length);
    RenderLength(texts, PieceRange(ps, pos, length));
  }

  lemma RemoveRenders(texts: Texts, ps: seq<Piece>, pos: nat, n: nat)
    requires AllInStore(texts, ps)
    ensures AllInStore(texts, RemoveRange(ps, pos, n))
    ensures Render(texts, RemoveRange(ps, pos, n)) == Splice(Render(texts, ps), pos, n, [])
  {
    hide Before, After, Render, AllInStore;
    RenderBefore(texts, ps, pos);
    RenderAfter(texts, ps, pos + n);
    RenderConcat(texts, Before(ps, pos), After(ps, pos + n));
    InStoreConcat(texts, Before(ps, pos), After(ps, pos + n));
    var text := Render(texts, ps);
    assert Splice(text, pos, n, []) == text[..Min(pos, |text|)] + text[Min(pos + n, |text|)..];
  }

  lemma InStoreConcat(texts: Texts, a: seq<Piece>, b: seq<Piece>)
    requires AllInStore(texts, a) && AllInStore(texts, b)
    ensures AllInStore(texts, a + b)
  {
    hide InStore;
  }

  lemma InsertRenders(texts: Texts, ps: seq<Piece>, pos: nat, recs: seq<Piece>)
    requires AllInStore(texts, ps) && AllInStore(texts, recs)
    ensures AllInStore(texts, InsertRecs(ps, pos, recs))
    ensures Render(texts, InsertRecs(ps, pos, recs)) == Splice(Render(texts, ps), pos, 0, Render(texts, recs))
  {
    hide Before, After, AllInStore;
    var text := Render(texts, ps);
    if recs == [] {
      assert text[..Min(pos, |text|)] + [] + text[Min(pos + 0, |text|)..] == text;
    } else {
      RenderBefore(texts, ps, pos);
      RenderAfter(texts, ps, pos);
      RenderConcat(texts, Before(ps, pos), recs);
      RenderConcat(texts, Before(ps, pos) + recs, After(ps, pos));
      InStoreConcat(texts, Before(ps, pos), recs);
      InStoreConcat(texts, Before(ps, pos) + recs, After(ps, pos));
    }
  }

  lemma SpliceTwice(text: Bytes, pos: nat, n: nat, ins: Bytes)
    ensures Splice(Splice(text, pos, n, []), pos, 0, ins) == Splice(text, pos, n, ins)
  {
    var a, b := Min(pos, |text|), Min(pos + n, |text|);
    var cut := Splice(text, pos, n, []);
    assert cut == text[..a] + text[b..];
    assert cut[..Min(pos, |cut|)] == text[..a];
    assert cut[Min(pos + 0, |cut|)..] == text[b..];
  }

  /** Piece surgery refines byte splicing: applying an op to the pieces replaces
      `DelLen` bytes at `pos` by the bytes its inserted pieces hold. */
  lemma ApplyRenders(texts: Texts, ps: seq<Piece>, o: Op)
    requires AllInStore(texts, ps) && AllInStore(texts, o.ins)
    ensures AllInStore(texts, Apply(ps, o))
    ensures Render(texts, Apply(ps, o)) ==
            Splice(Render(texts, ps), o.pos, RecsLen(o.del), Render(texts, o.ins))
  {
    hide Render, RemoveRange, InsertRecs, Splice;
    var n := RecsLen(o.del);
    var text := Render(texts, ps);
    SpliceTwice(text, o.pos, n, Render(texts, o.ins));
    if n > 0 {
      RemoveRenders(texts, ps, o.pos, n);
      InsertRenders(texts, RemoveRange(ps, o.pos, n), o.pos, o.ins);
    } else {
      InsertRenders(texts, ps, o.pos, o.ins);
    }
  }

  lemma SpliceBack(text: Bytes, pos: nat, n: nat, ins: Bytes)
    requires pos + n <= |text|
    ensures Splice(Splice(text, pos, n, ins), pos, |ins|, text[pos..pos + n]) == text
  {
    var mid := text[..pos] + ins + text[pos + n..];
    assert mid[..pos] == text[..pos];
    assert mid[pos + |ins|..] == text[pos + n..];
  }

  function Inverse(o: Op): Op {
    Op(0, o.author, o.pos, o.ins, o.del, o.seqNo, o.group, if o.kind == KIND_UNDO then KIND_REDO else KIND_UNDO)
  }

  /** Undo copies no text: swapping an op's two piece lists restores the bytes it
      removed, as long as its `del` names exactly those bytes. */
  lemma InverseRestores(texts: Texts, ps: seq<Piece>, o: Op)
    requires AllInStore(texts, ps) && AllInStore(texts, o.ins) && AllInStore(texts, o.del)
    requires o.pos + RecsLen(o.del) <= |Render(texts, ps)|
    requires Render(texts, o.del) == Render(texts, ps)[o.pos..o.pos + RecsLen(o.del)]
    ensures Render(texts, Apply(Apply(ps, o), Inverse(o))) == Render(texts, ps)
  {
    hide Render, Apply, Splice;
    ApplyRenders(texts, ps, o);
    ApplyRenders(texts, Apply(ps, o), Inverse(o));
    RenderLength(texts, o.ins);
    SpliceBack(Render(texts, ps), o.pos, RecsLen(o.del), Render(texts, o.ins));
  }

  /** The inverse is an op of the same author, place and set that names what it reverses:
      an edit or a redo is undone, an undo redone. Reversing it in turn moves the same
      pieces the way the op did. */
  lemma InverseMeans(o: Op)
    ensures var i := Inverse(o); i.undoes == o.seqNo && i.author == o.author && i.group == o.group && i.pos == o.pos
    ensures o.kind == KIND_EDIT || o.kind == KIND_REDO ==> Inverse(o).kind == KIND_UNDO
    ensures o.kind == KIND_UNDO ==> Inverse(o).kind == KIND_REDO
    ensures var j := Inverse(Inverse(o)); j.ins == o.ins && j.del == o.del && j.pos == o.pos
  {
  }

  lemma SliceStable(t0: Texts, t1: Texts, p: Piece)
    requires Extends(t0, t1) && InStore(t0, p)
    ensures InStore(t1, p)
    ensures Slice(t1, p.buf, p.start, p.length) == Slice(t0, p.buf, p.start, p.length)
  {
    assert t0[p.buf] <= t1[p.buf];
  }

  /** A piece never changes what it names, however much its store grows later. */
  lemma {:induction false} RenderStable(t0: Texts, t1: Texts, ps: seq<Piece>)
    requires Extends(t0, t1) && AllInStore(t0, ps)
    ensures AllInStore(t1, ps)
    ensures Render(t1, ps) == Render(t0, ps)
  {
    forall i | 0 <= i < |ps| ensures InStore(t1, ps[i]) {
      SliceStable(t0, t1, ps[i]);
    }
    if ps != [] {
      SliceStable(t0, t1, ps[0]);
      RenderStable(t0, t1, ps[1..]);
    }
  }

  predicate OpsInStore(texts: Texts, ops: seq<Op>) {
    forall i :: 0 <= i < |ops| ==> AllInStore(texts, ops[i].ins)
  }

  lemma {:induction false} ReplayInStore(texts: Texts, ps: seq<Piece>, ops: seq<Op>)
    requires AllInStore(texts, ps) && OpsInStore(texts, ops)
    ensures AllInStore(texts, Replay(ps, ops))
  {
    hide Render, Apply, Splice;
    if ops != [] {
      ReplayInStore(texts, ps, ops[..|ops| - 1]);
      ApplyRenders(texts, Replay(ps, ops[..|ops| - 1]), ops[|ops| - 1]);
    }
  }

  lemma {:induction false} ReplaySplit(ps: seq<Piece>, a: seq<Op>, b: seq<Op>)
    ensures Replay(ps, a + b) == Replay(Replay(ps, a), b)
    decreases |b|
  {
    if b == [] {
      assert a + b == a;
    } else {
      assert (a + b)[..|a + b| - 1] == a + b[..|b| - 1];
      ReplaySplit(ps, a, b[..|b| - 1]);
    }
  }

  // ---------- Sessions ----------

  /** A document, the journal that made it, and the decisions about its change sets.
      `origLen` is how much of the Original store is the file as loaded. */
  datatype Session = Session(texts: Texts, doc: seq<Piece>, origLen: nat, journal: seq<Op>,
                             states: map<u64, u8>, tasks: map<u64, string>)
  {
    function Text(): Bytes {
      Render(texts, doc)
    }

    function BaseBytes(): Bytes
      requires 0 < |texts| && origLen <= |texts[0]|
    {
      texts[0][..origLen]
    }

    /** The document as it stood when the journal was `v` ops long. */
    function TextAt(v: nat): Bytes
      requires v <= |journal|
    {
      Render(texts, Replay(BasePieces(origLen), journal[..v]))
    }

    function GroupState(g: u64): u8 {
      if g in states then states[g] else ACCEPTED
    }

    function OpsSince(v: nat): seq<Op> {
      if v >= |journal| then [] else journal[v..]
    }

    /** What every live session keeps: stores a Go slice can hold, ops numbered by
        their index, non-empty pieces inside their stores, and a document that
        still renders to the replay of its own journal. */
    ghost predicate Valid() {
      && 3 <= |texts| <= 256
      && (forall a :: 0 <= a < |texts| ==> |texts[a]| <= MAX_INT)
      && |texts[0]| == origLen
      && |journal| <= MAX_INT
      && (forall i :: 0 <= i < |journal| ==> ValidOp(i))
      && AllInStore(texts, doc)
      && Text() == TextAt(|journal|)
    }

    ghost predicate ValidOp(i: nat)
      requires i < |journal|
    {
      var o := journal[i];
      && o.seqNo == i
      && o.pos <= MAX_INT
      && AllInStore(texts, o.ins) && AllInStore(texts, o.del)
      && (forall k :: 0 <= k < |o.ins| ==> 0 < o.ins[k].length)
      && (forall k :: 0 <= k < |o.del| ==> 0 < o.del[k].length)
    }
  }

  lemma BaseInStore(s: Session)
    requires 0 < |s.texts| && s.origLen <= |s.texts[0]|
    ensures AllInStore(s.texts, BasePieces(s.origLen))
    ensures Render(s.texts, BasePieces(s.origLen)) == s.BaseBytes()
  {
    if s.origLen > 0 {
      var p := Piece(ORIGINAL, 0, s.origLen);
      assert [p][1..] == [];
      assert Render(s.texts, [p]) == Slice(s.texts, ORIGINAL, 0, s.origLen) + [];
    }
  }
}
