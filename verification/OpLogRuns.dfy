/** What the op log is for: any surviving whole-record prefix rebuilds the live session
    as it stood at some earlier version, over runs of edits, passes that may fail,
    crashes and restarts. */
module OpLogRuns {
  import opened Options
  import opened PieceTable
  import opened OpLog

  // ---------- Facts about any log that replays ----------

  lemma {:induction false} ScanGrows(f: Frame, rs: seq<Record>)
    requires Scan(f, rs).Some?
    ensures Extends(f.texts, Scan(f, rs).value.texts)
    ensures f.ops <= Scan(f, rs).value.ops
  {
    if rs != [] {
      ScanGrows(f, rs[..|rs| - 1]);
      var g := Scan(f, rs[..|rs| - 1]).value;
      if rs[|rs| - 1].StoreAppend? {
        AppendExtends(g.texts, rs[|rs| - 1].author, rs[|rs| - 1].blob);
      }
    }
  }

  predicate OpInStore(texts: Texts, o: Op) {
    o.pos <= MAX_INT && AllInStore(texts, o.ins) && AllInStore(texts, o.del)
  }

  predicate JournalInStore(texts: Texts, ops: seq<Op>) {
    forall i :: 0 <= i < |ops| ==> OpInStore(texts, ops[i])
  }

  lemma AllInStoreGrows(t0: Texts, t1: Texts, ps: seq<Piece>)
    requires Extends(t0, t1) && AllInStore(t0, ps)
    ensures AllInStore(t1, ps)
  {
    forall i | 0 <= i < |ps| ensures InStore(t1, ps[i]) {
      SliceStable(t0, t1, ps[i]);
    }
  }

  lemma JournalInStoreGrows(t0: Texts, t1: Texts, ops: seq<Op>)
    requires Extends(t0, t1) && JournalInStore(t0, ops)
    ensures JournalInStore(t1, ops)
  {
    forall i | 0 <= i < |ops| ensures OpInStore(t1, ops[i]) {
      AllInStoreGrows(t0, t1, ops[i].ins);
      AllInStoreGrows(t0, t1, ops[i].del);
    }
  }

  /** The addition-free bound is exactly "the span lies inside the store". */
  lemma CheckMeansInStore(ps: seq<JPiece>, texts: Texts)
    requires forall a :: 0 <= a < |texts| ==> |texts[a]| <= MAX_INT
    ensures CheckJournalRecs(ps, texts) <==>
            forall i :: 0 <= i < |ps| ==> ps[i].buf < |texts| && ps[i].start + ps[i].length <= |texts[ps[i].buf]|
    ensures CheckJournalRecs(ps, texts) ==>
              && (forall i :: 0 <= i < |ps| ==> PieceFits(ps[i]))
              && AllInStore(texts, FromJournalPieces(ps))
  {
    if forall i :: 0 <= i < |ps| ==> ps[i].buf < |texts| && ps[i].start + ps[i].length <= |texts[ps[i].buf]| {
      forall i | 0 <= i < |ps| ensures CheckPiece(ps[i], texts) {
        assert |texts[ps[i].buf]| <= MAX_INT;
      }
    }
  }

  /** Every op a log replays, honest or not, addresses only bytes its stores held when
      it was read, and still does after every later append. */
  lemma {:induction false} AcceptedOpsInStore(f: Frame, rs: seq<Record>)
    requires Scan(f, rs).Some? && JournalInStore(f.texts, f.ops)
    ensures JournalInStore(Scan(f, rs).value.texts, Scan(f, rs).value.ops)
  {
    if rs != [] {
      AcceptedOpsInStore(f, rs[..|rs| - 1]);
      var g := Scan(f, rs[..|rs| - 1]).value;
      match rs[|rs| - 1] {
        case StoreAppend(a, start, blob) =>
          AppendExtends(g.texts, a, blob);
          JournalInStoreGrows(g.texts, Append(g.texts, a, blob), g.ops);
        case OpRec(o) =>
          var op := FromJournalOp(o);
          assert forall i :: 0 <= i < |o.ins| ==> CheckPiece(o.ins[i], g.texts);
          assert forall i :: 0 <= i < |o.del| ==> CheckPiece(o.del[i], g.texts);
          assert OpInStore(g.texts, op);
        case _ =>
      }
    }
  }

  predicate OneBase(l: seq<Record>) {
    l != [] && l[0].Base? && forall i :: 0 < i < |l| ==> !l[i].Base?
  }

  predicate SlicesFit(texts: Texts) {
    forall a :: 0 <= a < |texts| ==> |texts[a]| <= MAX_INT
  }

  lemma {:induction false} ScanSlots(base: Bytes, rs: seq<Record>)
    requires Scan(FreshFrame(base), rs).Some?
    ensures 3 <= |Scan(FreshFrame(base), rs).value.texts| <= 256
  {
    if rs != [] {
      ScanSlots(base, rs[..|rs| - 1]);
    }
  }

  /** A frontier counts a frame: each store's bytes, the ops, and the decisions. */
  ghost predicate Counts(r: Frontier, f: Frame) {
    && (forall a: u8 :: r.Stored(a) == Len(f.texts, a))
    && r.version == |f.ops|
    && r.state == f.decisions
  }

  lemma CountsStep(r: Frontier, f: Frame, rec: Record)
    requires Counts(r, f) && !rec.Base? && ScanStep(f, rec).Some?
    requires var g := ScanStep(f, rec).value;
             SlicesFit(g.texts) && |g.ops| <= MAX_INT
    requires rec.OpRec? ==> rec.op.seqNo == |f.ops|
    requires |f.texts| <= 256
    ensures Counts(Read(r, rec), ScanStep(f, rec).value)
    ensures Read(r, rec) == Told(r, rec) || (rec.StoreAppend? && rec.blob == [])
  {
    match rec {
      case StoreAppend(a, start, blob) =>
        var texts := Append(f.texts, a, blob);
        AppendExtends(f.texts, a, blob);
        assert start == Len(f.texts, a);
        assert |texts[a]| == start + |blob| && |texts[a]| <= MAX_INT;
      case _ =>
    }
  }

  lemma ExtendsTrans(t0: Texts, t1: Texts, t2: Texts)
    requires Extends(t0, t1) && Extends(t1, t2)
    ensures Extends(t0, t2)
  {
    forall a | 0 <= a < |t0| ensures t0[a] <= t2[a] {
      assert t0[a] <= t1[a] <= t2[a];
    }
  }

  lemma ScanLast(f: Frame, l: seq<Record>)
    requires l != [] && Scan(f, l).Some?
    ensures Scan(f, l[..|l| - 1]).Some?
    ensures var g := Scan(f, l[..|l| - 1]).value;
            && ScanStep(g, l[|l| - 1]) == Scan(f, l)
            && Extends(g.texts, Scan(f, l).value.texts)
            && g.ops <= Scan(f, l).value.ops
            && (l[|l| - 1].OpRec? ==> Scan(f, l).value.ops == g.ops + [FromJournalOp(l[|l| - 1].op)])
  {
    var g := Scan(f, l[..|l| - 1]).value;
    if l[|l| - 1].StoreAppend? {
      AppendExtends(g.texts, l[|l| - 1].author, l[|l| - 1].blob);
    }
  }

  lemma SlicesFitBack(t0: Texts, t1: Texts)
    requires Extends(t0, t1) && SlicesFit(t1)
    ensures SlicesFit(t0)
  {
    forall a | 0 <= a < |t0| ensures |t0[a]| <= MAX_INT {
      assert t0[a] <= t1[a];
    }
  }

  lemma SeqIsIndexBack(a: seq<Op>, b: seq<Op>)
    requires a <= b && SeqIsIndex(b)
    ensures SeqIsIndex(a)
  {
    forall i | 0 <= i < |a| ensures ToInt(a[i].seqNo) == i {
      assert b[i] == a[i];
    }
  }

  /** The frontier of a replayable log counts each store's bytes exactly, and its
      version counts the ops when they are numbered by their index. */
  lemma {:induction false} FrontierCounts(l: seq<Record>)
    requires OneBase(l) && Scan(FreshFrame(l[0].bytes), l).Some?
    requires var f := Scan(FreshFrame(l[0].bytes), l).value;
             SlicesFit(f.texts) && |f.ops| <= MAX_INT && SeqIsIndex(f.ops)
    ensures Counts(FrontierOf(l), Scan(FreshFrame(l[0].bytes), l).value)
  {
    var f0 := FreshFrame(l[0].bytes);
    var pre, r := l[..|l| - 1], l[|l| - 1];
    if pre == [] {
      assert Scan(f0, pre) == Some(f0) && FrontierOf(pre) == NOTHING;
    } else {
      ScanLast(f0, l);
      var g, f := Scan(f0, pre).value, Scan(f0, l).value;
      ScanSlots(l[0].bytes, pre);
      SlicesFitBack(g.texts, f.texts);
      SeqIsIndexBack(g.ops, f.ops);
      FrontierCounts(pre);
      if r.OpRec? {
        assert ToInt(f.ops[|g.ops|].seqNo) == |g.ops|;
      }
      CountsStep(FrontierOf(pre), g, r);
    }
  }

  lemma BaseOfFirst(l: seq<Record>)
    requires OneBase(l)
    ensures BaseOf(l) == Some(l[0])
  {
  }

  /** Any log with one leading base that replays at all, honest or crafted: every op it
      keeps stays inside the stores and inside `int`, and the frontier read back from
      the log is exactly where the rebuilt session is, so the log just restored is the
      log the next capture appends to. The two bounds are what a Go slice can hold. */
  lemma AcceptedLogIsReused(l: seq<Record>)
    requires OneBase(l) && Build(l).Some?
    requires SlicesFit(Build(l).value.texts) && |Build(l).value.journal| <= MAX_INT
    ensures var s := Build(l).value;
            && 3 <= |s.texts| <= 256
            && JournalInStore(s.texts, s.journal)
            && AllInStore(s.texts, s.doc)
            && s.Text() == s.TextAt(|s.journal|)
            && Matches(FrontierOf(l), s)
    ensures var s := Build(l).value;
            forall saved :: Started(Some(l), s, saved) ==
                              if l[0].hash == Digest(s.texts[0]) then Some(l) else Some(FreshLog(s, saved))
  {
    BaseOfFirst(l);
    var base := l[0].bytes;
    var f0 := FreshFrame(base);
    var f := Scan(f0, l).value;
    var s := Build(l).value;
    AcceptedOpsInStore(f0, l);
    FrontierCounts(l);
    ScanGrows(f0, l);
    ScanSlots(base, l);
    assert f0.texts[0] <= f.texts[0];
    BaseInStore(s);
    ReplayInStore(s.texts, BasePieces(|base|), s.journal);
    assert s.journal[..|s.journal|] == s.journal;
  }

  /** The leading base matters: a second one moves the origin's frontier, and the log
      is then no longer recognised as the session it rebuilds. */
  lemma SecondBaseIsNotReused()
    ensures var l := [Base([7], [7]), Base([], [])];
            Build(l).Some? && !Matches(FrontierOf(l), Build(l).value)
  {
    var b0, b1 := Base([7], [7]), Base([], []);
    var l := [b0, b1];
    var f0 := FreshFrame([7]);
    assert l[..1] == [b0] && [b0][..0] == [];
    assert Scan(f0, [b0]) == Some(f0);
    assert Scan(f0, l) == Some(f0);
    assert BaseOf(l) == Some(b0);
    var s := Build(l).value;
    assert FrontierOf([b0]) == Read(NOTHING, b0);
    assert FrontierOf(l) == Read(FrontierOf([b0]), b1);
    assert FrontierOf(l).Stored(ORIGINAL) == 0;
    assert |s.texts[ORIGINAL]| == 1;
  }

  // ---------- A log that follows a live session ----------

  function OpCount(l: seq<Record>): nat {
    if l == [] then 0 else OpCount(l[..|l| - 1]) + if l[|l| - 1].OpRec? then 1 else 0
  }

  lemma {:induction false} OpCountIsOps(f: Frame, rs: seq<Record>)
    requires Scan(f, rs).Some?
    ensures |Scan(f, rs).value.ops| == |f.ops| + OpCount(rs)
  {
    if rs != [] {
      OpCountIsOps(f, rs[..|rs| - 1]);
    }
  }

  /** The log replays to an earlier moment of `live`: its stores are prefixes of the
      live stores and its ops are the first ops of the live journal. */
  ghost predicate Follows(log: seq<Record>, live: Session) {
    && OneBase(log)
    && 0 < |live.texts| && log[0].bytes == live.texts[0]
    && Scan(FreshFrame(live.texts[0]), log).Some?
    && var f := Scan(FreshFrame(live.texts[0]), log).value;
       Extends(f.texts, live.texts) && f.ops <= live.journal
  }

  lemma ScanPrefix(f: Frame, l: seq<Record>, k: nat)
    requires Scan(f, l).Some? && k <= |l|
    ensures Scan(f, l[..k]).Some?
    ensures Extends(Scan(f, l[..k]).value.texts, Scan(f, l).value.texts)
    ensures Scan(f, l[..k]).value.ops <= Scan(f, l).value.ops
  {
    assert l == l[..k] + l[k..];
    ScanSplit(f, l[..k], l[k..]);
    ScanGrows(Scan(f, l[..k]).value, l[k..]);
  }

  lemma FollowsPrefix(log: seq<Record>, live: Session, k: nat)
    requires Follows(log, live) && 1 <= k <= |log|
    ensures Follows(log[..k], live)
  {
    var f0 := FreshFrame(live.texts[0]);
    ScanPrefix(f0, log, k);
    ExtendsTrans(Scan(f0, log[..k]).value.texts, Scan(f0, log).value.texts, live.texts);
  }

  lemma FollowedLogReplays(log: seq<Record>, live: Session)
    requires live.Valid() && Follows(log, live)
    ensures Build(log).Some?
    ensures OpCount(log) <= |live.journal|
    ensures var s := Build(log).value;
            && 3 <= |s.texts| <= 256
            && s.texts[0] == live.texts[0]
            && s.origLen == live.origLen
            && SlicesFit(s.texts) && Extends(s.texts, live.texts)
            && JournalInStore(s.texts, s.journal)
            && s.journal == live.journal[..OpCount(log)]
            && s.doc == Replay(BasePieces(s.origLen), s.journal)
            && Follows(log, s)
  {
    BaseOfFirst(log);
    var base := live.texts[0];
    var f0 := FreshFrame(base);
    var f := Scan(f0, log).value;
    OpCountIsOps(f0, log);
    var n := OpCount(log);
    assert f.ops == live.journal[..n];
    assert SeqIsIndex(f.ops) by {
      forall i | 0 <= i < n ensures ToInt(f.ops[i].seqNo) == i {
        assert live.ValidOp(i);
      }
    }
    ScanGrows(f0, log);
    ScanSlots(base, log);
    assert f0.texts[0] <= f.texts[0] <= live.texts[0];
    AcceptedOpsInStore(f0, log);
    SlicesFitBack(f.texts, live.texts);
  }

  /** A log that follows a session rebuilds it at the version its op records reach. */
  lemma FollowedLogRebuilds(log: seq<Record>, live: Session)
    requires live.Valid() && Follows(log, live)
    ensures Build(log).Some?
    ensures OpCount(log) <= |live.journal|
    ensures var s := Build(log).value;
            && s.Valid()
            && s.texts[0] == live.texts[0]
            && s.journal == live.journal[..OpCount(log)]
            && s.Text() == live.TextAt(OpCount(log))
            && Follows(log, s)
    ensures forall v | 0 <= v <= OpCount(log) :: Build(log).value.TextAt(v) == live.TextAt(v)
  {
    FollowedLogReplays(log, live);
    var n := OpCount(log);
    var s := Build(log).value;
    BaseInStore(s);
    ReplayInStore(s.texts, BasePieces(s.origLen), s.journal);
    assert s.journal[..n] == s.journal;
    forall i | 0 <= i < n ensures s.ValidOp(i) {
      assert live.ValidOp(i);
      assert OpInStore(s.texts, s.journal[i]);
    }
    forall v | 0 <= v <= n ensures s.TextAt(v) == live.TextAt(v) {
      TextAtStable(s, live, v);
    }
  }

  lemma TextAtStable(s: Session, live: Session, v: nat)
    requires Extends(s.texts, live.texts) && s.origLen == live.origLen
    requires 0 < |s.texts| && s.origLen <= |s.texts[0]|
    requires JournalInStore(s.texts, s.journal) && s.journal <= live.journal && v <= |s.journal|
    ensures s.TextAt(v) == live.TextAt(v)
  {
    BaseInStore(s);
    var ops := s.journal[..v];
    assert ops == live.journal[..v];
    assert OpsInStore(s.texts, ops) by {
      forall i | 0 <= i < |ops| ensures AllInStore(s.texts, ops[i].ins) {
        assert OpInStore(s.texts, s.journal[i]);
      }
    }
    ReplayInStore(s.texts, BasePieces(s.origLen), ops);
    RenderStable(s.texts, live.texts, Replay(BasePieces(s.origLen), ops));
  }

  // ---------- What a pass adds ----------

  /** A record that names an author: the store it grows, the op's writer, or the owner
      of a store the op's pieces address. */
  predicate NamesAuthor(r: Record, id: u8) {
    match r
    case StoreAppend(a, _, _) => a == id
    case OpRec(j) =>
      || j.author == id
      || (exists i :: 0 <= i < |j.del| && j.del[i].buf == id)
      || (exists i :: 0 <= i < |j.ins| && j.ins[i].buf == id)
    case _ => false
  }

  /** The row last written for `id` is the registry's, when it has one to write. */
  predicate Known(t: Frontier, reg: Registry, id: u8) {
    id == ORIGINAL || id !in reg || (id in t.authors && t.authors[id] == reg[id])
  }

  predicate NamesKnown(r: Record, t: Frontier, reg: Registry) {
    forall id: u8 :: NamesAuthor(r, id) ==> Known(t, reg, id)
  }

  /** A record that may come next in a log whose frontier is `t`. */
  ghost predicate MayFollow(r: Record, t: Frontier, live: Session, reg: Registry) {
    NamesKnown(r, t, reg) &&
    match r
    case Base(_, _) => false
    case StoreAppend(a, start, blob) =>
      a < |live.texts| && blob != [] && start == t.Stored(a) <= |live.texts[a]| && blob == live.texts[a][start..]
    case OpRec(j) =>
      && t.version < |live.journal|
      && OpSmall(live.journal[t.version]) && j == ToJournalOp(live.journal[t.version])
      && forall a: u8 :: a < |live.texts| ==> t.Stored(a) == |live.texts[a]|
    case _ => true
  }

  /** The log follows the session and the tap is exactly its frontier. */
  ghost predicate Tracks(log: seq<Record>, t: Frontier, live: Session) {
    && Follows(log, live)
    && t == FrontierOf(log)
    && Counts(t, Scan(FreshFrame(live.texts[0]), log).value)
  }

  lemma OpFollows(f: Frame, live: Session, k: nat)
    requires live.Valid() && k < |live.journal| && Extends(f.texts, live.texts)
    requires forall a: u8 :: a < |live.texts| ==> Len(f.texts, a) == |live.texts[a]|
    ensures OpSmall(live.journal[k])
    ensures var j := ToJournalOp(live.journal[k]);
            && CheckJournalRecs(j.ins, f.texts) && CheckJournalRecs(j.del, f.texts)
            && FromJournalOp(j) == live.journal[k] && j.pos <= MAX_INT
  {
    hide CheckJournalRecs, FromJournalOp;
    var o := live.journal[k];
    assert live.ValidOp(k);
    SlicesFitBack(f.texts, live.texts);
    forall i | 0 <= i < |o.ins| ensures o.ins[i].buf < |f.texts| && o.ins[i].start + o.ins[i].length <= |f.texts[o.ins[i].buf]| <= MAX_INT {
      assert InStore(live.texts, o.ins[i]);
    }
    forall i | 0 <= i < |o.del| ensures o.del[i].buf < |f.texts| && o.del[i].start + o.del[i].length <= |f.texts[o.del[i].buf]| <= MAX_INT {
      assert InStore(live.texts, o.del[i]);
    }
    var j := ToJournalOp(o);
    CheckMeansInStore(j.ins, f.texts);
    CheckMeansInStore(j.del, f.texts);
    JournalOpRoundTrip(o, j);
  }

  lemma ScanSnoc(f: Frame, l: seq<Record>, r: Record)
    ensures Scan(f, l + [r]) == match Scan(f, l) case None => None case Some(g) => ScanStep(g, r)
    ensures FrontierOf(l + [r]) == Read(FrontierOf(l), r)
  {
    assert (l + [r])[..|l + [r]| - 1] == l;
  }

  lemma AppendGrown(f: Frame, live: Session, a: u8, blob: Bytes)
    requires Extends(f.texts, live.texts) && a < |live.texts|
    requires Len(f.texts, a) <= |live.texts[a]| && blob == live.texts[a][Len(f.texts, a)..]
    ensures Extends(Append(f.texts, a, blob), live.texts)
  {
    var t := Append(f.texts, a, blob);
    if a < |f.texts| {
      assert f.texts[a] <= live.texts[a];
      assert t[a] == live.texts[a];
    } else {
      assert t[a] == [] + live.texts[a][0..];
    }
  }

  lemma NotABase(f: Frame, t: Frontier, live: Session, r: Record, reg: Registry)
    requires live.Valid() && MayFollow(r, t, live, reg)
    ensures !r.Base? && SlicesFit(live.texts) && |live.journal| <= MAX_INT
  {
    hide NamesKnown;
  }

  lemma ScanStore(f: Frame, t: Frontier, live: Session, r: Record, reg: Registry)
    requires live.Valid() && MayFollow(r, t, live, reg) && Counts(t, f) && r.StoreAppend?
    requires Extends(f.texts, live.texts)
    ensures ScanStep(f, r).Some?
    ensures var g := ScanStep(f, r).value;
            Extends(g.texts, live.texts) && SlicesFit(g.texts) && g.ops == f.ops
  {
    hide Append, NamesKnown;
    AppendGrown(f, live, r.author, r.blob);
    SlicesFitBack(Append(f.texts, r.author, r.blob), live.texts);
  }

  lemma ScanOp(f: Frame, t: Frontier, live: Session, r: Record, reg: Registry)
    requires live.Valid() && MayFollow(r, t, live, reg) && Counts(t, f) && |f.texts| <= 256 && r.OpRec?
    requires Extends(f.texts, live.texts) && f.ops <= live.journal
    ensures ScanStep(f, r).Some?
    ensures var g := ScanStep(f, r).value;
            g.texts == f.texts && g.ops <= live.journal && SlicesFit(g.texts)
    ensures r.op.seqNo == |f.ops|
  {
    hide NamesKnown, CheckJournalRecs, FromJournalOp, Extends;
    OpFollows(f, live, t.version);
    assert live.ValidOp(t.version);
    assert f.ops == live.journal[..t.version];
    assert f.ops + [live.journal[t.version]] == live.journal[..t.version + 1];
    SlicesFitBack(f.texts, live.texts);
  }

  /** One more record extends the frame the log replays to, inside the live session. */
  lemma ScanOneMore(f: Frame, t: Frontier, live: Session, r: Record, reg: Registry)
    requires live.Valid() && MayFollow(r, t, live, reg) && Counts(t, f) && |f.texts| <= 256
    requires Extends(f.texts, live.texts) && f.ops <= live.journal
    ensures ScanStep(f, r).Some?
    ensures var g := ScanStep(f, r).value;
            && Extends(g.texts, live.texts) && g.ops <= live.journal
            && SlicesFit(g.texts) && |g.ops| <= MAX_INT
    ensures r.OpRec? ==> r.op.seqNo == |f.ops|
  {
    hide Append, MayFollow, ToJournalOp, FromJournalOp, CheckJournalRecs;
    NotABase(f, t, live, r, reg);
    match r {
      case StoreAppend(a, start, blob) => ScanStore(f, t, live, r, reg);
      case OpRec(j) => ScanOp(f, t, live, r, reg);
      case _ => SlicesFitBack(f.texts, live.texts);
    }
  }

  /** One more record keeps the log following the session, and what `appendTap` notes
      is what `tapFromLog` would read. */
  lemma TracksOneMore(log: seq<Record>, t: Frontier, live: Session, r: Record, reg: Registry)
    requires live.Valid() && Tracks(log, t, live) && MayFollow(r, t, live, reg)
    ensures Tracks(log + [r], Told(t, r), live)
  {
    var f0 := FreshFrame(live.texts[0]);
    var f := Scan(f0, log).value;
    ScanSnoc(f0, log, r);
    ScanSlots(live.texts[0], log);
    ScanOneMore(f, t, live, r, reg);
    CountsStep(t, f, r);
    assert OneBase(log + [r]);
  }

  ghost predicate PlanFollows(plan: seq<Record>, t: Frontier, live: Session, reg: Registry) {
    plan == [] ||
    (var pre := plan[..|plan| - 1];
     PlanFollows(pre, t, live, reg) && MayFollow(plan[|plan| - 1], ToldAll(t, pre), live, reg))
  }

  lemma ToldNothing(t: Frontier)
    ensures ToldAll(t, []) == t
  {
  }

  lemma ToldLast(t: Frontier, plan: seq<Record>)
    requires plan != []
    ensures ToldAll(t, plan) == Told(ToldAll(t, plan[..|plan| - 1]), plan[|plan| - 1])
  {
    hide Told;
  }

  lemma PlanLast(plan: seq<Record>, t: Frontier, live: Session, reg: Registry)
    requires plan != [] && PlanFollows(plan, t, live, reg)
    ensures PlanFollows(plan[..|plan| - 1], t, live, reg)
    ensures MayFollow(plan[|plan| - 1], ToldAll(t, plan[..|plan| - 1]), live, reg)
  {
    hide MayFollow, ToldAll;
  }

  lemma {:induction false} TracksPlan(log: seq<Record>, t: Frontier, live: Session, plan: seq<Record>, reg: Registry)
    requires live.Valid() && Tracks(log, t, live) && PlanFollows(plan, t, live, reg)
    ensures Tracks(log + plan, ToldAll(t, plan), live)
  {
    hide Session.Valid, Tracks, MayFollow, Told, ToldAll, PlanFollows;
    if plan == [] {
      ToldNothing(t);
      assert log + plan == log;
    } else {
      var pre, r := plan[..|plan| - 1], plan[|plan| - 1];
      PlanLast(plan, t, live, reg);
      TracksPlan(log, t, live, pre, reg);
      TracksOneMore(log + pre, ToldAll(t, pre), live, r, reg);
      ToldLast(t, plan);
      assert log + plan == log + pre + [r];
    }
  }

  lemma {:induction false} PlanFollowsPrefix(plan: seq<Record>, n: nat, t: Frontier, live: Session, reg: Registry)
    requires n <= |plan| && PlanFollows(plan, t, live, reg)
    ensures PlanFollows(plan[..n], t, live, reg)
  {
    if n == |plan| {
      assert plan[..n] == plan;
    } else {
      PlanFollowsPrefix(plan[..|plan| - 1], n, t, live, reg);
      assert plan[..|plan| - 1][..n] == plan[..n];
    }
  }

  lemma PlanFollowsSnoc(a: seq<Record>, r: Record, t: Frontier, live: Session, reg: Registry)
    requires PlanFollows(a, t, live, reg) && MayFollow(r, ToldAll(t, a), live, reg)
    ensures PlanFollows(a + [r], t, live, reg)
    ensures ToldAll(t, a + [r]) == Told(ToldAll(t, a), r)
  {
    assert (a + [r])[..|a + [r]| - 1] == a;
  }

  lemma {:induction false} PlanFollowsConcat(a: seq<Record>, b: seq<Record>, t: Frontier, live: Session, reg: Registry)
    requires PlanFollows(a, t, live, reg) && PlanFollows(b, ToldAll(t, a), live, reg)
    ensures PlanFollows(a + b, t, live, reg)
    decreases |b|
  {
    if b == [] {
      assert a + b == a;
    } else {
      var pre, r := b[..|b| - 1], b[|b| - 1];
      PlanFollowsConcat(a, pre, t, live, reg);
      ToldSplit(t, a, pre);
      PlanFollowsSnoc(a + pre, r, t, live, reg);
      assert a + b == a + pre + [r];
    }
  }

  lemma PlanFollowsOne(r: Record, t: Frontier, live: Session, reg: Registry)
    requires MayFollow(r, t, live, reg)
    ensures PlanFollows([r], t, live, reg)
    ensures ToldAll(t, [r]) == Told(t, r)
  {
    assert [] + [r] == [r];
    PlanFollowsSnoc([], r, t, live, reg);
  }

  /** Author rows leave the version, the stores and the decisions alone. */
  lemma {:induction false} AuthorsFollow(t: Frontier, reg: Registry, ids: seq<u8>, live: Session)
    requires RegistryOk(reg)
    ensures var u := ToldAll(t, PlanAuthors(t, reg, ids));
            forall id: u8 :: id in ids || Known(t, reg, id) ==> Known(u, reg, id)
    ensures PlanFollows(PlanAuthors(t, reg, ids), t, live, reg)
    ensures var u := ToldAll(t, PlanAuthors(t, reg, ids));
            u.version == t.version && u.store == t.store && u.state == t.state
    decreases |ids|
  {
    hide PlanAuthor;
    if ids != [] {
      var first := PlanAuthor(t, reg, ids[0]);
      AuthorFollows(t, reg, ids[0], live);
      AuthorsFollow(ToldAll(t, first), reg, ids[1..], live);
      PlanFollowsConcat(first, PlanAuthors(ToldAll(t, first), reg, ids[1..]), t, live, reg);
      ToldSplit(t, first, PlanAuthors(ToldAll(t, first), reg, ids[1..]));
    }
  }

  lemma AuthorFollows(t: Frontier, reg: Registry, id: u8, live: Session)
    requires RegistryOk(reg)
    ensures var u := ToldAll(t, PlanAuthor(t, reg, id));
            Known(u, reg, id) && forall b: u8 :: Known(t, reg, b) ==> Known(u, reg, b)
    ensures PlanFollows(PlanAuthor(t, reg, id), t, live, reg)
    ensures var u := ToldAll(t, PlanAuthor(t, reg, id));
            u.version == t.version && u.store == t.store && u.state == t.state
  {
    var first := PlanAuthor(t, reg, id);
    if first != [] {
      PlanFollowsOne(first[0], t, live, reg);
    }
  }

  ghost predicate Behind(t: Frontier, live: Session) {
    && (forall a: u8 :: a < |live.texts| ==> t.Stored(a) <= |live.texts[a]|)
    && t.version <= |live.journal|
  }

  lemma StoreFollows(t: Frontier, live: Session, reg: Registry, id: u8)
    requires RegistryOk(reg)
    requires Storable(live) && Behind(t, live) && id < |live.texts|
    ensures PlanFollows(PlanStore(t, live, reg, id), t, live, reg)
    ensures var u := ToldAll(t, PlanStore(t, live, reg, id));
            && u.version == t.version && u.state == t.state
            && u.Stored(id) == |live.texts[id]|
            && forall b: u8 :: b != id ==> u.Stored(b) == t.Stored(b)
  {
    var from := t.Stored(id);
    if |live.texts[id]| > from {
      var a, r := PlanAuthor(t, reg, id), StoreAppend(id, from, live.texts[id][from..]);
      AuthorFollows(t, reg, id, live);
      PlanFollowsSnoc(a, r, t, live, reg);
    }
  }

  ghost predicate ToldBelow(t: Frontier, live: Session, id: nat) {
    forall a: u8 :: a < id && a < |live.texts| ==> t.Stored(a) == |live.texts[a]|
  }

  lemma ToldBelowStep(t: Frontier, u: Frontier, live: Session, id: u8)
    requires id < |live.texts| && Behind(t, live) && ToldBelow(t, live, id)
    requires u.version == t.version && u.Stored(id) == |live.texts[id]|
    requires forall b: u8 :: b != id ==> u.Stored(b) == t.Stored(b)
    ensures Behind(u, live) && ToldBelow(u, live, id + 1)
  {
  }

  lemma {:induction false} StoresFollow(t: Frontier, live: Session, reg: Registry, id: nat)
    requires RegistryOk(reg)
    requires Storable(live) && Behind(t, live) && id <= |live.texts|
    requires ToldBelow(t, live, id)
    ensures PlanFollows(PlanStores(t, live, reg, id), t, live, reg)
    ensures var u := ToldAll(t, PlanStores(t, live, reg, id));
            u.version == t.version && u.state == t.state && ToldBelow(u, live, |live.texts|)
    decreases |live.texts| - id
  {
    hide PlanStore;
    if id < |live.texts| {
      PlanStoresHead(t, live, reg, id);
      var one := PlanStore(t, live, reg, id);
      var u := ToldAll(t, one);
      StoreFollows(t, live, reg, id);
      ToldBelowStep(t, u, live, id);
      StoresFollow(u, live, reg, id + 1);
      PlanFollowsConcat(one, PlanStores(u, live, reg, id + 1), t, live, reg);
      ToldSplit(t, one, PlanStores(u, live, reg, id + 1));
    }
  }

  ghost predicate Numbered(live: Session) {
    |live.journal| <= MAX_INT && forall i :: 0 <= i < |live.journal| ==> live.journal[i].seqNo == i
  }

  ghost predicate StoresTold(t: Frontier, live: Session) {
    forall a: u8 :: a < |live.texts| ==> t.Stored(a) == |live.texts[a]|
  }

  lemma NamedMeansNames(o: Op, id: u8)
    requires OpSmall(o)
    ensures NamesAuthor(OpRec(ToJournalOp(o)), id) <==> id in Named(o)
  {
    var j := ToJournalOp(o);
    var d, n := Bufs(o.del), Bufs(o.ins);
    assert id in d <==> exists i :: 0 <= i < |j.del| && j.del[i].buf == id by {
      if i :| 0 <= i < |j.del| && j.del[i].buf == id { assert d[i] == id; }
      if id in d { var i :| 0 <= i < |d| && d[i] == id; assert j.del[i].buf == id; }
    }
    assert id in n <==> exists i :: 0 <= i < |j.ins| && j.ins[i].buf == id by {
      if i :| 0 <= i < |j.ins| && j.ins[i].buf == id { assert n[i] == id; }
      if id in n { var i :| 0 <= i < |n| && n[i] == id; assert j.ins[i].buf == id; }
    }
  }

  lemma OpMayFollow(t: Frontier, u: Frontier, live: Session, reg: Registry)
    requires Numbered(live) && Storable(live) && StoresTold(t, live) && t.version < |live.journal|
    requires u.version == t.version && u.store == t.store
    requires forall id: u8 :: id in Named(live.journal[t.version]) ==> Known(u, reg, id)
    ensures var r := OpRec(ToJournalOp(live.journal[t.version]));
            MayFollow(r, u, live, reg) && Told(u, r) == u.(version := t.version + 1)
  {
    var o := live.journal[t.version];
    forall id: u8 | NamesAuthor(OpRec(ToJournalOp(o)), id) ensures Known(u, reg, id) {
      NamedMeansNames(o, id);
    }
    assert forall a: u8 :: u.Stored(a) == t.Stored(a);
  }

  lemma OpPlanFollows(t: Frontier, live: Session, reg: Registry)
    requires RegistryOk(reg)
    requires Numbered(live) && Storable(live) && StoresTold(t, live) && t.version < |live.journal|
    ensures var plan := PlanOp(t, reg, live.journal[t.version]);
            && PlanFollows(plan, t, live, reg)
            && ToldAll(t, plan).version == t.version + 1
            && ToldAll(t, plan).store == t.store && ToldAll(t, plan).state == t.state
  {
    hide PlanAuthors, Named, MayFollow, ToJournalOp, Told, StoresTold;
    var o := live.journal[t.version];
    var a, r := PlanAuthors(t, reg, Named(o)), OpRec(ToJournalOp(o));
    AuthorsFollow(t, reg, Named(o), live);
    OpMayFollow(t, ToldAll(t, a), live, reg);
    PlanFollowsSnoc(a, r, t, live, reg);
  }

  lemma {:induction false} OpsFollow(t: Frontier, live: Session, reg: Registry)
    requires RegistryOk(reg)
    requires Numbered(live) && Storable(live) && StoresTold(t, live) && t.version <= |live.journal|
    ensures var plan := PlanOps(t, reg, live.OpsSince(t.version));
            && PlanFollows(plan, t, live, reg)
            && ToldAll(t, plan).version == |live.journal|
            && ToldAll(t, plan).store == t.store && ToldAll(t, plan).state == t.state
    decreases |live.journal| - t.version
  {
    hide PlanOp;
    if t.version < |live.journal| {
      var ops := live.journal[t.version..];
      var one := PlanOp(t, reg, ops[0]);
      OpPlanFollows(t, live, reg);
      var u := ToldAll(t, one);
      assert ops[1..] == live.OpsSince(u.version);
      OpsFollow(u, live, reg);
      PlanFollowsConcat(one, PlanOps(u, reg, ops[1..]), t, live, reg);
      ToldSplit(t, one, PlanOps(u, reg, ops[1..]));
    }
  }

  /** A decision the log already tells a reader of the session's state for `g`. */
  predicate Recorded(t: Frontier, live: Session, g: u64) {
    (if g in t.state then t.state[g] else ACCEPTED) == live.GroupState(g)
  }

  lemma {:induction false} DecisionsFollow(t: Frontier, live: Session, gs: seq<u64>, reg: Registry)
    ensures var plan := PlanDecisions(t, live, gs);
            && PlanFollows(plan, t, live, reg)
            && ToldAll(t, plan).version == t.version && ToldAll(t, plan).store == t.store
            && (forall g :: g in gs || Recorded(t, live, g) ==> Recorded(ToldAll(t, plan), live, g))
    decreases |gs|
  {
    if gs != [] {
      var one := PlanDecision(t, live, gs[0]);
      if one != [] {
        PlanFollowsOne(one[0], t, live, reg);
      }
      var u := ToldAll(t, one);
      DecisionsFollow(u, live, gs[1..], reg);
      PlanFollowsConcat(one, PlanDecisions(u, live, gs[1..]), t, live, reg);
      ToldSplit(t, one, PlanDecisions(u, live, gs[1..]));
      assert forall g :: g in gs ==> g == gs[0] || g in gs[1..];
    }
  }

  lemma ValidIsStorable(live: Session)
    requires live.Valid()
    ensures Storable(live) && Numbered(live)
  {
    forall i | 0 <= i < |live.journal| ensures live.journal[i].seqNo == i {
      assert live.ValidOp(i);
    }
    forall i | 0 <= i < |live.journal| ensures OpSmall(live.journal[i]) {
      var o := live.journal[i];
      assert live.ValidOp(i);
      forall k | 0 <= k < |o.ins| ensures PieceSmall(o.ins[k]) {
        assert InStore(live.texts, o.ins[k]);
      }
      forall k | 0 <= k < |o.del| ensures PieceSmall(o.del[k]) {
        assert InStore(live.texts, o.del[k]);
      }
    }
  }

  /** A whole pass is a legal continuation of the log, and ends with the session told
      in full: every store, every op and the decision on every set an edit belongs to. */
  lemma PassFollows(t: Frontier, live: Session, reg: Registry)
    requires RegistryOk(reg)
    requires Numbered(live) && Storable(live) && Behind(t, live)
    ensures PlanFollows(Plan(t, live, reg), t, live, reg)
    ensures var u := ToldAll(t, Plan(t, live, reg));
            && u.version == |live.journal| && StoresTold(u, live)
            && (forall g :: g in GroupIds(live.journal) ==> Recorded(u, live, g))
            && (forall i :: 0 <= i < |live.journal| && live.journal[i].kind == KIND_EDIT ==>
                  Recorded(u, live, live.journal[i].group))
  {
    hide PlanStores, PlanOps, PlanDecisions, GroupIds, FirstEdit, Recorded;
    GroupIdsMean(live.journal);
    forall i | 0 <= i < |live.journal| && live.journal[i].kind == KIND_EDIT ensures live.journal[i].group in GroupIds(live.journal) {
      assert EditOf(live.journal[i], live.journal[i].group);
    }
    var stores := PlanStores(t, live, reg, 0);
    StoresFollow(t, live, reg, 0);
    assert StoresTold(ToldAll(t, stores), live);
    var t1 := ToldAll(t, stores);
    var ops := PlanOps(t1, reg, live.OpsSince(t1.version));
    OpsFollow(t1, live, reg);
    var t2 := ToldAll(t1, ops);
    var decisions := PlanDecisions(t2, live, GroupIds(live.journal));
    DecisionsFollow(t2, live, GroupIds(live.journal), reg);
    PlanFollowsConcat(stores, ops, t, live, reg);
    ToldSplit(t, stores, ops);
    PlanFollowsConcat(stores + ops, decisions, t, live, reg);
    ToldSplit(t, stores + ops, decisions);
  }
}
