/** The on-disk op log: what `appendTap` writes, how `buildSession` replays it, and
    the frontier `tapFromLog` reads back. The log is the sequence of its whole
    records; persisted integers keep their 64-bit width. */
module OpLog {
  import opened Options
  import opened PieceTable

  // ---------- Persisted records ----------

  datatype JPiece = JPiece(buf: u8, start: u64, length: u64)

  datatype JOp = JOp(seqNo: u64, author: u8, pos: u64, del: seq<JPiece>, ins: seq<JPiece>,
                     undoes: u64, group: u64, kind: u8)

  datatype AuthorRow = AuthorRow(id: u8, identity: string, name: string, kind: u8, task: string)

  datatype Record =
    | Base(hash: Bytes, bytes: Bytes)
    | StoreAppend(author: u8, start: u64, blob: Bytes)
    | OpRec(op: JOp)
    | Decision(group: u64, state: u8)
    | Author(row: AuthorRow)
    | Written(hash: Bytes, version: u64)
    | ViewState(view: Bytes)

  /** Go's `int(x)` of a uint64: two's complement, so a value above MaxInt turns negative. */
  function ToInt(x: u64): int {
    if x <= MAX_INT then x else x - 0x1_0000_0000_0000_0000
  }

  /** Go's 64-bit `int` addition. */
  function WrapInt(x: int): (r: int)
    ensures -MAX_INT - 1 <= r <= MAX_INT
    ensures -MAX_INT - 1 <= x <= MAX_INT ==> r == x
  {
    (x + MAX_INT + 1) % 0x1_0000_0000_0000_0000 - MAX_INT - 1
  }

  function WrapU64(x: nat): u64 {
    x % 0x1_0000_0000_0000_0000
  }

  // ---------- Conversions ----------

  predicate PieceSmall(p: Piece) {
    p.start <= MAX_INT && p.length <= MAX_INT
  }

  predicate OpSmall(o: Op) {
    && o.pos <= MAX_INT
    && (forall i :: 0 <= i < |o.del| ==> PieceSmall(o.del[i]))
    && (forall i :: 0 <= i < |o.ins| ==> PieceSmall(o.ins[i]))
  }

  function ToJournalPieces(ps: seq<Piece>): seq<JPiece>
    requires forall i :: 0 <= i < |ps| ==> PieceSmall(ps[i])
  {
    seq(|ps|, i requires 0 <= i < |ps| && PieceSmall(ps[i]) => JPiece(ps[i].buf, ps[i].start, ps[i].length))
  }

  function ToJournalOp(o: Op): JOp
    requires OpSmall(o)
  {
    JOp(o.seqNo, o.author, o.pos, ToJournalPieces(o.del), ToJournalPieces(o.ins), o.undoes, o.group, o.kind)
  }

  /** A persisted span that converts to `int` without changing sign. */
  predicate PieceFits(p: JPiece) {
    p.start <= MAX_INT && p.length <= MAX_INT
  }

  function FromJournalPieces(ps: seq<JPiece>): seq<Piece>
    requires forall i :: 0 <= i < |ps| ==> PieceFits(ps[i])
  {
    seq(|ps|, i requires 0 <= i < |ps| && PieceFits(ps[i]) => Piece(ps[i].buf, ToInt(ps[i].start), ToInt(ps[i].length)))
  }

  predicate JOpFits(o: JOp) {
    && o.pos <= MAX_INT
    && (forall i :: 0 <= i < |o.del| ==> PieceFits(o.del[i]))
    && (forall i :: 0 <= i < |o.ins| ==> PieceFits(o.ins[i]))
  }

  function FromJournalOp(o: JOp): Op
    requires JOpFits(o)
  {
    Op(o.seqNo, o.author, ToInt(o.pos), FromJournalPieces(o.del), FromJournalPieces(o.ins), o.undoes, o.group, o.kind)
  }

  /** Persisting an op and reading it back loses nothing, in either direction. */
  lemma JournalOpRoundTrip(o: Op, j: JOp)
    ensures OpSmall(o) ==> JOpFits(ToJournalOp(o)) && FromJournalOp(ToJournalOp(o)) == o
    ensures JOpFits(j) ==> OpSmall(FromJournalOp(j)) && ToJournalOp(FromJournalOp(j)) == j
  {
    if OpSmall(o) {
      var back := FromJournalOp(ToJournalOp(o));
      assert back.del == o.del && back.ins == o.ins;
    }
    if JOpFits(j) {
      var back := ToJournalOp(FromJournalOp(j));
      assert back.del == j.del && back.ins == j.ins;
    }
  }

  // ---------- Replaying a log ----------

  /** A piece that can address its author's store, checked without an addition. */
  predicate CheckPiece(p: JPiece, texts: Texts) {
    PieceFits(p) && p.buf < |texts| &&
    var n := |texts[p.buf]|;
    !(ToInt(p.start) > n || ToInt(p.length) > n - ToInt(p.start))
  }

  predicate CheckJournalRecs(ps: seq<JPiece>, texts: Texts) {
    forall i :: 0 <= i < |ps| ==> CheckPiece(ps[i], texts)
  }

  /** What `buildSession` carries through its record loop. */
  datatype Frame = Frame(texts: Texts, ops: seq<Op>, decisions: map<u64, u8>,
                         groupTask: map<u64, string>, authorTask: map<u8, string>)

  function TaskOf(f: Frame, a: u8): string {
    if a in f.authorTask then f.authorTask[a] else ""
  }

  function ScanStep(f: Frame, r: Record): Option<Frame> {
    match r
    case StoreAppend(a, start, blob) =>
      if ToInt(start) != Len(f.texts, a) then None
      else Some(f.(texts := Append(f.texts, a, blob)))
    case OpRec(o) =>
      if o.pos > MAX_INT || !CheckJournalRecs(o.del, f.texts) || !CheckJournalRecs(o.ins, f.texts) then None
      else
        var task := TaskOf(f, o.author);
        Some(f.(ops := f.ops + [FromJournalOp(o)],
                groupTask := if o.group !in f.groupTask && task != "" then f.groupTask[o.group := task] else f.groupTask))
    case Decision(g, st) => Some(f.(decisions := f.decisions[g := st]))
    case Author(row) => Some(f.(authorTask := f.authorTask[row.id := row.task]))
    case _ => Some(f)
  }

  function Scan(f: Frame, rs: seq<Record>): Option<Frame> {
    if rs == [] then Some(f)
    else match Scan(f, rs[..|rs| - 1])
         case None => None
         case Some(g) => ScanStep(g, rs[|rs| - 1])
  }

  function BaseOf(l: seq<Record>): Option<Record> {
    if l == [] then None else if l[0].Base? then Some(l[0]) else BaseOf(l[1..])
  }

  function FreshFrame(base: Bytes): Frame {
    Frame(NewTexts(base), [], map[], map[], map[])
  }

  predicate SeqIsIndex(ops: seq<Op>) {
    forall i :: 0 <= i < |ops| ==> ToInt(ops[i].seqNo) == i
  }

  /** `NewRestoredSession` keeps only the decisions that are not the default. */
  function KeepDecisions(d: map<u64, u8>): map<u64, u8> {
    map g | g in d && d[g] != ACCEPTED :: d[g]
  }

  function Restored(base: Bytes, f: Frame): Session {
    Session(f.texts, Replay(BasePieces(|base|), f.ops), |base|, f.ops, KeepDecisions(f.decisions), f.groupTask)
  }

  /** The session a log rebuilds, or none when its records do not line up. */
  function Build(l: seq<Record>): Option<Session> {
    match BaseOf(l)
    case Some(Base(_, base)) =>
      (match Scan(FreshFrame(base), l)
       case Some(f) => if SeqIsIndex(f.ops) then Some(Restored(base, f)) else None
       case None => None)
    case _ => None
  }

  method FindBase(l: seq<Record>) returns (r: Option<Record>)
    ensures r == BaseOf(l)
    ensures r.Some? ==> r.value.Base?
  {
    for i := 0 to |l|
      invariant BaseOf(l) == BaseOf(l[i..])
    {
      if l[i].Base? {
        return Some(l[i]);
      }
    }
    r := None;
  }

  method BuildSession(l: seq<Record>) returns (r: Option<Session>)
    ensures r == Build(l)
  {
    var b := FindBase(l);
    if b.None? {
      return None;
    }
    var base := b.value.bytes;
    ghost var f0 := FreshFrame(base);
    var texts := NewTexts(base);
    var ops: seq<Op> := [];
    var decisions: map<u64, u8> := map[];
    var groupTask: map<u64, string> := map[];
    var authorTask: map<u8, string> := map[];
    for i := 0 to |l|
      invariant Scan(f0, l[..i]) == Some(Frame(texts, ops, decisions, groupTask, authorTask))
    {
      assert l[..i + 1][..i] == l[..i];
      match l[i] {
        case StoreAppend(a, start, blob) =>
          if ToInt(start) != Len(texts, a) {
            ScanFails(f0, l, i + 1);
            return None;
          }
          texts := Append(texts, a, blob);
        case OpRec(o) =>
          if o.pos > MAX_INT || !CheckJournalRecs(o.del, texts) || !CheckJournalRecs(o.ins, texts) {
            ScanFails(f0, l, i + 1);
            return None;
          }
          if o.group !in groupTask {
            var task := if o.author in authorTask then authorTask[o.author] else "";
            if task != "" {
              groupTask := groupTask[o.group := task];
            }
          }
          ops := ops + [FromJournalOp(o)];
        case Decision(g, st) =>
          decisions := decisions[g := st];
        case Author(row) =>
          authorTask := authorTask[row.id := row.task];
        case _ =>
      }
    }
    assert l[..|l|] == l;
    for i := 0 to |ops|
      invariant forall k :: 0 <= k < i ==> ToInt(ops[k].seqNo) == k
    {
      if ToInt(ops[i].seqNo) != i {
        return None;
      }
    }
    r := Some(Session(texts, Replay(BasePieces(|base|), ops), |base|, ops, KeepDecisions(decisions), groupTask));
  }

  lemma {:induction false} ScanFails(f: Frame, rs: seq<Record>, n: nat)
    requires n <= |rs| && Scan(f, rs[..n]) == None
    ensures Scan(f, rs) == None
    decreases |rs| - n
  {
    if n == |rs| {
      assert rs[..n] == rs;
    } else {
      assert rs[..n + 1][..n] == rs[..n];
      ScanFails(f, rs, n + 1);
    }
  }

  lemma {:induction false} ScanSplit(f: Frame, a: seq<Record>, b: seq<Record>)
    ensures Scan(f, a + b) == match Scan(f, a) case None => None case Some(g) => Scan(g, b)
    decreases |b|
  {
    if b == [] {
      assert a + b == a;
    } else {
      assert (a + b)[..|a + b| - 1] == a + b[..|b| - 1];
      ScanSplit(f, a, b[..|b| - 1]);
    }
  }

  // ---------- The frontier ----------

  /** How far a log has been told about a session. */
  datatype Frontier = Frontier(version: u64, store: map<u8, nat>, state: map<u64, u8>, authors: map<u8, AuthorRow>)
  {
    function Stored(a: u8): nat {
      if a in store then store[a] else 0
    }
  }

  const NOTHING := Frontier(0, map[], map[], map[])

  /** One record of `tapFromLog`'s loop. */
  function Read(f: Frontier, r: Record): Frontier {
    match r
    case Base(_, bytes) => f.(store := f.store[ORIGINAL := |bytes|])
    case StoreAppend(a, start, blob) =>
      var end := WrapInt(ToInt(start) + |blob|);
      if end > f.Stored(a) then f.(store := f.store[a := end]) else f
    case OpRec(o) =>
      var next := WrapU64(o.seqNo + 1);
      if next > f.version then f.(version := next) else f
    case Decision(g, st) => f.(state := f.state[g := st])
    case Author(row) => f.(authors := f.authors[row.id := row])
    case _ => f
  }

  function FrontierOf(l: seq<Record>): Frontier {
    if l == [] then NOTHING else Read(FrontierOf(l[..|l| - 1]), l[|l| - 1])
  }

  /** `logTap.matches`: the frontier is exactly where the session is. */
  predicate Matches(f: Frontier, s: Session) {
    f.version == |s.journal| && forall a: u8 :: a < |s.texts| ==> |s.texts[a]| == f.Stored(a)
  }

  // ---------- What a pass writes ----------

  type Registry = map<u8, AuthorRow>

  predicate RegistryOk(reg: Registry) {
    forall id :: id in reg ==> reg[id].id == id
  }

  /** What `appendTap` notes after a record is written. */
  function Told(f: Frontier, r: Record): Frontier {
    match r
    case StoreAppend(a, start, blob) => f.(store := f.store[a := start + |blob|])
    case OpRec(o) => f.(version := WrapU64(o.seqNo + 1))
    case Decision(g, st) => f.(state := f.state[g := st])
    case Author(row) => f.(authors := f.authors[row.id := row])
    case _ => f
  }

  function ToldAll(f: Frontier, rs: seq<Record>): Frontier {
    if rs == [] then f else Told(ToldAll(f, rs[..|rs| - 1]), rs[|rs| - 1])
  }

  lemma {:induction false} ToldSplit(f: Frontier, a: seq<Record>, b: seq<Record>)
    ensures ToldAll(f, a + b) == ToldAll(ToldAll(f, a), b)
    decreases |b|
  {
    if b == [] {
      assert a + b == a;
    } else {
      assert (a + b)[..|a + b| - 1] == a + b[..|b| - 1];
      ToldSplit(f, a, b[..|b| - 1]);
    }
  }

  function PlanAuthor(f: Frontier, reg: Registry, id: u8): seq<Record> {
    if id == ORIGINAL || id !in reg || (id in f.authors && f.authors[id] == reg[id]) then [] else [Author(reg[id])]
  }

  function PlanAuthors(f: Frontier, reg: Registry, ids: seq<u8>): seq<Record>
    decreases |ids|
  {
    if ids == [] then []
    else var first := PlanAuthor(f, reg, ids[0]); first + PlanAuthors(ToldAll(f, first), reg, ids[1..])
  }

  function Bufs(ps: seq<Piece>): seq<u8> {
    seq(|ps|, i requires 0 <= i < |ps| => ps[i].buf)
  }

  /** Every author an op names: the writer, then the stores its pieces address. */
  function Named(o: Op): (ids: seq<u8>)
    ensures |ids| == 1 + |o.del| + |o.ins| && ids[0] == o.author
    ensures forall k :: 0 <= k < |o.del| ==> ids[1 + k] == o.del[k].buf
    ensures forall k :: 0 <= k < |o.ins| ==> ids[1 + |o.del| + k] == o.ins[k].buf
  {
    [o.author] + Bufs(o.del) + Bufs(o.ins)
  }

  ghost predicate Storable(s: Session) {
    && |s.texts| <= 256
    && (forall a :: 0 <= a < |s.texts| ==> |s.texts[a]| <= MAX_INT)
    && (forall i :: 0 <= i < |s.journal| ==> OpSmall(s.journal[i]))
  }

  function PlanStore(f: Frontier, s: Session, reg: Registry, id: u8): seq<Record>
    requires Storable(s) && id < |s.texts|
  {
    var from := f.Stored(id);
    if |s.texts[id]| > from then
      PlanAuthor(f, reg, id) + [StoreAppend(id, from, s.texts[id][from..])]
    else []
  }

  function PlanStores(f: Frontier, s: Session, reg: Registry, id: nat): seq<Record>
    requires Storable(s) && id <= |s.texts|
    decreases |s.texts| - id
  {
    if id == |s.texts| then []
    else var one := PlanStore(f, s, reg, id); one + PlanStores(ToldAll(f, one), s, reg, id + 1)
  }

  function PlanOp(f: Frontier, reg: Registry, o: Op): seq<Record>
    requires OpSmall(o)
  {
    PlanAuthors(f, reg, Named(o)) + [OpRec(ToJournalOp(o))]
  }

  function PlanOps(f: Frontier, reg: Registry, ops: seq<Op>): seq<Record>
    requires forall i :: 0 <= i < |ops| ==> OpSmall(ops[i])
    decreases |ops|
  {
    if ops == [] then []
    else var one := PlanOp(f, reg, ops[0]); one + PlanOps(ToldAll(f, one), reg, ops[1..])
  }

  /** The change sets in the journal, oldest first: undo and redo ops are not members. */
  function GroupIds(journal: seq<Op>): seq<u64> {
    if journal == [] then []
    else
      var ids := GroupIds(journal[..|journal| - 1]);
      var o := journal[|journal| - 1];
      if o.kind == KIND_EDIT && o.group !in ids then ids + [o.group] else ids
  }

  predicate EditOf(o: Op, g: u64) {
    o.kind == KIND_EDIT && o.group == g
  }

  /** Where a change set's first edit stands, or the journal's length if it has none. */
  function FirstEdit(journal: seq<Op>, g: u64): (r: nat)
    ensures r <= |journal| && (r < |journal| ==> EditOf(journal[r], g))
    ensures forall i :: 0 <= i < r ==> !EditOf(journal[i], g)
  {
    if journal == [] then 0
    else
      var r := FirstEdit(journal[..|journal| - 1], g);
      if r < |journal| - 1 then r else if EditOf(journal[r], g) then r else |journal|
  }

  lemma FirstEditAdd(journal: seq<Op>, o: Op, g: u64)
    ensures FirstEdit(journal + [o], g) ==
              if FirstEdit(journal, g) < |journal| then FirstEdit(journal, g)
              else if EditOf(o, g) then |journal| else |journal| + 1
  {
    assert (journal + [o])[..|journal|] == journal;
  }

  /** The list holds the sets that have an edit, in the order of their first edits. */
  ghost predicate ListsSets(journal: seq<Op>, ids: seq<u64>) {
    && (forall g: u64 :: g in ids <==> FirstEdit(journal, g) < |journal|)
    && forall a, b :: 0 <= a < b < |ids| ==> FirstEdit(journal, ids[a]) < FirstEdit(journal, ids[b])
  }

  lemma ListsSetsAdd(journal: seq<Op>, o: Op, ids: seq<u64>)
    requires ListsSets(journal, ids)
    ensures ListsSets(journal + [o], if o.kind == KIND_EDIT && o.group !in ids then ids + [o.group] else ids)
  {
    hide FirstEdit;
    forall g: u64
      ensures FirstEdit(journal + [o], g) ==
                if FirstEdit(journal, g) < |journal| then FirstEdit(journal, g)
                else if EditOf(o, g) then |journal| else |journal| + 1
    {
      FirstEditAdd(journal, o, g);
    }
    assert forall a :: 0 <= a < |ids| ==> ids[a] in ids;
  }

  lemma {:induction false} GroupIdsList(journal: seq<Op>)
    ensures ListsSets(journal, GroupIds(journal))
  {
    hide ListsSets;
    if journal == [] {
      NoSetsListed();
    } else {
      var init, o := journal[..|journal| - 1], journal[|journal| - 1];
      GroupIdsList(init);
      ListsSetsAdd(init, o, GroupIds(init));
      assert journal == init + [o];
    }
  }

  lemma NoSetsListed()
    ensures ListsSets([], [])
  {
  }

  /** The list a pass takes decisions from: exactly the sets that some edit of the journal
      belongs to, each once, in the order of their first edits. */
  lemma GroupIdsMean(journal: seq<Op>)
    ensures forall g: u64 :: g in GroupIds(journal) <==> exists i :: 0 <= i < |journal| && EditOf(journal[i], g)
    ensures var ids := GroupIds(journal);
            forall a, b :: 0 <= a < b < |ids| ==> FirstEdit(journal, ids[a]) < FirstEdit(journal, ids[b]) < |journal|
  {
    hide FirstEdit, GroupIds, EditOf;
    GroupIdsList(journal);
    forall g: u64 ensures g in GroupIds(journal) <==> exists i :: 0 <= i < |journal| && EditOf(journal[i], g) {
      if FirstEdit(journal, g) < |journal| {
        assert EditOf(journal[FirstEdit(journal, g)], g);
      }
    }
    assert forall b :: 0 <= b < |GroupIds(journal)| ==> GroupIds(journal)[b] in GroupIds(journal);
  }

  /** Undoing or redoing an op brings no set into the list. */
  lemma InverseListsNothing(journal: seq<Op>, o: Op)
    ensures GroupIds(journal + [Inverse(o)]) == GroupIds(journal)
  {
    assert (journal + [Inverse(o)])[..|journal|] == journal;
  }

  function PlanDecision(f: Frontier, s: Session, g: u64): seq<Record> {
    var st := s.GroupState(g);
    if g in f.state && f.state[g] == st then []
    else if g !in f.state && st == ACCEPTED then []
    else [Decision(g, st)]
  }

  function PlanDecisions(f: Frontier, s: Session, gs: seq<u64>): seq<Record>
    decreases |gs|
  {
    if gs == [] then []
    else var one := PlanDecision(f, s, gs[0]); one + PlanDecisions(ToldAll(f, one), s, gs[1..])
  }

  /** Everything one complete pass writes: store growth, then ops, then decisions. */
  function Plan(f: Frontier, s: Session, reg: Registry): seq<Record>
    requires Storable(s)
  {
    var stores := PlanStores(f, s, reg, 0);
    var f1 := ToldAll(f, stores);
    var ops := PlanOps(f1, reg, s.OpsSince(f1.version));
    stores + ops + PlanDecisions(ToldAll(f1, ops), s, GroupIds(s.journal))
  }

  // ---------- The tap ----------

  /** The writer: whole records are appended until `room` runs out, when one fails. */
  class Writer {
    var log: seq<Record>
    var room: nat

    constructor (log: seq<Record>, room: nat)
      ensures this.log == log && this.room == room
    {
      this.log := log;
      this.room := room;
    }

    method Append(r: Record) returns (ok: bool)
      modifies this
      ensures ok <==> old(room) > 0
      ensures ok ==> log == old(log) + [r] && room == old(room) - 1
      ensures !ok ==> log == old(log) && room == old(room)
    {
      ok := room > 0;
      if ok {
        log := log + [r];
        room := room - 1;
      }
    }
  }

  /** A log, its tap's frontier and the writer's luck, as values. */
  datatype TapState = TapState(log: seq<Record>, front: Frontier, room: nat)

  /** Writing `plan` record by record until it is done or an append fails. */
  function Advance(s: TapState, plan: seq<Record>): TapState {
    var n := Min(|plan|, s.room);
    TapState(s.log + plan[..n], ToldAll(s.front, plan[..n]), s.room - n)
  }

  lemma AdvanceThen(s: TapState, a: seq<Record>, b: seq<Record>)
    ensures |a| <= s.room ==> Advance(s, a + b) == Advance(Advance(s, a), b)
    ensures |a| > s.room ==> Advance(s, a + b) == Advance(s, a)
  {
    var n := Min(|a + b|, s.room);
    if |a| <= s.room {
      assert a[..|a|] == a;
      var m := n - |a|;
      assert (a + b)[..n] == a + b[..m];
      ToldSplit(s.front, a, b[..m]);
      assert s.log + (a + b)[..n] == s.log + a + b[..m];
    } else {
      assert (a + b)[..n] == a[..n];
    }
  }

  lemma AdvanceOne(s: TapState, r: Record)
    ensures s.room > 0 ==> Advance(s, [r]) == TapState(s.log + [r], Told(s.front, r), s.room - 1)
    ensures s.room == 0 ==> Advance(s, [r]) == s
  {
    assert [r][..1] == [r] && [r][..0] == [];
    assert ToldAll(s.front, [r]) == Told(ToldAll(s.front, []), r);
    assert s.log + [] == s.log;
  }

  /** From `s`, writing `rest` still ends where writing `whole` from `s0` ends. */
  ghost predicate Owes(s0: TapState, whole: seq<Record>, s: TapState, rest: seq<Record>) {
    && Advance(s0, whole) == Advance(s, rest)
    && (|whole| <= s0.room <==> |rest| <= s.room)
  }

  lemma OwesStep(s0: TapState, whole: seq<Record>, s: TapState, one: seq<Record>, rest: seq<Record>)
    requires Owes(s0, whole, s, one + rest)
    ensures |one| <= s.room ==> Owes(s0, whole, Advance(s, one), rest)
    ensures |one| > s.room ==> Advance(s, one) == Advance(s0, whole) && |whole| > s0.room
  {
    AdvanceThen(s, one, rest);
  }

  lemma OwesDone(s0: TapState, whole: seq<Record>, s: TapState)
    requires Owes(s0, whole, s, [])
    ensures s == Advance(s0, whole) && |whole| <= s0.room
  {
    assert s.log + [] == s.log;
  }

  lemma AdvanceNone(s: TapState)
    ensures Advance(s, []) == s
  {
    assert s.log + [] == s.log;
  }

  /** What is left to prove when each third of a plan has been written in turn. */
  lemma ThreeParts(s: TapState, a: seq<Record>, b: seq<Record>, c: seq<Record>)
    ensures |a| > s.room ==> Advance(s, a) == Advance(s, a + b + c) && |a + b + c| > s.room
    ensures |a| <= s.room ==> Advance(s, a).front == ToldAll(s.front, a)
    ensures |a| <= s.room && |b| > Advance(s, a).room ==>
              Advance(Advance(s, a), b) == Advance(s, a + b + c) && |a + b + c| > s.room
    ensures |a| <= s.room && |b| <= Advance(s, a).room ==>
              && Advance(Advance(s, a), b).front == ToldAll(ToldAll(s.front, a), b)
              && Advance(Advance(Advance(s, a), b), c) == Advance(s, a + b + c)
              && (|a + b + c| <= s.room <==> |c| <= Advance(Advance(s, a), b).room)
  {
    assert a + b + c == a + (b + c);
    AdvanceThen(s, a, b + c);
    if |a| <= s.room {
      AdvanceFits(s, a);
      var s1 := Advance(s, a);
      AdvanceThen(s1, b, c);
      if |b| <= s1.room {
        AdvanceFits(s1, b);
      }
    }
  }

  lemma AdvanceFits(s: TapState, a: seq<Record>)
    requires |a| <= s.room
    ensures Advance(s, a) == TapState(s.log + a, ToldAll(s.front, a), s.room - |a|)
  {
    assert a[..|a|] == a;
  }

  lemma Turn(s0: TapState, whole: seq<Record>, here: TapState, all: seq<Record>, one: seq<Record>, rest: seq<Record>)
    requires Owes(s0, whole, here, all) && all == one + rest
    ensures |one| <= here.room ==> Owes(s0, whole, Advance(here, one), rest)
    ensures |one| <= here.room ==> Advance(here, one).front == ToldAll(here.front, one)
    ensures |one| > here.room ==> Advance(here, one) == Advance(s0, whole) && |whole| > s0.room
  {
    OwesStep(s0, whole, here, one, rest);
    assert one[..|one|] == one;
  }

  lemma PlanStoresHead(f: Frontier, s: Session, reg: Registry, id: nat)
    requires Storable(s) && id < |s.texts|
    ensures PlanStores(f, s, reg, id) == PlanStore(f, s, reg, id) + PlanStores(ToldAll(f, PlanStore(f, s, reg, id)), s, reg, id + 1)
  {
  }

  class LogTap {
    var w: Writer
    var version: u64
    var store: map<u8, nat>
    var state: map<u64, u8>
    var authors: map<u8, AuthorRow>

    ghost function Front(): Frontier
      reads this
    {
      Frontier(version, store, state, authors)
    }

    ghost function State(): TapState
      reads this, w
    {
      TapState(w.log, Front(), w.room)
    }

    constructor (w: Writer, version: u64, store: map<u8, nat>, state: map<u64, u8>, authors: map<u8, AuthorRow>)
      ensures this.w == w && Front() == Frontier(version, store, state, authors)
    {
      this.w, this.version, this.store, this.state, this.authors := w, version, store, state, authors;
    }

    method RecordAuthor(reg: Registry, id: u8) returns (ok: bool)
      requires RegistryOk(reg)
      modifies this, w
      ensures w == old(w)
      ensures ok <==> |PlanAuthor(old(Front()), reg, id)| <= old(w.room)
      ensures State() == Advance(old(State()), PlanAuthor(old(Front()), reg, id))
    {
      AdvanceNone(State());
      if id == ORIGINAL || id !in reg {
        return true;
      }
      if id in authors && authors[id] == reg[id] {
        return true;
      }
      AdvanceOne(State(), Author(reg[id]));
      ok := w.Append(Author(reg[id]));
      if ok {
        authors := authors[id := reg[id]];
      }
    }

    method RecordOpAuthors(reg: Registry, o: Op) returns (ok: bool)
      requires RegistryOk(reg)
      modifies this, w
      ensures w == old(w)
      ensures ok <==> |PlanAuthors(old(Front()), reg, Named(o))| <= old(w.room)
      ensures State() == Advance(old(State()), PlanAuthors(old(Front()), reg, Named(o)))
    {
      hide PlanAuthor;
      var ids := Named(o);
      ghost var s0 := State();
      ghost var whole := PlanAuthors(s0.front, reg, ids);
      for i := 0 to |ids|
        invariant w == old(w)
        invariant Owes(s0, whole, State(), PlanAuthors(Front(), reg, ids[i..]))
      {
        ghost var one := PlanAuthor(Front(), reg, ids[i]);
        assert ids[i..][1..] == ids[i + 1..];
        assert one[..|one|] == one;
        OwesStep(s0, whole, State(), one, PlanAuthors(ToldAll(Front(), one), reg, ids[i + 1..]));
        var done := RecordAuthor(reg, ids[i]);
        if !done {
          return false;
        }
      }
      OwesDone(s0, whole, State());
      ok := true;
    }

    method AppendStore(s: Session, reg: Registry, id: u8) returns (ok: bool)
      requires RegistryOk(reg) && Storable(s) && id < |s.texts|
      modifies this, w
      ensures w == old(w)
      ensures ok <==> |PlanStore(old(Front()), s, reg, id)| <= old(w.room)
      ensures State() == Advance(old(State()), PlanStore(old(Front()), s, reg, id))
    {
      AdvanceNone(State());
      var from := if id in store then store[id] else 0;
      var n := |s.texts[id]|;
      if n <= from {
        return true;
      }
      var rec := StoreAppend(id, from, s.texts[id][from..]);
      AdvanceThen(State(), PlanAuthor(Front(), reg, id), [rec]);
      ok := RecordAuthor(reg, id);
      if !ok {
        return;
      }
      AdvanceOne(State(), rec);
      ok := w.Append(rec);
      if ok {
        store := store[id := n];
      }
    }

    method AppendStores(s: Session, reg: Registry) returns (ok: bool)
      requires RegistryOk(reg) && Storable(s)
      modifies this, w
      ensures w == old(w)
      ensures ok <==> |PlanStores(old(Front()), s, reg, 0)| <= old(w.room)
      ensures State() == Advance(old(State()), PlanStores(old(Front()), s, reg, 0))
    {
      hide PlanStore;
      ghost var s0 := State();
      ghost var whole := PlanStores(s0.front, s, reg, 0);
      for id := 0 to |s.texts|
        invariant w == old(w)
        invariant Owes(s0, whole, State(), PlanStores(Front(), s, reg, id))
      {
        ghost var here := State();
        ghost var one := PlanStore(here.front, s, reg, id);
        ghost var rest := PlanStores(ToldAll(here.front, one), s, reg, id + 1);
        PlanStoresHead(here.front, s, reg, id);
        Turn(s0, whole, here, PlanStores(here.front, s, reg, id), one, rest);
        var done := AppendStore(s, reg, id);
        if !done {
          return false;
        }
      }
      OwesDone(s0, whole, State());
      ok := true;
    }

    method AppendOp(o: Op, reg: Registry) returns (ok: bool)
      requires RegistryOk(reg) && OpSmall(o)
      modifies this, w
      ensures w == old(w)
      ensures ok <==> |PlanOp(old(Front()), reg, o)| <= old(w.room)
      ensures State() == Advance(old(State()), PlanOp(old(Front()), reg, o))
    {
      hide PlanAuthors, Named;
      var rec := OpRec(ToJournalOp(o));
      AdvanceThen(State(), PlanAuthors(Front(), reg, Named(o)), [rec]);
      ok := RecordOpAuthors(reg, o);
      if !ok {
        return;
      }
      AdvanceOne(State(), rec);
      ok := w.Append(rec);
      if ok {
        version := WrapU64(o.seqNo + 1);
      }
    }

    method AppendOps(ops: seq<Op>, reg: Registry) returns (ok: bool)
      requires RegistryOk(reg) && forall i :: 0 <= i < |ops| ==> OpSmall(ops[i])
      modifies this, w
      ensures w == old(w)
      ensures ok <==> |PlanOps(old(Front()), reg, ops)| <= old(w.room)
      ensures State() == Advance(old(State()), PlanOps(old(Front()), reg, ops))
    {
      hide PlanOp, ToldAll;
      ghost var s0 := State();
      ghost var whole := PlanOps(s0.front, reg, ops);
      assert ops[0..] == ops;
      for i := 0 to |ops|
        invariant w == old(w)
        invariant Owes(s0, whole, State(), PlanOps(Front(), reg, ops[i..]))
      {
        ghost var one := PlanOp(Front(), reg, ops[i]);
        assert ops[i..][1..] == ops[i + 1..];
        assert one[..|one|] == one;
        OwesStep(s0, whole, State(), one, PlanOps(ToldAll(Front(), one), reg, ops[i + 1..]));
        var done := AppendOp(ops[i], reg);
        if !done {
          return false;
        }
      }
      OwesDone(s0, whole, State());
      ok := true;
    }

    method AppendDecision(s: Session, g: u64) returns (ok: bool)
      modifies this, w
      ensures w == old(w)
      ensures ok <==> |PlanDecision(old(Front()), s, g)| <= old(w.room)
      ensures State() == Advance(old(State()), PlanDecision(old(Front()), s, g))
    {
      AdvanceNone(State());
      var st := s.GroupState(g);
      if g in state && state[g] == st {
        return true;
      }
      if g !in state && st == ACCEPTED {
        return true;
      }
      AdvanceOne(State(), Decision(g, st));
      ok := w.Append(Decision(g, st));
      if ok {
        state := state[g := st];
      }
    }

    method AppendDecisions(s: Session, gs: seq<u64>) returns (ok: bool)
      modifies this, w
      ensures w == old(w)
      ensures ok <==> |PlanDecisions(old(Front()), s, gs)| <= old(w.room)
      ensures State() == Advance(old(State()), PlanDecisions(old(Front()), s, gs))
    {
      hide PlanDecision;
      ghost var s0 := State();
      ghost var whole := PlanDecisions(s0.front, s, gs);
      assert gs[0..] == gs;
      for i := 0 to |gs|
        invariant w == old(w)
        invariant Owes(s0, whole, State(), PlanDecisions(Front(), s, gs[i..]))
      {
        ghost var one := PlanDecision(Front(), s, gs[i]);
        assert gs[i..][1..] == gs[i + 1..];
        assert one[..|one|] == one;
        OwesStep(s0, whole, State(), one, PlanDecisions(ToldAll(Front(), one), s, gs[i + 1..]));
        var done := AppendDecision(s, gs[i]);
        if !done {
          return false;
        }
      }
      OwesDone(s0, whole, State());
      ok := true;
    }

    /** A pass writes its plan in order and stops at the first append that fails;
        the frontier then describes exactly the records that reached the log. */
    method AppendTap(s: Session, reg: Registry) returns (ok: bool)
      requires RegistryOk(reg) && Storable(s)
      modifies this, w
      ensures w == old(w)
      ensures ok <==> |Plan(old(Front()), s, reg)| <= old(w.room)
      ensures State() == Advance(old(State()), Plan(old(Front()), s, reg))
    {
      hide PlanStores, PlanOps, PlanDecisions;
      ghost var f0 := Front();
      ghost var stores := PlanStores(f0, s, reg, 0);
      ghost var f1 := ToldAll(f0, stores);
      ghost var ops := PlanOps(f1, reg, s.OpsSince(f1.version));
      ThreeParts(State(), stores, ops, PlanDecisions(ToldAll(f1, ops), s, GroupIds(s.journal)));
      ok := AppendStores(s, reg);
      if ok {
        ok := AppendOps(s.OpsSince(version), reg);
        if ok {
          ok := AppendDecisions(s, GroupIds(s.journal));
        }
      }
    }
  }

  method TapFromLog(l: seq<Record>, w: Writer) returns (t: LogTap)
    ensures fresh(t) && t.w == w
    ensures t.Front() == FrontierOf(l)
  {
    var version: u64 := 0;
    var store: map<u8, nat> := map[];
    var state: map<u64, u8> := map[];
    var authors: map<u8, AuthorRow> := map[];
    for i := 0 to |l|
      invariant FrontierOf(l[..i]) == Frontier(version, store, state, authors)
    {
      assert l[..i + 1][..i] == l[..i];
      match l[i] {
        case Base(_, bytes) =>
          store := store[ORIGINAL := |bytes|];
        case StoreAppend(a, start, blob) =>
          var end := WrapInt(ToInt(start) + |blob|);
          if end > (if a in store then store[a] else 0) {
            store := store[a := end];
          }
        case OpRec(o) =>
          var next := WrapU64(o.seqNo + 1);
          if next > version {
            version := next;
          }
        case Decision(g, st) =>
          state := state[g := st];
        case Author(row) =>
          authors := authors[row.id := row];
        case _ =>
      }
    }
    assert l[..|l|] == l;
    t := new LogTap(w, version, store, state, authors);
  }

  // ---------- Opening the log for a buffer ----------

  /** Digests stand for the bytes they name, so they are equal only for equal bytes. */
  function Digest(b: Bytes): Bytes {
    b
  }

  /** A log just laid: its base names the file's digest when one was recorded. */
  function FreshLog(s: Session, saved: Option<Bytes>): seq<Record>
    requires 0 < |s.texts|
  {
    [Base(if saved.Some? then saved.value else Digest(s.texts[0]), s.texts[0])]
  }

  /** The log `startTap` leaves for a session, given the log found on disk and the
      digest of the file's bytes when one was recorded. None: it does not capture. */
  function Started(found: Option<seq<Record>>, s: Session, saved: Option<Bytes>): Option<seq<Record>>
    requires 0 < |s.texts|
  {
    var orig := s.texts[0];
    var laid := Some(FreshLog(s, saved));
    if found.None? || found.value == [] then laid
    else match BaseOf(found.value)
         case Some(Base(hash, _)) =>
           if hash == Digest(orig) && Matches(FrontierOf(found.value), s) then found else laid
         case _ => None
  }

  lemma FrontierOfBase(hash: Bytes, bytes: Bytes)
    ensures FrontierOf([Base(hash, bytes)]) == Frontier(0, map[ORIGINAL := |bytes|], map[], map[])
  {
    assert [Base(hash, bytes)][..0] == [];
    assert FrontierOf([Base(hash, bytes)]) == Read(NOTHING, Base(hash, bytes));
  }

  /** Reuses a log whose base and frontier are this session's, and otherwise lays a
      fresh base; either way the tap holds the frontier of the log it was given. */
  method StartTap(found: Option<seq<Record>>, s: Session, saved: Option<Bytes>, room: nat) returns (t: Option<LogTap>)
    requires 0 < |s.texts| <= 256
    ensures t.Some? ==> Started(found, s, saved) == Some(t.value.w.log)
    ensures t.Some? ==> t.value.Front() == FrontierOf(t.value.w.log)
    ensures t.None? ==> Started(found, s, saved) == None || room == 0
  {
    hide BaseOf, FrontierOf, Matches, Digest;
    var orig := s.texts[0];
    var originHash := Digest(orig);
    var baseHash := if saved.Some? then saved.value else originHash;
    if found.Some? && |found.value| > 0 {
      var base := FindBase(found.value);
      if base.None? {
        return None;
      }
      if base.value.hash == originHash {
        var w := new Writer(found.value, room);
        var tap := TapFromLog(found.value, w);
        var same := TapMatches(tap, s);
        if same {
          return Some(tap);
        }
      }
    }
    var w := new Writer([], room);
    var ok := w.Append(Base(baseHash, orig));
    assert [] + [Base(baseHash, orig)] == [Base(baseHash, orig)];
    if !ok {
      return None;
    }
    FrontierOfBase(baseHash, orig);
    var tap := new LogTap(w, 0, map[ORIGINAL := |orig|], map[], map[]);
    t := Some(tap);
  }

  method TapMatches(t: LogTap, s: Session) returns (same: bool)
    requires |s.texts| <= 256
    ensures same <==> Matches(t.Front(), s)
  {
    if t.version != |s.journal| {
      return false;
    }
    for a := 0 to |s.texts|
      invariant forall b: u8 :: b < a ==> |s.texts[b]| == t.Front().Stored(b)
    {
      if |s.texts[a]| != (if a in t.store then t.store[a] else 0) {
        return false;
      }
    }
    same := true;
  }

  // ---------- The text a save wrote ----------

  /** The stores `savedContent` replays over: the base, then every other author's bytes. */
  function CopyStores(acc: Texts, texts: Texts, a: nat): Texts
    requires a <= |texts| <= 256
    decreases |texts| - a
  {
    if a == |texts| then acc
    else CopyStores(if |texts[a]| > 0 then Append(acc, a, texts[a]) else acc, texts, a + 1)
  }

  function SavedText(base: Bytes, s: Session, at: nat): Bytes
    requires 0 < |s.texts| <= 256
  {
    if at >= |s.journal| then s.Text()
    else Render(CopyStores(NewTexts(base), s.texts, 1), Replay(BasePieces(|base|), s.journal[..at]))
  }

  method SavedContent(base: Bytes, s: Session, at: nat) returns (r: Bytes)
    requires 0 < |s.texts| <= 256
    ensures r == SavedText(base, s, at)
  {
    if at >= |s.journal| {
      return s.Text();
    }
    var texts := NewTexts(base);
    for a := 1 to |s.texts|
      invariant CopyStores(NewTexts(base), s.texts, 1) == CopyStores(texts, s.texts, a)
    {
      if |s.texts[a]| > 0 {
        texts := Append(texts, a, s.texts[a]);
      }
    }
    r := Render(texts, Replay(BasePieces(|base|), s.journal[..at]));
  }

  // ---------- Reading a log record by record ----------

  lemma ScanNothing(f: Frame, l: seq<Record>)
    ensures Scan(f, l[..0]) == Some(f)
  {
  }

  lemma ScanTo(f0: Frame, l: seq<Record>, k: nat, f: Frame, g: Frame)
    requires k < |l| && Scan(f0, l[..k]) == Some(f) && ScanStep(f, l[k]) == Some(g)
    ensures Scan(f0, l[..k + 1]) == Some(g)
  {
    hide ScanStep;
    assert l[..k + 1][..k] == l[..k];
  }

  /** A write of one piece of one byte, as it is logged. */
  function OneByteWrite(seqNo: u64, author: u8, at: u64, buf: u8, start: u64, group: u64): JOp {
    JOp(seqNo, author, at, [], [JPiece(buf, start, 1)], 0, group, KIND_EDIT)
  }

  lemma OneByteWriteReads(seqNo: u64, author: u8, at: u64, buf: u8, start: u64, group: u64)
    requires at <= MAX_INT && start <= MAX_INT
    ensures var j := OneByteWrite(seqNo, author, at, buf, start, group);
            JOpFits(j) && FromJournalOp(j) == Op(seqNo, author, at, [], [Piece(buf, start, 1)], 0, group, KIND_EDIT)
  {
  }

  lemma OneByteWriteChecks(texts: Texts, buf: u8, start: u64)
    requires buf < |texts| && start < |texts[buf]| && start < MAX_INT
    ensures CheckJournalRecs([], texts) && CheckJournalRecs([JPiece(buf, start, 1)], texts)
  {
  }
}
