/** Runs of a live session beside its op log: edits, decisions, passes that may fail
    at any append, saves, crashes that keep a whole-record prefix, and restarts. */
module OpLogWorld {
  import opened Options
  import opened PieceTable
  import opened OpLog
  import opened OpLogRuns

  datatype World = World(live: Session, log: seq<Record>, tap: Frontier, reg: Registry)

  datatype Event =
    | Grow(author: u8, blob: Bytes)
    | Commit(op: Op)
    | Rearrange(doc: seq<Piece>)
    | Mark(group: u64, state: u8)
    | Register(row: AuthorRow)
    | Pass(room: nat)
    | Save(room: nat, marked: bool, hash: Bytes, version: u64)
    | Restart(kept: nat, saved: Option<Bytes>)

  /** An op a session may commit: numbered next, its pieces non-empty and in store. */
  ghost predicate Committable(s: Session, o: Op) {
    && o.seqNo == |s.journal| < MAX_INT
    && o.pos <= MAX_INT
    && AllInStore(s.texts, o.ins) && AllInStore(s.texts, o.del)
    && (forall k :: 0 <= k < |o.ins| ==> 0 < o.ins[k].length)
    && (forall k :: 0 <= k < |o.del| ==> 0 < o.del[k].length)
  }

  /** `MarkGroup`: recording the default forgets the decision. */
  function Marked(s: Session, g: u64, st: u8): Session {
    s.(states := if st == ACCEPTED then s.states - {g} else s.states[g := st])
  }

  function AfterPass(w: World, room: nat): TapState
    requires Storable(w.live)
  {
    Advance(TapState(w.log, w.tap, room), Plan(w.tap, w.live, w.reg))
  }

  /** A crash that keeps the first `kept` records, and the restart that replays them. */
  ghost predicate Restarts(w: World, kept: nat, saved: Option<Bytes>, w': World) {
    && 1 <= kept <= |w.log|
    && Build(w.log[..kept]).Some?
    && var s := Build(w.log[..kept]).value;
       && 0 < |s.texts|
       && Started(Some(w.log[..kept]), s, saved).Some?
       && var log := Started(Some(w.log[..kept]), s, saved).value;
          w' == w.(live := s, log := log, tap := FrontierOf(log))
  }

  ghost predicate Step(w: World, e: Event, w': World) {
    match e
    case Grow(a, blob) =>
      && a != ORIGINAL && Len(w.live.texts, a) + |blob| <= MAX_INT
      && w' == w.(live := w.live.(texts := Append(w.live.texts, a, blob)))
    case Commit(o) =>
      && Committable(w.live, o)
      && w' == w.(live := w.live.(doc := Apply(w.live.doc, o), journal := w.live.journal + [o]))
    case Rearrange(doc) =>
      // Compaction: other pieces, the same text.
      && AllInStore(w.live.texts, doc) && Render(w.live.texts, doc) == w.live.Text()
      && w' == w.(live := w.live.(doc := doc))
    case Mark(g, st) =>
      w' == w.(live := Marked(w.live, g, st))
    case Register(row) =>
      w' == w.(reg := w.reg[row.id := row])
    case Pass(room) =>
      Storable(w.live) &&
      var t := AfterPass(w, room);
      w' == w.(log := t.log, tap := t.front)
    case Save(room, marked, hash, version) =>
      Storable(w.live) &&
      var t := AfterPass(w, room);
      w' == w.(log := if marked then t.log + [Written(hash, version)] else t.log, tap := t.front)
    case Restart(kept, saved) => Restarts(w, kept, saved, w')
  }

  /** A dirty buffer whose log has just been laid, under whatever digest its file had. */
  ghost predicate Initial(w: World) {
    && w.live.Valid() && RegistryOk(w.reg)
    && (exists saved :: w.log == FreshLog(w.live, saved))
    && w.tap == Frontier(0, map[ORIGINAL := |w.live.texts[0]|], map[], map[])
  }

  ghost predicate Inv(w: World) {
    w.live.Valid() && RegistryOk(w.reg) && Tracks(w.log, w.tap, w.live)
  }

  lemma FreshLogTracks(live: Session, saved: Option<Bytes>)
    requires 3 <= |live.texts|
    ensures Tracks(FreshLog(live, saved), Frontier(0, map[ORIGINAL := |live.texts[0]|], map[], map[]), live)
  {
    var orig := live.texts[0];
    var base := FreshLog(live, saved)[0];
    assert [base][..0] == [];
    assert Scan(FreshFrame(orig), [base]) == ScanStep(FreshFrame(orig), base);
    FrontierOfBase(base.hash, orig);
  }

  lemma InitialInv(w: World)
    requires Initial(w)
    ensures Inv(w)
  {
    hide Tracks;
    var saved :| w.log == FreshLog(w.live, saved);
    FreshLogTracks(w.live, saved);
  }

  // ---------- Each live step keeps the session valid and the log following ----------

  lemma TracksLaterSession(w: World, live: Session)
    requires Tracks(w.log, w.tap, w.live)
    requires Extends(w.live.texts, live.texts) && live.texts[0] == w.live.texts[0]
    requires w.live.journal <= live.journal
    ensures Tracks(w.log, w.tap, live)
  {
    hide Scan, Counts, FrontierOf;
    var f := Scan(FreshFrame(live.texts[0]), w.log).value;
    ExtendsTrans(f.texts, w.live.texts, live.texts);
  }

  lemma ReplayOfValid(s: Session)
    requires s.Valid()
    ensures AllInStore(s.texts, Replay(BasePieces(s.origLen), s.journal))
    ensures s.Text() == Render(s.texts, Replay(BasePieces(s.origLen), s.journal))
  {
    BaseInStore(s);
    assert s.journal[..|s.journal|] == s.journal;
    assert OpsInStore(s.texts, s.journal) by {
      forall i | 0 <= i < |s.journal| ensures AllInStore(s.texts, s.journal[i].ins) {
        assert s.ValidOp(i);
      }
    }
    ReplayInStore(s.texts, BasePieces(s.origLen), s.journal);
  }

  lemma GrowValid(s: Session, a: u8, blob: Bytes)
    requires s.Valid() && a != ORIGINAL && Len(s.texts, a) + |blob| <= MAX_INT
    ensures s.(texts := Append(s.texts, a, blob)).Valid()
  {
    hide Render, Replay;
    var s' := s.(texts := Append(s.texts, a, blob));
    var ps := Replay(BasePieces(s.origLen), s.journal);
    AppendExtends(s.texts, a, blob);
    ReplayOfValid(s);
    RenderStable(s.texts, s'.texts, s.doc);
    RenderStable(s.texts, s'.texts, ps);
    assert s.journal[..|s.journal|] == s.journal;
    forall i | 0 <= i < |s.journal| ensures s'.ValidOp(i) {
      assert s.ValidOp(i);
      AllInStoreGrows(s.texts, s'.texts, s.journal[i].ins);
      AllInStoreGrows(s.texts, s'.texts, s.journal[i].del);
    }
  }

  lemma GrowInv(w: World, a: u8, blob: Bytes)
    requires Inv(w) && a != ORIGINAL && Len(w.live.texts, a) + |blob| <= MAX_INT
    ensures Inv(w.(live := w.live.(texts := Append(w.live.texts, a, blob))))
  {
    hide Append;
    AppendExtends(w.live.texts, a, blob);
    GrowValid(w.live, a, blob);
    var live := w.live.(texts := Append(w.live.texts, a, blob));
    AppendKeepsOriginal(w.live.texts, a, blob);
    TracksLaterSession(w, live);
  }

  lemma AppendKeepsOriginal(texts: Texts, a: u8, blob: Bytes)
    requires 0 < |texts| && a != ORIGINAL
    ensures 0 < |Append(texts, a, blob)| && Append(texts, a, blob)[0] == texts[0]
  {
  }

  lemma CommitValid(s: Session, o: Op)
    requires s.Valid() && Committable(s, o)
    ensures s.(doc := Apply(s.doc, o), journal := s.journal + [o]).Valid()
  {
    hide Render, Apply, Splice;
    var s' := s.(doc := Apply(s.doc, o), journal := s.journal + [o]);
    var ps := Replay(BasePieces(s.origLen), s.journal);
    ReplayOfValid(s);
    ApplyRenders(s.texts, s.doc, o);
    ApplyRenders(s.texts, ps, o);
    assert s'.journal[..|s'.journal|] == s'.journal && s'.journal[..|s'.journal| - 1] == s.journal;
    forall i | 0 <= i < |s'.journal| ensures s'.ValidOp(i) {
      assert i < |s.journal| ==> s.ValidOp(i);
    }
  }

  lemma CommitInv(w: World, o: Op)
    requires Inv(w) && Committable(w.live, o)
    ensures Inv(w.(live := w.live.(doc := Apply(w.live.doc, o), journal := w.live.journal + [o])))
  {
    hide Apply, Committable;
    CommitValid(w.live, o);
    TracksLaterSession(w, w.live.(doc := Apply(w.live.doc, o), journal := w.live.journal + [o]));
  }

  lemma SameTextInv(w: World, s': Session)
    requires Inv(w)
    requires s'.texts == w.live.texts && s'.origLen == w.live.origLen && s'.journal == w.live.journal
    requires AllInStore(s'.texts, s'.doc) && s'.Text() == w.live.Text()
    ensures Inv(w.(live := s'))
  {
    forall i | 0 <= i < |s'.journal| ensures s'.ValidOp(i) {
      assert w.live.ValidOp(i);
    }
    TracksLaterSession(w, s');
  }

  lemma TracksIsBehind(w: World)
    requires Inv(w)
    ensures Storable(w.live) && Numbered(w.live) && Behind(w.tap, w.live)
  {
    ValidIsStorable(w.live);
    var f := Scan(FreshFrame(w.live.texts[0]), w.log).value;
    forall a: u8 | a < |w.live.texts| ensures w.tap.Stored(a) <= |w.live.texts[a]| {
      assert a < |f.texts| ==> f.texts[a] <= w.live.texts[a];
    }
  }

  /** However far a pass gets before an append fails, the log still follows the session
      and the tap is exactly what `tapFromLog` would read from the log it left. */
  lemma AnyPassTracks(w: World, room: nat)
    requires Inv(w)
    ensures Storable(w.live)
    ensures Tracks(AfterPass(w, room).log, AfterPass(w, room).front, w.live)
    ensures AfterPass(w, room).front == FrontierOf(AfterPass(w, room).log)
  {
    hide Plan;
    TracksIsBehind(w);
    var plan := Plan(w.tap, w.live, w.reg);
    var n := Min(|plan|, room);
    PassFollows(w.tap, w.live, w.reg);
    PlanFollowsPrefix(plan, n, w.tap, w.live, w.reg);
    TracksPlan(w.log, w.tap, w.live, plan[..n], w.reg);
  }

  /** The restart that follows a crash takes back the log it replayed if the base is
      named by the origin's digest, and lays a fresh one if not. */
  lemma RestartInv(w: World, kept: nat, saved: Option<Bytes>)
    requires Inv(w) && 1 <= kept <= |w.log|
    ensures Build(w.log[..kept]).Some? && w.log[0].Base? && 0 < |w.live.texts|
    ensures var s := Build(w.log[..kept]).value;
            && 0 < |s.texts| && s.texts[0] == w.live.texts[0]
            && var log := if w.log[0].hash == Digest(s.texts[0]) then w.log[..kept] else FreshLog(s, saved);
               && Started(Some(w.log[..kept]), s, saved) == Some(log)
               && Inv(World(s, log, FrontierOf(log), w.reg))
  {
    var log := w.log[..kept];
    FollowsPrefix(w.log, w.live, kept);
    FollowedLogRebuilds(log, w.live);
    var s := Build(log).value;
    AcceptedLogIsReused(log);
    BaseOfFirst(log);
    assert SeqIsIndex(s.journal) by {
      forall i | 0 <= i < |s.journal| ensures ToInt(s.journal[i].seqNo) == i {
        assert s.ValidOp(i);
      }
    }
    FrontierCounts(log);
    FreshLogTracks(s, saved);
  }

  lemma StepInv(w: World, e: Event, w': World)
    requires Inv(w) && Step(w, e, w')
    ensures Inv(w')
  {
    hide Inv, Plan, Started;
    match e {
      case Grow(a, blob) => GrowInv(w, a, blob);
      case Commit(o) => CommitInv(w, o);
      case Rearrange(doc) => SameTextInv(w, w'.live) by { LiveFacts(w); }
      case Mark(g, st) => SameTextInv(w, w'.live) by { LiveFacts(w); }
      case Register(row) => RegisterInv(w, row);
      case Pass(room) => PassInv(w, room);
      case Save(room, marked, hash, version) => SaveInv(w, room, marked, hash, version);
      case Restart(kept, saved) => RestartInv(w, kept, saved);
    }
  }

  lemma LiveFacts(w: World)
    requires Inv(w)
    ensures AllInStore(w.live.texts, w.live.doc)
  {
  }

  lemma RegisterInv(w: World, row: AuthorRow)
    requires Inv(w)
    ensures Inv(w.(reg := w.reg[row.id := row]))
  {
  }

  lemma PassInv(w: World, room: nat)
    requires Inv(w) && Storable(w.live)
    ensures Inv(w.(log := AfterPass(w, room).log, tap := AfterPass(w, room).front))
  {
    hide Plan, Advance, Tracks;
    AnyPassTracks(w, room);
  }

  lemma SaveInv(w: World, room: nat, marked: bool, hash: Bytes, version: u64)
    requires Inv(w) && Storable(w.live)
    ensures var t := AfterPass(w, room);
            Inv(w.(log := if marked then t.log + [Written(hash, version)] else t.log, tap := t.front))
  {
    hide Plan, Advance, Tracks;
    AnyPassTracks(w, room);
    var t := AfterPass(w, room);
    TracksOneMore(t.log, t.front, w.live, Written(hash, version), w.reg);
  }

  // ---------- Runs ----------

  ghost predicate Run(ws: seq<World>, es: seq<Event>) {
    && |ws| == |es| + 1
    && Initial(ws[0])
    && forall i :: 0 <= i < |es| ==> Step(ws[i], es[i], ws[i + 1])
  }

  lemma {:induction false} RunInv(ws: seq<World>, es: seq<Event>, i: nat)
    requires Run(ws, es) && i < |ws|
    ensures Inv(ws[i])
  {
    hide Inv, Initial, Step;
    if i == 0 {
      InitialInv(ws[0]);
    } else {
      RunInv(ws, es, i - 1);
      StepInv(ws[i - 1], es[i - 1], ws[i]);
    }
  }

  /** The theorem the op log is for. At every moment of every run, across any number of
      crashes and restarts before it, whatever whole-record prefix of the log survives
      rebuilds a session whose text, and whose text at every earlier version, is the
      live session's at the version counted by the op records kept. */
  lemma SurvivingPrefixRefinesLive(ws: seq<World>, es: seq<Event>, i: nat, kept: nat)
    requires Run(ws, es) && i < |ws| && 1 <= kept <= |ws[i].log|
    ensures Build(ws[i].log[..kept]).Some?
    ensures var n := OpCount(ws[i].log[..kept]);
            var s := Build(ws[i].log[..kept]).value;
            && n <= |ws[i].live.journal|
            && s.journal == ws[i].live.journal[..n]
            && s.Text() == ws[i].live.TextAt(n)
            && (forall v | 0 <= v <= n :: s.TextAt(v) == ws[i].live.TextAt(v))
  {
    RunInv(ws, es, i);
    var w := ws[i];
    FollowsPrefix(w.log, w.live, kept);
    FollowedLogRebuilds(w.log[..kept], w.live);
  }

  /** At every moment of every run the tap is exactly the frontier of its log. */
  lemma TapIsFrontier(ws: seq<World>, es: seq<Event>, i: nat)
    requires Run(ws, es) && i < |ws|
    ensures ws[i].tap == FrontierOf(ws[i].log)
  {
    RunInv(ws, es, i);
  }

  /** A restart is always possible. It goes on appending to the log it replayed if and
      only if that log's base is named by the digest of the origin; otherwise it archives
      the log and lays a fresh one, which every later step follows just as well. */
  lemma RestartKeepsLog(ws: seq<World>, es: seq<Event>, i: nat, kept: nat, saved: Option<Bytes>, w': World)
    requires Run(ws, es) && i < |ws| && 1 <= kept <= |ws[i].log|
    ensures ws[i].log[0].Base? && 0 < |ws[i].live.texts|
    ensures exists w: World :: Step(ws[i], Restart(kept, saved), w)
    ensures Step(ws[i], Restart(kept, saved), w') ==>
              && w'.live.texts != [] && w'.live.texts[0] == ws[i].live.texts[0]
              && w'.log == if ws[i].log[0].hash == Digest(ws[i].live.texts[0]) then ws[i].log[..kept] else FreshLog(w'.live, saved)
  {
    hide Inv, Step, Restarts, FreshLog;
    RunInv(ws, es, i);
    RestartTo(ws[i], kept, saved, w');
    RestartIsStep(ws[i], kept, saved, w');
    var w :| Restarts(ws[i], kept, saved, w);
    RestartIsStep(ws[i], kept, saved, w);
  }

  lemma RestartIsStep(w: World, kept: nat, saved: Option<Bytes>, w': World)
    ensures Step(w, Restart(kept, saved), w') <==> Restarts(w, kept, saved, w')
  {
    hide Restarts;
  }

  lemma RestartTo(w: World, kept: nat, saved: Option<Bytes>, w': World)
    requires Inv(w) && 1 <= kept <= |w.log|
    ensures w.log[0].Base? && 0 < |w.live.texts|
    ensures exists u :: Restarts(w, kept, saved, u)
    ensures Restarts(w, kept, saved, w') ==>
              && w'.live.texts != [] && w'.live.texts[0] == w.live.texts[0]
              && w'.log == if w.log[0].hash == Digest(w.live.texts[0]) then w.log[..kept] else FreshLog(w'.live, saved)
  {
    hide Inv, Build, Started, FrontierOf;
    RestartInv(w, kept, saved);
    var s := Build(w.log[..kept]).value;
    var log := Started(Some(w.log[..kept]), s, saved).value;
    assert Restarts(w, kept, saved, w.(live := s, log := log, tap := FrontierOf(log)));
  }

  /** After a pass that wrote everything, the log rebuilds the live session whole: its
      text, its journal and the decision on the set of every edit. */
  lemma FullPassIsComplete(ws: seq<World>, es: seq<Event>, i: nat, room: nat)
    requires Run(ws, es) && i < |ws| && Storable(ws[i].live)
    requires |Plan(ws[i].tap, ws[i].live, ws[i].reg)| <= room
    ensures var log := AfterPass(ws[i], room).log;
            && Build(log).Some?
            && var s := Build(log).value;
               && s.Text() == ws[i].live.Text()
               && s.journal == ws[i].live.journal
               && forall k :: 0 <= k < |ws[i].live.journal| && ws[i].live.journal[k].kind == KIND_EDIT ==>
                    var g := ws[i].live.journal[k].group; s.GroupState(g) == ws[i].live.GroupState(g)
  {
    RunInv(ws, es, i);
    FullPass(ws[i], room);
  }

  /** Recording a decision changes that set's state and no other's, and a set whose state is
      the default takes no room in the map. */
  lemma MarkedMeans(s: Session, g: u64, st: u8, other: u64)
    ensures Marked(s, g, st).GroupState(g) == st
    ensures other != g ==> Marked(s, g, st).GroupState(other) == s.GroupState(other)
    ensures st == ACCEPTED ==> g !in Marked(s, g, st).states
  {
  }

  /** So a decision on a set that has an edit reaches the log with the next complete pass,
      whichever way it goes, back to Accepted included. */
  lemma DecisionReachesLog(ws: seq<World>, es: seq<Event>, i: nat, g: u64, st: u8, k: nat, room: nat)
    requires Run(ws, es) && i < |es| && es[i] == Mark(g, st)
    requires k < |ws[i].live.journal| && ws[i].live.journal[k].kind == KIND_EDIT && ws[i].live.journal[k].group == g
    requires Storable(ws[i + 1].live) && |Plan(ws[i + 1].tap, ws[i + 1].live, ws[i + 1].reg)| <= room
    ensures Build(AfterPass(ws[i + 1], room).log).Some?
    ensures Build(AfterPass(ws[i + 1], room).log).value.GroupState(g) == st
  {
    hide AfterPass, Build, Plan, Session.Valid, Storable;
    FullPassIsComplete(ws, es, i + 1, room);
    MarkedMeans(ws[i].live, g, st, g);
    assert Step(ws[i], es[i], ws[i + 1]);
    assert ws[i + 1].live.journal[k] == ws[i].live.journal[k];
  }

  lemma FullPassTells(w: World, room: nat)
    requires Inv(w) && Storable(w.live) && |Plan(w.tap, w.live, w.reg)| <= room
    ensures var t := AfterPass(w, room);
            && t.log == w.log + Plan(w.tap, w.live, w.reg)
            && t.front.version == |w.live.journal| && StoresTold(t.front, w.live)
            && (forall g :: g in GroupIds(w.live.journal) ==> Recorded(t.front, w.live, g))
            && (forall k :: 0 <= k < |w.live.journal| && w.live.journal[k].kind == KIND_EDIT ==>
                  Recorded(t.front, w.live, w.live.journal[k].group))
  {
    hide Plan;
    TracksIsBehind(w);
    PassFollows(w.tap, w.live, w.reg);
    AdvanceFits(TapState(w.log, w.tap, room), Plan(w.tap, w.live, w.reg));
  }

  lemma FullPass(w: World, room: nat)
    requires Inv(w) && Storable(w.live) && |Plan(w.tap, w.live, w.reg)| <= room
    ensures var log := AfterPass(w, room).log;
            && Build(log).Some?
            && var s := Build(log).value;
               && s.Text() == w.live.Text()
               && s.journal == w.live.journal
               && forall k :: 0 <= k < |w.live.journal| && w.live.journal[k].kind == KIND_EDIT ==>
                    var g := w.live.journal[k].group; s.GroupState(g) == w.live.GroupState(g)
  {
    hide Plan, Advance;
    var t := AfterPass(w, room);
    AnyPassTracks(w, room);
    FullPassTells(w, room);
    FollowedLogRebuilds(t.log, w.live);
    var f0 := FreshFrame(w.live.texts[0]);
    OpCountIsOps(f0, t.log);
    BaseOfFirst(t.log);
    var n := |w.live.journal|;
    assert OpCount(t.log) == n && w.live.journal[..n] == w.live.journal;
  }

  /** A pass that has nothing new to say writes nothing. */
  lemma SecondPassIsEmpty(w: World, room: nat)
    requires Inv(w) && Storable(w.live) && |Plan(w.tap, w.live, w.reg)| <= room
    ensures Plan(AfterPass(w, room).front, w.live, w.reg) == []
  {
    hide Advance;
    FullPassTells(w, room);
    var t := AfterPass(w, room).front;
    NoStores(t, w.live, w.reg, 0);
    NoDecisions(t, w.live, GroupIds(w.live.journal));
  }

  lemma {:induction false} NoStores(t: Frontier, s: Session, reg: Registry, id: nat)
    requires Storable(s) && StoresTold(t, s) && id <= |s.texts|
    ensures PlanStores(t, s, reg, id) == []
    decreases |s.texts| - id
  {
    if id < |s.texts| {
      NoStores(t, s, reg, id + 1);
      assert PlanStore(t, s, reg, id) == [];
      assert ToldAll(t, []) == t;
    }
  }

  lemma {:induction false} NoDecisions(t: Frontier, s: Session, gs: seq<u64>)
    requires forall g :: g in gs ==> Recorded(t, s, g)
    ensures PlanDecisions(t, s, gs) == []
    decreases |gs|
  {
    if gs != [] {
      assert gs[0] in gs && Recorded(t, s, gs[0]);
      assert ToldAll(t, []) == t;
      NoDecisions(t, s, gs[1..]);
    }
  }

  /** An author row precedes everything that names its author: whatever a pass writes,
      the newest row before it for each author it names is the registry's. */
  lemma NamesComeLater(w: World, room: nat, i: nat, id: u8)
    requires Inv(w) && Storable(w.live)
    requires |w.log| <= i < |AfterPass(w, room).log|
    requires NamesAuthor(AfterPass(w, room).log[i], id) && id != ORIGINAL && id in w.reg
    ensures var rows := FrontierOf(AfterPass(w, room).log[..i]).authors;
            id in rows && rows[id] == w.reg[id]
  {
    hide Plan, Tracks, MayFollow, NamesAuthor, FrontierOf, Told;
    TracksIsBehind(w);
    var plan := Plan(w.tap, w.live, w.reg);
    var k := i - |w.log|;
    PassFollows(w.tap, w.live, w.reg);
    PlanNames(plan, k, w.tap, w.live, w.reg, id);
    TracksPlan(w.log, w.tap, w.live, plan[..k], w.reg);
    TracksTap(w.log + plan[..k], ToldAll(w.tap, plan[..k]), w.live);
    assert AfterPass(w, room).log[..i] == w.log + plan[..k];
  }

  lemma TracksTap(log: seq<Record>, t: Frontier, live: Session)
    requires Tracks(log, t, live)
    ensures t == FrontierOf(log)
  {
  }

  lemma PlanNames(plan: seq<Record>, k: nat, t: Frontier, live: Session, reg: Registry, id: u8)
    requires k < |plan| && PlanFollows(plan, t, live, reg)
    ensures PlanFollows(plan[..k], t, live, reg)
    ensures NamesAuthor(plan[k], id) ==> Known(ToldAll(t, plan[..k]), reg, id)
  {
    PlanFollowsPrefix(plan, k + 1, t, live, reg);
    assert plan[..k + 1][..k] == plan[..k];
  }
}
