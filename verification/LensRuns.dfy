/** Lens requests, answers, installs and draws in every interleaving. */
module LensRuns {
  import opened Options
  import opened Lenses

  /** The last answer stored for a path, and the resolves spent against it. */
  datatype Entry = Entry(version: nat, lenses: seq<Lens>, resolves: nat)

  type Entries = map<Path, Entry>

  function Stored(s: Entries, path: Path, version: nat, lenses: seq<Lens>): Entries {
    s[path := Entry(version, lenses, if path in s && s[path].version == version then s[path].resolves else 0)]
  }

  predicate MayClaim(s: Entries, path: Path, version: nat) {
    path in s && s[path].version == version && s[path].resolves < MAX_RESOLVES
  }

  function Claimed(s: Entries, path: Path, version: nat): Entries {
    if MayClaim(s, path, version) then s[path := s[path].(resolves := s[path].resolves + 1)] else s
  }

  class LensStore {
    var byPath: Entries

    constructor ()
      ensures byPath == map[]
    {
      byPath := map[];
    }

    method Set(path: Path, version: nat, lenses: seq<Lens>)
      modifies this
      ensures byPath == Stored(old(byPath), path, version, lenses)
    {
      var e := Entry(version, lenses, 0);
      if path in byPath && byPath[path].version == version {
        e := e.(resolves := byPath[path].resolves);
      }
      byPath := byPath[path := e];
    }

    method Clear(path: Path)
      modifies this
      ensures byPath == old(byPath) - {path}
    {
      byPath := byPath - {path};
    }

    method ClaimResolve(path: Path, version: nat) returns (ok: bool)
      modifies this
      ensures byPath == Claimed(old(byPath), path, version)
      ensures ok <==> MayClaim(old(byPath), path, version)
    {
      if path !in byPath || byPath[path].version != version {
        return false;
      }
      if byPath[path].resolves >= MAX_RESOLVES {
        return false;
      }
      byPath := byPath[path := byPath[path].(resolves := byPath[path].resolves + 1)];
      return true;
    }
  }

  // ---------- The editor ----------

  /** A buffer: its text version, which opening of its path it is, and what is installed. */
  datatype Doc = Doc(version: nat, born: nat, installed: Option<seq<Hint>>)

  /** A request or resolve under way. `born` is the document it was asked about. */
  datatype Flight =
    | Fetch(gen: nat, path: Path, version: nat, born: nat)
    | Resolve(gen: nat, path: Path, version: nat, born: nat, lenses: seq<Lens>, line: nat, lens: Lens)

  datatype Answer = Answer(gen: nat, path: Path, version: nat, born: nat, lenses: seq<Lens>)

  /** The one slot every kind of answer is parked in. */
  datatype Slot = Empty | Parked(ans: Answer) | Other

  datatype World = World(docs: map<Path, Doc>, active: Option<Path>, editing: bool, store: Entries,
                         req: Option<(Path, nat)>, gen: nat, slot: Slot, flights: seq<Flight>, opens: nat,
                         claims: map<(Path, nat), nat>)

  datatype Server = Absent | NoLenses | SyncFails | Serves

  predicate Shows(w: World) {
    w.active.Some? && w.active.value in w.docs
  }

  function Forget(claims: map<(Path, nat), nat>, path: Path): map<(Path, nat), nat> {
    map k | k in claims && k.0 != path :: claims[k]
  }

  function Install(w: World, path: Path, installed: Option<seq<Hint>>): World
    requires path in w.docs
  {
    w.(docs := w.docs[path := w.docs[path].(installed := installed)])
  }

  /** The idle tick. */
  function Requested(w: World, server: Server): World {
    if !Shows(w) || !w.editing then w.(req := None)
    else
      var p := w.active.value;
      var d := w.docs[p];
      if w.req == Some((p, d.version)) || server == Absent || server == SyncFails then w
      else if server == NoLenses then
        Install(w, p, None).(req := Some((p, d.version)), gen := w.gen + 1, store := w.store - {p}, claims := Forget(w.claims, p))
      else
        w.(req := Some((p, d.version)), gen := w.gen + 1, flights := w.flights + [Fetch(w.gen + 1, p, d.version, d.born)])
  }

  predicate Installs(w: World, ans: Answer) {
    && Shows(w) && w.active.value == ans.path && w.editing && w.docs[ans.path].version == ans.version
  }

  /** The parked answer is the newest asked and fits what is in front. */
  predicate Taken(w: World) {
    w.slot.Parked? && w.slot.ans.gen == w.gen && Installs(w, w.slot.ans)
  }

  /** An event's end: the parked answer is taken, and dropped unless nothing newer was
      asked and the pane, mode and text are the ones it was asked for. */
  function Applied(w: World): World {
    var t := w.(slot := Empty);
    if Taken(w) then
      var a := w.slot.ans;
      Install(t, a.path, Some(LineHints(a.lenses))).(store := Stored(w.store, a.path, a.version, a.lenses))
    else t
  }

  predicate Current(w: World, path: Path) {
    path in w.docs && path in w.store && w.store[path].version == w.docs[path].version
  }

  /** The top of a draw. */
  function Invalidated(w: World): World {
    if !Shows(w) || w.docs[w.active.value].installed.None? then w
    else if w.editing && Current(w, w.active.value) then w
    else Install(w, w.active.value, None).(gen := w.gen + 1)
  }

  /** A change of width rebuilds the installed runs from the store. */
  function Fitted(w: World): World {
    if Shows(w) && w.editing && Current(w, w.active.value)
    then Install(w, w.active.value, Some(LineHints(w.store[w.active.value].lenses)))
    else w
  }

  predicate Resolves(w: World, line: nat, able: bool) {
    && Shows(w) && Current(w, w.active.value)
    && (var l := LensAtLine(w.store[w.active.value].lenses, line);
        l.Some? && l.value.command.None? && l.value.data != "")
    && able && MayClaim(w.store, w.active.value, w.docs[w.active.value].version)
  }

  function Claims(w: World, path: Path, version: nat): nat {
    if (path, version) in w.claims then w.claims[(path, version)] else 0
  }

  /** The run chord. A lens whose command was deferred spends one resolve. */
  function Ran(w: World, line: nat, able: bool): World {
    if !Resolves(w, line, able) then w
    else
      var p := w.active.value;
      var d, e := w.docs[p], w.store[p];
      w.(store := Claimed(w.store, p, d.version), gen := w.gen + 1,
         claims := w.claims[(p, d.version) := Claims(w, p, d.version) + 1],
         flights := w.flights + [Resolve(w.gen + 1, p, d.version, d.born, e.lenses, line, LensAtLine(e.lenses, line).value)])
  }

  function Closed(w: World, path: Path): World {
    var mine := w.req.Some? && w.req.value.0 == path;
    w.(docs := w.docs - {path}, store := w.store - {path}, claims := Forget(w.claims, path),
       req := if mine then None else w.req, gen := if mine then w.gen + 1 else w.gen)
  }

  /** A goroutine parks its answer, over whatever was in the slot. A resolve keeps the
      range its lens was drawn at; one that failed answers the lens it was given. */
  function Landed(f: Flight, lenses: seq<Lens>, resolved: Option<Lens>): Answer {
    match f
    case Fetch(gen, path, version, born) => Answer(gen, path, version, born, lenses)
    case Resolve(gen, path, version, born, all, line, lens) =>
      var r := match resolved case Some(l) => l.(line := lens.line) case None => lens;
      Answer(gen, path, version, born, ReplaceLensAtLine(all, line, r))
  }

  /** The fields the event thread updates. `flights`, `opens` and `claims` are the
      goroutines under way and the history, which the source does not keep. */
  class App {
    var docs: map<Path, Doc>
    var active: Option<Path>
    var editing: bool
    var store: Entries
    var req: Option<(Path, nat)>
    var gen: nat
    var slot: Slot
    ghost var flights: seq<Flight>
    ghost var opens: nat
    ghost var claims: map<(Path, nat), nat>

    ghost function View(): World
      reads this
    {
      World(docs, active, editing, store, req, gen, slot, flights, opens, claims)
    }

    method MaybeRequestLenses(server: Server) returns (asked: bool)
      modifies this
      ensures View() == Requested(old(View()), server)
      ensures asked <==> flights != old(flights)
    {
      if active.None? || active.value !in docs || !editing {
        req := None;
        return false;
      }
      var path := active.value;
      var version := docs[path].version;
      if req == Some((path, version)) || server == Absent {
        return false;
      }
      if server == NoLenses {
        req := Some((path, version));
        docs := docs[path := docs[path].(installed := None)];
        gen := gen + 1;
        store := store - {path};
        claims := Forget(claims, path);
        return false;
      }
      if server == SyncFails {
        return false;
      }
      req := Some((path, version));
      gen := gen + 1;
      flights := flights + [Fetch(gen, path, version, docs[path].born)];
      return true;
    }

    method ApplyAnswer()
      modifies this
      ensures View() == Applied(old(View()))
    {
      hide LineHints;
      var taken := slot;
      slot := Empty;
      if !taken.Parked? || taken.ans.gen != gen {
        return;
      }
      ApplyLenses(taken.ans);
    }

    method ApplyLenses(ans: Answer)
      modifies `docs, `store
      ensures View() == if Installs(old(View()), ans)
                        then Install(old(View()), ans.path, Some(LineHints(ans.lenses))).(store := Stored(old(store), ans.path, ans.version, ans.lenses))
                        else old(View())
    {
      if active.None? || active.value !in docs || active.value != ans.path || !editing {
        return;
      }
      if docs[ans.path].version != ans.version {
        return;
      }
      var hints := LensLineHints(ans.lenses);
      docs := docs[ans.path := docs[ans.path].(installed := Some(hints))];
      store := Stored(store, ans.path, ans.version, ans.lenses);
    }

    method InvalidateLenses()
      modifies this
      ensures View() == Invalidated(old(View()))
    {
      if active.None? || active.value !in docs || docs[active.value].installed.None? {
        return;
      }
      var path := active.value;
      if editing && path in store && docs[path].version == store[path].version {
        return;
      }
      docs := docs[path := docs[path].(installed := None)];
      gen := gen + 1;
    }

    method FitLenses()
      modifies this
      ensures View() == Fitted(old(View()))
    {
      if active.None? || active.value !in docs || !editing {
        return;
      }
      var path := active.value;
      if path !in store || docs[path].version != store[path].version {
        return;
      }
      var hints := LensLineHints(store[path].lenses);
      docs := docs[path := docs[path].(installed := Some(hints))];
    }

    /** `able`: the server answers resolves and accepts commands. */
    method RunCodeLens(line: nat, able: bool)
      modifies this
      ensures View() == Ran(old(View()), line, able)
    {
      if active.None? || active.value !in docs || active.value !in store {
        return;
      }
      var path := active.value;
      var version := store[path].version;
      if docs[path].version != version {
        return;
      }
      var lens := LensAtLine(store[path].lenses, line);
      if lens.None? || lens.value.command.Some? || lens.value.data == "" || !able {
        return;
      }
      if !MayClaim(store, path, version) {
        return;
      }
      ghost var lenses := store[path].lenses;
      claims := claims[(path, version) := Claims(View(), path, version) + 1];
      store := Claimed(store, path, version);
      gen := gen + 1;
      flights := flights + [Resolve(gen, path, version, docs[path].born, lenses, line, lens.value)];
    }

    method CloseDoc(path: Path)
      modifies this
      ensures View() == Closed(old(View()), path)
    {
      docs := docs - {path};
      store := store - {path};
      claims := Forget(claims, path);
      if req.Some? && req.value.0 == path {
        req := None;
        gen := gen + 1;
      }
    }
  }

  datatype Event =
    | Edit(path: Path)
    | Open(path: Path)
    | Close(path: Path)
    | Focus(active: Option<Path>)
    | Mode(editing: bool)
    | Request(server: Server)
    | Land(flight: nat, lenses: seq<Lens>, resolved: Option<Lens>)
    | ParkOther
    | Apply
    | Draw
    | Fit
    | Run(line: nat, able: bool)

  predicate Enabled(w: World, e: Event) {
    match e
    case Edit(p) => p in w.docs
    case Open(p) => p !in w.docs
    case Land(i, _, _) => i < |w.flights|
    case _ => true
  }

  function Next(w: World, e: Event): World
    requires Enabled(w, e)
  {
    match e
    case Edit(p) => w.(docs := w.docs[p := w.docs[p].(version := w.docs[p].version + 1)])
    case Open(p) => w.(docs := w.docs[p := Doc(0, w.opens, None)], opens := w.opens + 1)
    case Close(p) => Closed(w, p)
    case Focus(p) => w.(active := p)
    case Mode(m) => w.(editing := m)
    case Request(s) => Requested(w, s)
    case Land(i, lenses, resolved) =>
      w.(slot := Parked(Landed(w.flights[i], lenses, resolved)), flights := w.flights[..i] + w.flights[i + 1..])
    case ParkOther => w.(slot := Other)
    case Apply => Applied(w)
    case Draw => Invalidated(w)
    case Fit => Fitted(w)
    case Run(line, able) => Ran(w, line, able)
  }

  const START := World(map[], None, true, map[], None, 0, Empty, [], 0, map[])

  // ---------- What every step keeps ----------

  /** What a buffer shows is the stored answer of its path, for a version it has had. */
  predicate Sound(w: World, p: Path) {
    && (p in w.docs && w.docs[p].installed.Some? ==> p in w.store && w.docs[p].installed.value == LineHints(w.store[p].lenses))
    && (p in w.store ==> p in w.docs && w.store[p].version <= w.docs[p].version)
  }

  /** The store's count is the history's: resolves claimed since the path was cleared. */
  ghost predicate Budgeted(w: World, p: Path) {
    && (p in w.store ==> w.store[p].resolves == Claims(w, p, w.store[p].version))
    && (forall v: nat :: Claims(w, p, v) <= MAX_RESOLVES)
    && forall v: nat :: Claims(w, p, v) > 0 ==> p in w.store && v <= w.store[p].version
  }

  ghost predicate Inv(w: World) {
    forall p :: Sound(w, p) && Budgeted(w, p)
  }

  lemma StepSound(w: World, e: Event, p: Path)
    requires Sound(w, p) && Enabled(w, e)
    ensures Sound(Next(w, e), p)
  {
    hide LineHints, LensAtLine, ReplaceLensAtLine, Landed, Claims, Forget;
  }

  lemma StepBudgeted(w: World, e: Event, p: Path)
    requires Sound(w, p) && Budgeted(w, p) && Enabled(w, e)
    ensures Budgeted(Next(w, e), p)
  {
    hide LineHints, LensAtLine, ReplaceLensAtLine, Landed, Requested, Applied, Closed, Ran;
    match e
    case Request(s) => RequestBudgeted(w, s, p);
    case Apply => ApplyBudgeted(w, p);
    case Close(q) => CloseBudgeted(w, q, p);
    case Run(line, able) => RunBudgeted(w, line, able, p);
    case _ => SameBudget(w, Next(w, e), p);
  }

  lemma SameBudget(w: World, w': World, p: Path)
    requires Budgeted(w, p) && w'.store == w.store && w'.claims == w.claims
    ensures Budgeted(w', p)
  {
    assert forall v: nat :: Claims(w', p, v) == Claims(w, p, v);
  }

  lemma ForgottenClaims(w: World, w': World, q: Path, p: Path)
    requires w'.claims == Forget(w.claims, q)
    ensures forall v: nat :: Claims(w', p, v) == if p == q then 0 else Claims(w, p, v)
  {
  }

  lemma RequestBudgeted(w: World, s: Server, p: Path)
    requires Budgeted(w, p)
    ensures Budgeted(Requested(w, s), p)
  {
    hide Claims, Forget;
    var w' := Requested(w, s);
    if w'.claims == w.claims && w'.store == w.store {
      SameBudget(w, w', p);
    } else {
      ForgottenClaims(w, w', w.active.value, p);
    }
  }

  lemma CloseBudgeted(w: World, q: Path, p: Path)
    requires Budgeted(w, p)
    ensures Budgeted(Closed(w, q), p)
  {
    hide Claims, Forget;
    ForgottenClaims(w, Closed(w, q), q, p);
  }

  lemma ApplyBudgeted(w: World, p: Path)
    requires Sound(w, p) && Budgeted(w, p)
    ensures Budgeted(Applied(w), p)
  {
    hide LineHints;
    assert forall v: nat :: Claims(Applied(w), p, v) == Claims(w, p, v);
  }

  lemma RunBudgeted(w: World, line: nat, able: bool, p: Path)
    requires Budgeted(w, p)
    ensures Budgeted(Ran(w, line, able), p)
  {
    hide LensAtLine;
    var w' := Ran(w, line, able);
    if Resolves(w, line, able) {
      var q := w.active.value;
      var at := w.docs[q].version;
      assert forall v: nat :: Claims(w', p, v) == Claims(w, p, v) + if p == q && v == at then 1 else 0;
    } else {
      SameBudget(w, w', p);
    }
  }

  ghost predicate IsRun(ws: seq<World>, es: seq<Event>) {
    && |ws| == |es| + 1 && ws[0] == START
    && forall i :: 0 <= i < |es| ==> Enabled(ws[i], es[i]) && ws[i + 1] == Next(ws[i], es[i])
  }

  lemma {:induction false} RunInv(ws: seq<World>, es: seq<Event>, i: nat)
    requires IsRun(ws, es) && i < |ws|
    ensures Inv(ws[i])
  {
    hide Next, Sound, Budgeted;
    if i == 0 {
      StartInv();
    } else {
      RunInv(ws, es, i - 1);
      forall p ensures Sound(ws[i], p) && Budgeted(ws[i], p) {
        StepSound(ws[i - 1], es[i - 1], p);
        StepBudgeted(ws[i - 1], es[i - 1], p);
      }
    }
  }

  lemma StartInv()
    ensures Inv(START)
  {
  }

  /** Whatever interleaving led here, lenses still installed after a draw's invalidation
      are the stored answer of that path, for exactly the version drawn. */
  lemma DrawnLensesAreCurrent(ws: seq<World>, es: seq<Event>, i: nat)
    requires IsRun(ws, es) && i < |ws|
    ensures var w := Invalidated(ws[i]);
            Shows(w) && w.docs[w.active.value].installed.Some? ==>
              && w.editing && Current(w, w.active.value)
              && w.docs[w.active.value].installed == Some(LineHints(w.store[w.active.value].lenses))
  {
    RunInv(ws, es, i);
    if Shows(ws[i]) {
      assert Sound(ws[i], ws[i].active.value);
    }
  }

  /** At most 32 resolves are ever claimed against one version of a path, however often
      its answer is replaced, until the path is cleared. */
  lemma ResolvesAreBounded(ws: seq<World>, es: seq<Event>, i: nat, p: Path, version: nat)
    requires IsRun(ws, es) && i < |ws|
    ensures Claims(ws[i], p, version) <= MAX_RESOLVES
  {
    RunInv(ws, es, i);
    assert Budgeted(ws[i], p);
  }

  /** And the bound is reached before it refuses: the run chord spends a resolve exactly
      while fewer than 32 were claimed. */
  lemma BudgetIsExact(w: World, line: nat)
    requires Inv(w) && Shows(w) && Current(w, w.active.value)
    requires var l := LensAtLine(w.store[w.active.value].lenses, line); l.Some? && l.value.command.None? && l.value.data != ""
    ensures Resolves(w, line, true) <==> Claims(w, w.active.value, w.docs[w.active.value].version) < MAX_RESOLVES
  {
    assert Budgeted(w, w.active.value);
  }

  // ---------- What lands ----------

  /** A fetch parks what the server sent, about the text it was asked about. A resolve parks
      the answer it started from with its lens replaced: on that line the lookup finds the
      resolved command, or the lens as it was if the resolve failed, and on every other
      line what it found before. */
  lemma LandedMeans(f: Flight, lenses: seq<Lens>, resolved: Option<Lens>, other: nat)
    requires f.Resolve? ==> LensAtLine(f.lenses, f.line) == Some(f.lens) && other != f.line
    ensures var ans := Landed(f, lenses, resolved);
            && ans.gen == f.gen && ans.path == f.path && ans.version == f.version && ans.born == f.born
            && (f.Fetch? ==> ans.lenses == lenses)
            && (f.Resolve? ==>
                  && |ans.lenses| == |f.lenses|
                  && LensAtLine(ans.lenses, f.line) == Some(if resolved.Some? then Lens(f.line, resolved.value.command, resolved.value.data) else f.lens)
                  && LensAtLine(ans.lenses, other) == LensAtLine(f.lenses, other))
  {
    hide ReplaceLensAtLine;
    if f.Resolve? {
      FoundOnLine(f.lenses, f.line);
      var r := match resolved case Some(l) => l.(line := f.lens.line) case None => f.lens;
      ReplacedIsFound(f.lenses, f.line, r, other);
    }
  }

  lemma {:induction false} FoundOnLine(lenses: seq<Lens>, line: nat)
    ensures LensAtLine(lenses, line).Some? ==> LensAtLine(lenses, line).value.line == line && LensAtLine(lenses, line).value in lenses
  {
    if lenses != [] {
      FoundOnLine(lenses[1..], line);
    }
  }

  // ---------- Superseded answers ----------

  /** What is in front and shows the lenses of its stored answer's version. */
  predicate FrontIsCurrent(w: World) {
    && w.active.Some? && w.active.value in w.docs && w.active.value in w.store
    && w.store[w.active.value].version == w.docs[w.active.value].version
  }

  /** The lens the run chord finds is one the server still has to resolve, and may. */
  predicate MustResolve(w: World, line: nat) {
    && FrontIsCurrent(w) && w.store[w.active.value].resolves < 32
    && match LensAtLine(w.store[w.active.value].lenses, line)
       case Some(l) => l.command == None && l.data != ""
       case None => false
  }

  /** The steps that supersede what is under way: a tick that asks, or learns that the
      server has no lenses, about a text it did not just ask about; a chord that resolves;
      a draw that drops lenses which are not the stored answer of its version; a close of
      the path last asked about. Each moves the generation by one and no other step does. */
  predicate Supersedes(w: World, e: Event) {
    match e
    case Request(s) =>
      && w.active.Some? && w.active.value in w.docs && w.editing && (s == NoLenses || s == Serves)
      && w.req != Some((w.active.value, w.docs[w.active.value].version))
    case Run(line, able) => able && MustResolve(w, line)
    case Draw =>
      && w.active.Some? && w.active.value in w.docs && w.docs[w.active.value].installed.Some?
      && !(w.editing && FrontIsCurrent(w))
    case Close(p) => w.req.Some? && w.req.value.0 == p
    case _ => false
  }

  lemma SupersedesExactly(w: World, e: Event)
    requires Enabled(w, e)
    ensures Next(w, e).gen == if Supersedes(w, e) then w.gen + 1 else w.gen
  {
    hide LineHints, Landed, ReplaceLensAtLine, Forget, Claims;
  }

  /** What is asked of the server: one request by a tick that supersedes with a server that
      serves lenses, one resolve by a chord that does, under the new generation and about
      the text in front; an answer that lands is no longer under way; nothing else. */
  lemma AsksExactly(w: World, e: Event)
    requires Enabled(w, e)
    ensures var asks := Supersedes(w, e) && (e == Request(Serves) || e.Run?);
            !asks && !e.Land? ==> Next(w, e).flights == w.flights
    ensures Supersedes(w, e) && e == Request(Serves) ==>
              var p := w.active.value;
              Next(w, e).flights == w.flights + [Fetch(w.gen + 1, p, w.docs[p].version, w.docs[p].born)]
    ensures Supersedes(w, e) && e.Run? ==>
              var p, found := w.active.value, LensAtLine(w.store[w.active.value].lenses, e.line);
              && found.Some?
              && Next(w, e).flights == w.flights +
                   [Resolve(w.gen + 1, p, w.docs[p].version, w.docs[p].born, w.store[p].lenses, e.line, found.value)]
    ensures e.Land? ==>
              && |Next(w, e).flights| == |w.flights| - 1
              && forall k :: 0 <= k < |w.flights| - 1 ==> Next(w, e).flights[k] == w.flights[if k < e.flight then k else k + 1]
  {
    hide LineHints, Landed, ReplaceLensAtLine, Forget, Claims, LensAtLine;
  }

  lemma GenGrows(w: World, e: Event)
    requires Enabled(w, e)
    ensures w.gen <= Next(w, e).gen
  {
  }

  lemma {:induction false} RunGenGrows(ws: seq<World>, es: seq<Event>, i: nat, j: nat)
    requires IsRun(ws, es) && i <= j < |ws|
    ensures ws[i].gen <= ws[j].gen
  {
    hide Next;
    if i < j {
      RunGenGrows(ws, es, i, j - 1);
      GenGrows(ws[j - 1], es[j - 1]);
    }
  }

  /** An answer asked before the generation moved is never installed: a request, a resolve
      or a draw that dropped stale lenses supersedes everything under way, for good. */
  lemma SupersededNeverInstalls(ws: seq<World>, es: seq<Event>, i: nat, j: nat)
    requires IsRun(ws, es) && i <= j < |ws|
    requires ws[j].slot.Parked? && ws[j].slot.ans.gen < ws[i].gen
    ensures Applied(ws[j]) == ws[j].(slot := Empty)
  {
    RunGenGrows(ws, es, i, j);
  }

  // ---------- Closing and reopening ----------

  /** What the close fixes: the answer is of the newest generation, and the last request
      recorded is not for the path closed, so that the close leaves the generation alone. */
  predicate OutlivesClose(w: World, ans: Answer) {
    ans.gen == w.gen && !(w.req.Some? && w.req.value.0 == ans.path)
  }

  lemma CloseSupersedes(w: World, ans: Answer)
    requires ans.gen <= w.gen
    ensures ans.gen < Closed(w, ans.path).gen <==> !OutlivesClose(w, ans)
    ensures OutlivesClose(w, ans) ==> ans.gen == w.gen
  {
  }

  /** `closeDoc` counts on its generation bump to drop every answer still in flight about
      the text it closes. Over every run, an answer asked before a close of its path that
      does not outlive the close is never installed after it; one that does is installed
      exactly when it is in the slot with the generation still the one of the close and a
      document at its version in front, in edit mode. */
  lemma ClosedAnswerInstalls(ws: seq<World>, es: seq<Event>, i: nat, j: nat, ans: Answer)
    requires IsRun(ws, es) && i < j < |ws| && es[i] == Close(ans.path)
    requires ws[j].slot == Parked(ans) && ans.gen <= ws[i].gen
    ensures !OutlivesClose(ws[i], ans) ==> !Taken(ws[j])
    ensures OutlivesClose(ws[i], ans) ==> (Taken(ws[j]) <==> ws[j].gen == ws[i].gen && Installs(ws[j], ans))
  {
    hide Installs, Closed, OutlivesClose;
    RunGenGrows(ws, es, i, i + 1);
    RunGenGrows(ws, es, i + 1, j);
    CloseSupersedes(ws[i], ans);
  }

  /** The world after the events, if each can happen where it stands. */
  function Then(w: World, es: seq<Event>): Option<World>
    decreases |es|
  {
    if es == [] then Some(w)
    else if Enabled(w, es[0]) then Then(Next(w, es[0]), es[1..])
    else None
  }

  lemma {:induction false} ThenGenGrows(w: World, es: seq<Event>)
    requires Then(w, es).Some?
    ensures w.gen <= Then(w, es).value.gen
    decreases |es|
  {
    hide Next;
    if es != [] {
      ThenGenGrows(Next(w, es[0]), es[1..]);
      GenGrows(w, es[0]);
    }
  }

  /** The path, opened again, brought to a version by edits and put in front. */
  function Revisit(p: Path, version: nat): seq<Event> {
    if version == 0 then [Focus(Some(p)), Mode(true)] else [Edit(p)] + Revisit(p, version - 1)
  }

  lemma {:induction false} RevisitInstalls(w: World, ans: Answer, n: nat)
    requires ans.path in w.docs && w.slot == Parked(ans) && ans.gen == w.gen
    requires w.docs[ans.path].version + n == ans.version
    ensures var r := Then(w, Revisit(ans.path, n)); r.Some? && r.value.slot == Parked(ans) && Taken(r.value)
    decreases n
  {
    var p := ans.path;
    if n == 0 {
      var u := Next(w, Focus(Some(p)));
      var front := [Focus(Some(p)), Mode(true)];
      assert front[1..] == [Mode(true)] && [Mode(true)][1..] == [];
      assert Then(w, front) == Then(u, [Mode(true)]) == Then(Next(u, Mode(true)), []);
    } else {
      RevisitInstalls(Next(w, Edit(p)), ans, n - 1);
      assert ([Edit(p)] + Revisit(p, n - 1))[1..] == Revisit(p, n - 1);
    }
  }

  /** So the close drops an answer for good, whatever follows, if and only if the answer
      does not outlive it: otherwise some continuation installs it. */
  lemma CloseDropsForGood(w: World, ans: Answer)
    requires w.slot == Parked(ans) && ans.gen <= w.gen
    ensures !OutlivesClose(w, ans) <==>
              forall es :: var r := Then(w, [Close(ans.path)] + es);
                           r.Some? && r.value.slot == Parked(ans) ==> !Taken(r.value)
  {
    hide OutlivesClose;
    var p := ans.path;
    var u := Next(w, Close(p));
    CloseSupersedes(w, ans);
    if OutlivesClose(w, ans) {
      var es := [Open(p)] + Revisit(p, ans.version);
      var v := Next(u, Open(p));
      RevisitInstalls(v, ans, ans.version);
      assert es[1..] == Revisit(p, ans.version);
      assert Then(u, es) == Then(v, Revisit(p, ans.version));
      assert ([Close(p)] + es)[1..] == es;
      assert Then(w, [Close(p)] + es) == Then(u, es);
    } else {
      forall es | Then(w, [Close(p)] + es).Some? && Then(w, [Close(p)] + es).value.slot == Parked(ans)
        ensures !Taken(Then(w, [Close(p)] + es).value)
      {
        assert ([Close(p)] + es)[1..] == es;
        ThenGenGrows(u, es);
      }
    }
  }

  /** The worlds of the example: one document, `"a"`, in its first or second opening. */
  function Example(born: nat, editing: bool, req: Option<(Path, nat)>, slot: Slot, flights: seq<Flight>): World {
    World(map["a" := Doc(0, born, None)], Some("a"), editing, map[], req, 1, slot, flights, born + 1, map[])
  }

  lemma Asked()
    ensures Next(Next(Next(START, Open("a")), Focus(Some("a"))), Request(Serves))
         == Example(0, true, Some(("a", 0)), Empty, [Fetch(1, "a", 0, 0)])
  {
    var w2 := Next(Next(START, Open("a")), Focus(Some("a")));
    assert w2 == START.(docs := map["a" := Doc(0, 0, None)], active := Some("a"), opens := 1);
  }

  lemma Reopened(flights: seq<Flight>)
    ensures Next(Next(Example(0, false, None, Empty, flights), Close("a")), Open("a")) == Example(1, false, None, Empty, flights)
  {
    var w := Example(0, false, None, Empty, flights);
    assert Next(w, Close("a")) == w.(docs := map[]);
  }

  /** So a request forgotten by a change of mode outlives its document. A tick asks for the
      lenses of `"a"`; a tick outside edit mode forgets that it did; the document is closed
      and the path opened again; the answer lands, about the text that was closed, and is
      installed on the document that was opened. */
  lemma LateAnswerAfterReopen(lenses: seq<Lens>)
    ensures var asked := [Fetch(1, "a", 0, 0)];
            && Next(Next(Next(START, Open("a")), Focus(Some("a"))), Request(Serves)) == Example(0, true, Some(("a", 0)), Empty, asked)
            && Next(Next(Example(0, true, Some(("a", 0)), Empty, asked), Mode(false)), Request(Serves)) == Example(0, false, None, Empty, asked)
            && Next(Next(Next(Example(0, false, None, Empty, asked), Close("a")), Open("a")), Mode(true)) == Example(1, true, None, Empty, asked)
            && Next(Example(1, true, None, Empty, asked), Land(0, lenses, None)) == Example(1, true, None, Parked(Answer(1, "a", 0, 0, lenses)), [])
            && var late := Next(Example(1, true, None, Parked(Answer(1, "a", 0, 0, lenses)), []), Apply);
               "a" in late.docs && late.docs["a"] == Doc(0, 1, Some(LineHints(lenses)))
  {
    hide LineHints;
    Asked();
    Reopened([Fetch(1, "a", 0, 0)]);
  }
}
