/** The attached client's tab set: which daemon buffers it shows, which the user closed,
    and the close mark that keeps a closed tab away until the daemon's facts move. */
module ClientTabs {
  import opened Options

  /** What the client last fetched for a path. */
  datatype Mark = Mark(version: nat, pending: nat, moved: nat, superseded: nat, dirty: bool, deleted: bool)
  {
    predicate Matches(b: Buffer) {
      && version == b.version && dirty == b.dirty && pending == b.pending && moved == b.moved
      && superseded == b.superseded && deleted == b.deleted
    }

    /** The same version and review facts; dirty and deleted are ignored. */
    predicate StillClosedMark(n: Mark) {
      version == n.version && pending == n.pending && moved == n.moved && superseded == n.superseded
    }

    predicate StillClosed(b: Buffer) {
      StillClosedMark(MarkOf(b.version, b))
    }
  }

  /** One buffer as the daemon lists it. */
  datatype Buffer = Buffer(version: nat, pending: nat, moved: nat, superseded: nat, dirty: bool, deleted: bool, headless: bool)

  const ZERO_BUFFER := Buffer(0, 0, 0, 0, false, false, false)

  function MarkOf(version: nat, b: Buffer): Mark {
    Mark(version, b.pending, b.moved, b.superseded, b.dirty, b.deleted)
  }

  predicate HasUnsavedWork(b: Buffer) {
    b.dirty || b.pending > 0
  }

  /** A fetched document, as far as a close mark reads it. */
  datatype File = File(version: nat, pending: nat, moved: nat)

  function MarkFromFile(f: File): Mark {
    Mark(f.version, f.pending, if f.pending > 0 then f.moved else 0, 0, false, false)
  }

  datatype Queued = Queued(path: string, file: File)

  /** The client's tab state as a value: the shared maps, the fetch marks of the watch
      goroutine, the handoff queue and the tabs on screen. */
  datatype Tabs = Tabs(owned: set<string>, closed: map<string, Mark>, vers: map<string, Mark>,
                       files: seq<Queued>, open: map<string, File>)
  {
    /** The close mark as a reader leaves it: a mark that no longer agrees is spent. */
    function Spend(path: string, agrees: bool): Tabs {
      if path in closed && !agrees then this.(closed := closed - {path}) else this
    }

    function Fetch(path: string, b: Buffer, f: File): Tabs {
      this.(vers := vers[path := MarkOf(f.version, b)], files := files + [Queued(path, f)])
    }
  }

  /** One path of a cycle's first loop. The cycle works from a copy of the owned set, so
      it may reach a path closed since. */
  function SyncOwned(t: Tabs, path: string, listed: Option<Buffer>, f: File): Tabs {
    if listed.None? then t
    else
      var b := listed.value;
      var u := t.Spend(path, path in t.closed && t.closed[path].StillClosed(b));
      if path in u.closed then u
      else if path in u.vers && u.vers[path].Matches(b) then u
      else u.Fetch(path, b, f)
  }

  /** One buffer of a cycle's mirror loop; `had` is membership in the cycle's own copy. */
  function Mirror(t: Tabs, path: string, b: Buffer, f: File, had: bool): Tabs {
    if path == "" || b.headless || !HasUnsavedWork(b) || had then t
    else
      var u := t.Spend(path, path in t.closed && t.closed[path].StillClosed(b));
      if path in u.closed then u
      else u.Fetch(path, b, f).(owned := u.owned + {path})
  }

  /** One proposed change set of a cycle; a path the daemon did not list reads as zero. */
  function Adopt(t: Tabs, path: string, listed: Option<Buffer>, f: Option<File>, had: bool): Tabs {
    if path == "" || had then t
    else
      var b := if listed.Some? then listed.value else ZERO_BUFFER;
      var u := t.Spend(path, path in t.closed && t.closed[path].StillClosed(b));
      if path in u.closed || f.None? then u
      else u.Fetch(path, b, f.value).(owned := u.owned + {path})
  }

  /** The event thread installs the oldest queued file. */
  function Install(t: Tabs, busy: bool): Tabs {
    if t.files == [] then t
    else
      var q := t.files[0];
      var u := t.(files := t.files[1..])
                .Spend(q.path, q.path in t.closed && t.closed[q.path].StillClosedMark(MarkFromFile(q.file)));
      if q.path in u.closed || busy then u
      else u.(open := u.open[q.path := q.file])
  }

  function Close(t: Tabs, path: string): Tabs
    requires path in t.open
  {
    if path == "" then t.(open := t.open - {path})
    else t.(owned := t.owned - {path}, closed := t.closed[path := MarkFromFile(t.open[path])], open := t.open - {path})
  }

  // ---------- The maps, updated in place ----------

  class Client {
    var owned: set<string>
    var closed: map<string, Mark>
    var vers: map<string, Mark>
    var files: seq<Queued>
    var open: map<string, File>

    constructor ()
      ensures State() == Tabs({}, map[], map[], [], map[])
    {
      owned, closed, vers, files, open := {}, map[], map[], [], map[];
    }

    ghost function State(): Tabs
      reads this
    {
      Tabs(owned, closed, vers, files, open)
    }

    method TabSnoozed(path: string, b: Buffer) returns (snoozed: bool)
      modifies this`closed
      ensures State() == old(State()).Spend(path, path in old(closed) && old(closed)[path].StillClosed(b))
      ensures snoozed <==> path in closed
    {
      if path !in closed {
        return false;
      }
      if !closed[path].StillClosed(b) {
        closed := closed - {path};
        return false;
      }
      snoozed := true;
    }

    method TabSnoozedFile(path: string, f: File) returns (snoozed: bool)
      modifies this`closed
      ensures State() == old(State()).Spend(path, path in old(closed) && old(closed)[path].StillClosedMark(MarkFromFile(f)))
      ensures snoozed <==> path in closed
    {
      if path !in closed {
        return false;
      }
      if !closed[path].StillClosedMark(MarkFromFile(f)) {
        closed := closed - {path};
        return false;
      }
      snoozed := true;
    }

    method Queue(path: string, b: Buffer, f: File)
      modifies this`vers, this`files
      ensures State() == old(State()).Fetch(path, b, f)
    {
      vers := vers[path := MarkOf(f.version, b)];
      files := files + [Queued(path, f)];
    }

    method SyncOwnedPath(path: string, listed: Option<Buffer>, f: File)
      modifies this
      ensures State() == SyncOwned(old(State()), path, listed, f)
    {
      if listed.None? {
        return;
      }
      var snoozed := TabSnoozed(path, listed.value);
      if snoozed {
        return;
      }
      if path in vers && vers[path].Matches(listed.value) {
        return;
      }
      Queue(path, listed.value, f);
    }

    method MirrorBuffer(path: string, b: Buffer, f: File, had: bool)
      modifies this
      ensures State() == Mirror(old(State()), path, b, f, had)
    {
      if path == "" || b.headless || !HasUnsavedWork(b) || had {
        return;
      }
      var snoozed := TabSnoozed(path, b);
      if snoozed {
        return;
      }
      Queue(path, b, f);
      owned := owned + {path};
    }

    method AdoptProposal(path: string, listed: Option<Buffer>, f: Option<File>, had: bool)
      modifies this
      ensures State() == Adopt(old(State()), path, listed, f, had)
    {
      if path == "" || had {
        return;
      }
      var b := if listed.Some? then listed.value else ZERO_BUFFER;
      var snoozed := TabSnoozed(path, b);
      if snoozed || f.None? {
        return;
      }
      owned := owned + {path};
      Queue(path, b, f.value);
    }

    method InstallNext(busy: bool)
      modifies this
      ensures State() == Install(old(State()), busy)
    {
      if |files| == 0 {
        return;
      }
      var q := files[0];
      files := files[1..];
      var snoozed := TabSnoozedFile(q.path, q.file);
      if snoozed || busy {
        return;
      }
      open := open[q.path := q.file];
    }

    method CloseTab(path: string)
      requires path in open
      modifies this
      ensures State() == Close(old(State()), path)
    {
      if path != "" {
        owned := owned - {path};
        closed := closed[path := MarkFromFile(open[path])];
      }
      open := open - {path};
    }
  }

  /** An owned path never fetched is fetched, and one that was is fetched again exactly when
      its listing differs from what was last fetched in the version, the pending, moved or superseded count, or in being dirty or
      deleted; otherwise nothing happens. */
  lemma OwnedFetchesExactly(t: Tabs, path: string, b: Buffer, f: File)
    requires path !in t.closed
    ensures path !in t.vers ==> SyncOwned(t, path, Some(b), f).files == t.files + [Queued(path, f)]
    ensures path in t.vers ==>
            var was, u := t.vers[path], SyncOwned(t, path, Some(b), f);
            if was.version != b.version || was.pending != b.pending || was.moved != b.moved
               || was.superseded != b.superseded || was.dirty != b.dirty || was.deleted != b.deleted
            then u.files == t.files + [Queued(path, f)] && u.closed == t.closed && u.owned == t.owned && u.open == t.open
                 && u.vers == t.vers[path := Mark(f.version, b.pending, b.moved, b.superseded, b.dirty, b.deleted)]
            else u == t
  {
  }

  /** When a cycle's mirror loop shows a buffer: it has a path, is not headless, has
      unsaved work, is not in the cycle's copy of the owned set, and no close of the path
      still agrees with it. It is then queued, owned and noted as fetched, and a close
      mark that no longer agrees is spent whenever the loop gets that far. */
  lemma MirrorsExactly(t: Tabs, path: string, b: Buffer, f: File, had: bool)
    ensures var wanted := path != "" && !b.headless && (b.dirty || b.pending > 0) && !had;
            var away := path in t.closed && t.closed[path].StillClosed(b);
            var u := Mirror(t, path, b, f, had);
            && u.open == t.open
            && u.files == (if wanted && !away then t.files + [Queued(path, f)] else t.files)
            && u.owned == (if wanted && !away then t.owned + {path} else t.owned)
            && u.closed == (if wanted && !away then t.closed - {path} else t.closed)
            && u.vers == if wanted && !away then t.vers[path := MarkOf(f.version, b)] else t.vers
  {
  }

  /** When a proposal is adopted, for a path the daemon lists or not. */
  lemma AdoptsExactly(t: Tabs, path: string, listed: Option<Buffer>, f: Option<File>, had: bool)
    ensures var b := if listed.Some? then listed.value else Buffer(0, 0, 0, 0, false, false, false);
            var wanted := path != "" && !had;
            var away := path in t.closed && t.closed[path].StillClosed(b);
            var u := Adopt(t, path, listed, f, had);
            && u.open == t.open
            && u.files == (if wanted && !away && f.Some? then t.files + [Queued(path, f.value)] else t.files)
            && u.owned == (if wanted && !away && f.Some? then t.owned + {path} else t.owned)
            && u.closed == (if wanted && !away then t.closed - {path} else t.closed)
            && u.vers == if wanted && !away && f.Some? then t.vers[path := MarkOf(f.value.version, b)] else t.vers
  {
  }

  /** When the oldest queued snapshot opens or refreshes its tab: unless the path is away
      and the snapshot agrees with its mark, or the pane is busy. Either way it leaves
      the queue. */
  lemma InstallsExactly(t: Tabs, busy: bool)
    requires t.files != []
    ensures var q, u := t.files[0], Install(t, busy);
            var away := q.path in t.closed && t.closed[q.path].StillClosedMark(MarkFromFile(q.file));
            && u.files == t.files[1..] && u.owned == t.owned && u.vers == t.vers
            && u.closed == (if away then t.closed else t.closed - {q.path})
            && u.open == if away || busy then t.open else t.open[q.path := q.file]
  {
  }

  /** A close takes the tab away in every case; one with a path is also no longer owned
      and leaves a mark. */
  lemma ClosesExactly(t: Tabs, path: string)
    requires path in t.open
    ensures var u := Close(t, path);
            && u.open == t.open - {path} && u.files == t.files && u.vers == t.vers
            && (path == "" ==> u.owned == t.owned && u.closed == t.closed)
            && (path != "" ==> u.owned == t.owned - {path} && u.closed == t.closed[path := MarkFromFile(t.open[path])])
  {
  }

  // ---------- Runs after a close ----------

  /** What the watch goroutine and the event thread do, one map access at a time, with
      the daemon's answer as it stood: no reveal and no explicit open. */
  datatype Event =
    | SyncPath(path: string, listed: Option<Buffer>, file: File)
    | MirrorPath(path: string, buffer: Buffer, file: File, had: bool)
    | AdoptPath(path: string, listed: Option<Buffer>, found: Option<File>, had: bool)
    | InstallFile(busy: bool)
    | CloseOther(path: string)

  predicate Enabled(t: Tabs, e: Event) {
    e.CloseOther? ==> e.path in t.open
  }

  function Next(t: Tabs, e: Event): Tabs
    requires Enabled(t, e)
  {
    match e
    case SyncPath(path, listed, f) => SyncOwned(t, path, listed, f)
    case MirrorPath(path, b, f, had) => Mirror(t, path, b, f, had)
    case AdoptPath(path, listed, f, had) => Adopt(t, path, listed, f, had)
    case InstallFile(busy) => Install(t, busy)
    case CloseOther(path) => Close(t, path)
  }

  /** The daemon still agrees with the mark at every answer about `path`. A proposal for
      a path it does not list reads as the zero buffer, which must agree too. */
  predicate Still(p: string, m: Mark, e: Event) {
    match e
    case SyncPath(path, listed, f) => path == p && listed.Some? ==> m.StillClosed(listed.value)
    case MirrorPath(path, b, f, had) => path == p ==> m.StillClosed(b)
    case AdoptPath(path, listed, f, had) =>
      path == p ==> m.StillClosed(if listed.Some? then listed.value else ZERO_BUFFER)
    case InstallFile(_) => true
    case CloseOther(path) => path != p
  }

  /** The listing shows the version and the review counts the fetched file had. The daemon
      counts moved members only while sets are pending, and a client pane has no
      superseded ones. */
  predicate Unmoved(was: File, b: Buffer) {
    && b.version == was.version && b.pending == was.pending && b.superseded == 0
    && b.moved == if was.pending > 0 then was.moved else 0
  }

  /** The snapshots show the same version and review counts. */
  predicate SameFacts(was: File, f: File) {
    f.version == was.version && f.pending == was.pending && (was.pending > 0 ==> f.moved == was.moved)
  }

  /** The mark a close records agrees with exactly the listings that have not moved since
      the file was fetched, and with exactly the snapshots that have not. */
  lemma MarkMeans(was: File, b: Buffer, f: File)
    ensures MarkFromFile(was).StillClosed(b) <==> Unmoved(was, b)
    ensures MarkFromFile(was).StillClosedMark(MarkFromFile(f)) <==> SameFacts(was, f)
    ensures !MarkFromFile(was).dirty && !MarkFromFile(was).deleted
  {
  }

  /** The daemon's answers about `p` show what the client last fetched. */
  predicate Standing(p: string, was: File, e: Event) {
    match e
    case SyncPath(path, listed, f) => path == p && listed.Some? ==> Unmoved(was, listed.value)
    case MirrorPath(path, b, f, had) => path == p ==> Unmoved(was, b)
    case AdoptPath(path, listed, f, had) =>
      path == p ==> Unmoved(was, if listed.Some? then listed.value else ZERO_BUFFER)
    case InstallFile(_) => true
    case CloseOther(path) => path != p
  }

  predicate QueueStands(t: Tabs, p: string, was: File) {
    forall i :: 0 <= i < |t.files| && t.files[i].path == p ==> SameFacts(was, t.files[i].file)
  }

  lemma StandingIsStill(p: string, was: File, e: Event)
    ensures Standing(p, was, e) <==> Still(p, MarkFromFile(was), e)
  {
    hide Unmoved, Mark.StillClosed, MarkFromFile;
    match e
    case SyncPath(path, Some(b), f) => MarkMeans(was, b, f);
    case MirrorPath(path, b, f, had) => MarkMeans(was, b, f);
    case AdoptPath(path, listed, f, had) => MarkMeans(was, if listed.Some? then listed.value else ZERO_BUFFER, was);
    case _ =>
  }

  lemma QueueStandsIsAgreed(t: Tabs, p: string, was: File)
    ensures QueueStands(t, p, was) <==> QueueAgrees(t, p, MarkFromFile(was))
  {
    hide SameFacts, Mark.StillClosedMark, MarkFromFile;
    forall i | 0 <= i < |t.files|
      ensures SameFacts(was, t.files[i].file) <==> MarkFromFile(was).StillClosedMark(MarkFromFile(t.files[i].file))
    {
      MarkMeans(was, ZERO_BUFFER, t.files[i].file);
    }
  }

  /** Every snapshot of `p` still in the handoff queue agrees with the mark. */
  predicate QueueAgrees(t: Tabs, p: string, m: Mark) {
    forall i :: 0 <= i < |t.files| && t.files[i].path == p ==> m.StillClosedMark(MarkFromFile(t.files[i].file))
  }

  predicate Away(t: Tabs, p: string, m: Mark) {
    p !in t.open && p !in t.owned && p in t.closed && t.closed[p] == m
  }

  ghost predicate Run(ts: seq<Tabs>, es: seq<Event>) {
    && |ts| == |es| + 1
    && forall i :: 0 <= i < |es| ==> Enabled(ts[i], es[i]) && ts[i + 1] == Next(ts[i], es[i])
  }

  lemma StaysAwayStep(t: Tabs, e: Event, p: string, m: Mark)
    requires Enabled(t, e) && Still(p, m, e) && Away(t, p, m) && QueueAgrees(t, p, m)
    ensures Away(Next(t, e), p, m) && QueueAgrees(Next(t, e), p, m)
  {
    hide SyncOwned, Mirror, Adopt, Install;
    match e
    case SyncPath(path, listed, f) => StaysAwayOwned(t, path, listed, f, p, m);
    case MirrorPath(path, b, f, had) => StaysAwayMirror(t, path, b, f, had, p, m);
    case AdoptPath(path, listed, f, had) => StaysAwayAdopt(t, path, listed, f, had, p, m);
    case InstallFile(busy) => StaysAwayInstall(t, busy, p, m);
    case CloseOther(path) =>
  }

  lemma StaysAwayOwned(t: Tabs, path: string, listed: Option<Buffer>, f: File, p: string, m: Mark)
    requires Away(t, p, m) && QueueAgrees(t, p, m) && (path == p && listed.Some? ==> m.StillClosed(listed.value))
    ensures Away(SyncOwned(t, path, listed, f), p, m) && QueueAgrees(SyncOwned(t, path, listed, f), p, m)
  {
  }

  lemma StaysAwayMirror(t: Tabs, path: string, b: Buffer, f: File, had: bool, p: string, m: Mark)
    requires Away(t, p, m) && QueueAgrees(t, p, m) && (path == p ==> m.StillClosed(b))
    ensures Away(Mirror(t, path, b, f, had), p, m) && QueueAgrees(Mirror(t, path, b, f, had), p, m)
  {
  }

  lemma StaysAwayAdopt(t: Tabs, path: string, listed: Option<Buffer>, f: Option<File>, had: bool, p: string, m: Mark)
    requires Away(t, p, m) && QueueAgrees(t, p, m)
    requires path == p ==> m.StillClosed(if listed.Some? then listed.value else ZERO_BUFFER)
    ensures Away(Adopt(t, path, listed, f, had), p, m) && QueueAgrees(Adopt(t, path, listed, f, had), p, m)
  {
  }

  lemma StaysAwayInstall(t: Tabs, busy: bool, p: string, m: Mark)
    requires Away(t, p, m) && QueueAgrees(t, p, m)
    ensures Away(Install(t, busy), p, m) && QueueAgrees(Install(t, busy), p, m)
  {
  }

  lemma {:induction false} AwayStays(ts: seq<Tabs>, es: seq<Event>, i: nat, j: nat, p: string, m: Mark)
    requires Run(ts, es) && i <= j < |ts|
    requires Away(ts[i], p, m) && QueueAgrees(ts[i], p, m)
    requires forall k :: i <= k < j ==> Still(p, m, es[k])
    ensures Away(ts[j], p, m) && QueueAgrees(ts[j], p, m)
  {
    hide Next, Still, Away, QueueAgrees;
    if i < j {
      AwayStays(ts, es, i, j - 1, p, m);
      StaysAwayStep(ts[j - 1], es[j - 1], p, m);
    }
  }

  lemma CloseIsAway(t: Tabs, p: string)
    requires p in t.open && p != ""
    ensures Away(Close(t, p), p, MarkFromFile(t.open[p])) && Close(t, p).files == t.files
  {
  }

  /** The same answer from a daemon whose buffer of the listing has been saved. */
  function AsSaved(e: Event): Event {
    match e
    case SyncPath(path, Some(b), f) => SyncPath(path, Some(b.(dirty := false)), f)
    case MirrorPath(path, b, f, had) => MirrorPath(path, b.(dirty := false), f, had)
    case AdoptPath(path, Some(b), f, had) => AdoptPath(path, Some(b.(dirty := false)), f, had)
    case _ => e
  }

  /** A save clears dirty and nothing else, so it moves none of the facts. */
  lemma SaveMovesNothing(p: string, was: File, e: Event)
    ensures Standing(p, was, AsSaved(e)) <==> Standing(p, was, e)
  {
  }

  /** The user closes a tab. While the daemon goes on listing the version and the review
      counts the tab was fetched with, dirty aside, and the queue holds no older snapshot
      of other ones, then whatever the watch and the event thread do, in any interleaving,
      the tab stays closed and its mark unspent. */
  lemma ClosedStaysClosed(ts: seq<Tabs>, es: seq<Event>, i: nat, j: nat, p: string)
    requires Run(ts, es) && i < j < |ts| && es[i] == CloseOther(p) && p != ""
    requires QueueStands(ts[i], p, ts[i].open[p])
    requires forall k :: i < k < j ==> Standing(p, ts[i].open[p], AsSaved(es[k]))
    ensures p !in ts[j].open && p !in ts[j].owned
    ensures p in ts[j].closed && p in ts[i + 1].closed && ts[j].closed[p] == ts[i + 1].closed[p]
  {
    hide Still, Standing;
    var was := ts[i].open[p];
    CloseIsAway(ts[i], p);
    assert ts[i + 1] == Close(ts[i], p);
    QueueStandsIsAgreed(ts[i], p, was);
    forall k | i + 1 <= k < j ensures Still(p, MarkFromFile(was), es[k]) {
      SaveMovesNothing(p, was, es[k]);
      StandingIsStill(p, was, es[k]);
    }
    AwayStays(ts, es, i + 1, j, p, MarkFromFile(was));
  }

  function InstallAll(t: Tabs): Tabs
    decreases |t.files|
  {
    if t.files == [] then t else InstallAll(Install(t, false))
  }

  lemma {:induction false} InstallAllKeepsTab(t: Tabs, p: string)
    requires p in t.open
    ensures p in InstallAll(t).open
    decreases |t.files|
  {
    if t.files != [] {
      InstallAllKeepsTab(Install(t, false), p);
    }
  }

  /** The queue matters: draining what was fetched before the close leaves the tab closed
      exactly when every snapshot of it in the queue agrees with the mark. One that does
      not spends the mark and brings the tab back, even if the daemon agrees again now. */
  lemma {:induction false} DrainStaysClosedExactly(t: Tabs, p: string, m: Mark)
    requires Away(t, p, m)
    ensures p !in InstallAll(t).open <==> QueueAgrees(t, p, m)
    decreases |t.files|
  {
    if t.files != [] {
      var q, u := t.files[0], Install(t, false);
      if q.path == p && !m.StillClosedMark(MarkFromFile(q.file)) {
        InstallAllKeepsTab(u, p);
      } else {
        DrainStaysClosedExactly(u, p, m);
        assert QueueAgrees(t, p, m) <==> QueueAgrees(u, p, m) by {
          if QueueAgrees(u, p, m) {
            assert forall i :: 0 < i < |t.files| ==> t.files[i] == u.files[i - 1];
          }
          if QueueAgrees(t, p, m) {
            assert forall i :: 0 <= i < |u.files| ==> u.files[i] == t.files[i + 1];
          }
        }
      }
    }
  }

  /** In the daemon's facts: after a close, draining the queue leaves the tab closed exactly
      when every queued snapshot of it has the version and review counts of the tab closed. */
  lemma DrainAfterClose(t: Tabs, p: string)
    requires p in t.open && p != ""
    ensures p !in InstallAll(Close(t, p)).open <==> QueueStands(t, p, t.open[p])
  {
    hide InstallAll, QueueStands, Close;
    CloseIsAway(t, p);
    DrainStaysClosedExactly(Close(t, p), p, MarkFromFile(t.open[p]));
    QueueStandsIsAgreed(Close(t, p), p, t.open[p]);
    SameQueue(Close(t, p), t, p, t.open[p]);
  }

  lemma SameQueue(t: Tabs, u: Tabs, p: string, was: File)
    requires t.files == u.files
    ensures QueueStands(t, p, was) <==> QueueStands(u, p, was)
  {
  }

  /** The listing describes the file the client holds, superseded sets apart, which a
      client's file does not count. */
  predicate Describes(b: Buffer, was: File) {
    b.version == was.version && b.pending == was.pending && b.moved == if was.pending > 0 then was.moved else 0
  }

  /** So a close holds against a listing that has not moved at all if and only if the
      listing shows no superseded set. */
  lemma HoldsUnlessSuperseded(was: File, b: Buffer)
    requires Describes(b, was)
    ensures MarkFromFile(was).StillClosed(b) <==> b.superseded == 0
  {
  }

  const EMPTY := Tabs({}, map[], map[], [], map[])

  /** With one, the next cycle brings the tab back although nothing moved: the daemon lists
      the same buffer when the tab is opened, after it is closed, and when it reopens. */
  lemma SupersededReopens()
    ensures var b, f := Buffer(1, 0, 0, 1, true, false, false), File(1, 0, 0);
            var shown := Next(Next(EMPTY, MirrorPath("a", b, f, false)), InstallFile(false));
            && "a" in shown.open && Describes(b, shown.open["a"])
            && var closed := Next(shown, CloseOther("a"));
               && "a" !in closed.open && closed.files == []
               && "a" in Next(Next(closed, MirrorPath("a", b, f, false)), InstallFile(false)).open
  {
    var b, f := Buffer(1, 0, 0, 1, true, false, false), File(1, 0, 0);
    var q := Queued("a", f);
    var t1 := Next(EMPTY, MirrorPath("a", b, f, false));
    assert t1.files == [q];
    var t2 := Next(t1, InstallFile(false));
    assert t2.files == [] && t2.open["a"] == f;
    var t3 := Next(t2, CloseOther("a"));
    var t4 := Next(t3, MirrorPath("a", b, f, false));
    assert t4.files == [q] && "a" !in t4.closed;
  }

  /** Such a close is reachable: a tab is opened, a proposal on it is fetched and queued,
      the proposal is withdrawn, and the user closes the tab. Its mark agrees with what the
      daemon lists now and not with the queued snapshot, and the install brings it back. */
  lemma StaleSnapshotReopens()
    ensures var b, proposed := Buffer(1, 0, 0, 0, true, false, false), Buffer(1, 1, 0, 0, true, false, false);
            var shown := Next(Next(EMPTY, MirrorPath("a", b, File(1, 0, 0), false)), InstallFile(false));
            var queued := Next(shown, SyncPath("a", Some(proposed), File(1, 1, 0)));
            && "a" in queued.open
            && var closed := Next(queued, CloseOther("a"));
               && "a" in closed.closed && Away(closed, "a", closed.closed["a"])
               && closed.closed["a"].StillClosed(b) && !QueueAgrees(closed, "a", closed.closed["a"])
               && "a" in Next(closed, InstallFile(false)).open
  {
    var b, proposed := Buffer(1, 0, 0, 0, true, false, false), Buffer(1, 1, 0, 0, true, false, false);
    var f, g := Queued("a", File(1, 0, 0)), Queued("a", File(1, 1, 0));
    var t1 := Next(EMPTY, MirrorPath("a", b, f.file, false));
    assert t1.files == [f] && t1.owned == {"a"};
    var t2 := Next(t1, InstallFile(false));
    assert t2.files == [] && t2.open["a"] == f.file;
    var t3 := Next(t2, SyncPath("a", Some(proposed), g.file));
    assert t3.files == [g];
    var t4 := Next(t3, CloseOther("a"));
    assert t4.files[0] == g && t4.closed["a"] == MarkFromFile(f.file);
  }

  // ---------- The next change ----------

  lemma {:induction false} InstallAllOpens(t: Tabs, p: string, k: nat)
    requires p !in t.closed && k < |t.files| && t.files[k].path == p
    ensures p in InstallAll(t).open
    decreases |t.files|
  {
    var u := Install(t, false);
    if t.files[0].path == p {
      InstallAllKeepsTab(u, p);
    } else {
      InstallAllOpens(u, p, k - 1);
    }
  }

  /** The first cycle whose listing moved past the file that was closed re-adds the tab: a
      buffer with unsaved work is mirrored and a proposed one adopted, the mark is spent,
      the path is owned again, and the install that follows opens it. */
  lemma MovedComesBack(t: Tabs, p: string, was: File, b: Buffer, f: File)
    requires p != "" && Away(t, p, MarkFromFile(was)) && !Unmoved(was, b)
    ensures !b.headless && (b.dirty || b.pending > 0) ==>
              var u := Mirror(t, p, b, f, false);
              p in u.owned && p !in u.closed && p in InstallAll(u).open
    ensures var v := Adopt(t, p, Some(b), Some(f), false);
            p in v.owned && p !in v.closed && p in InstallAll(v).open
  {
    MarkMeans(was, b, f);
    var v := Adopt(t, p, Some(b), Some(f), false);
    InstallAllOpens(v, p, |v.files| - 1);
    if !b.headless && HasUnsavedWork(b) {
      var u := Mirror(t, p, b, f, false);
      InstallAllOpens(u, p, |u.files| - 1);
    }
  }
}
