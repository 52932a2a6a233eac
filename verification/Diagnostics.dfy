/** The diagnostics store: how fresh a publish is, and the wait for the next one. */
module Diagnostics {
  import opened Options

  type Path = string
  type Chan = nat

  datatype Diagnostic = Diagnostic(line: nat, character: nat, severity: int, message: string)

  const NO_PACKAGE := "No packages found for open file "

  predicate Notices(d: Diagnostic) {
    |d.message| >= |NO_PACKAGE| && d.message[..|NO_PACKAGE|] == NO_PACKAGE
  }

  predicate HasNoPackage(items: seq<Diagnostic>) {
    exists i :: 0 <= i < |items| && Notices(items[i])
  }

  // ---------- The stored order ----------

  predicate After(a: Diagnostic, b: Diagnostic) {
    if a.line != b.line then a.line > b.line else a.character > b.character
  }

  function Insert(s: seq<Diagnostic>, d: Diagnostic): seq<Diagnostic> {
    if s == [] || !After(s[|s| - 1], d) then s + [d]
    else Insert(s[..|s| - 1], d) + [s[|s| - 1]]
  }

  /** The list by position, equal positions as the server sent them. */
  function ByPosition(items: seq<Diagnostic>): seq<Diagnostic> {
    if items == [] then [] else Insert(ByPosition(items[..|items| - 1]), items[|items| - 1])
  }

  lemma {:induction false} InsertKeeps(s: seq<Diagnostic>, d: Diagnostic)
    ensures multiset(Insert(s, d)) == multiset(s) + multiset{d}
  {
    if s != [] && After(s[|s| - 1], d) {
      InsertKeeps(s[..|s| - 1], d);
      assert s == s[..|s| - 1] + [s[|s| - 1]];
    }
  }

  lemma {:induction false} ByPositionKeeps(items: seq<Diagnostic>)
    ensures multiset(ByPosition(items)) == multiset(items)
  {
    hide Insert;
    if items != [] {
      ByPositionKeeps(items[..|items| - 1]);
      InsertKeeps(ByPosition(items[..|items| - 1]), items[|items| - 1]);
      assert items == items[..|items| - 1] + [items[|items| - 1]];
    }
  }

  predicate Ascending(s: seq<Diagnostic>) {
    forall i, j :: 0 <= i < j < |s| ==>
      s[i].line < s[j].line || (s[i].line == s[j].line && s[i].character <= s[j].character)
  }

  /** The entries at one position, in list order. */
  function At(s: seq<Diagnostic>, line: nat, character: nat): seq<Diagnostic> {
    if s == [] then []
    else
      var last := s[|s| - 1];
      At(s[..|s| - 1], line, character) + if last.line == line && last.character == character then [last] else []
  }

  lemma AtAdd(s: seq<Diagnostic>, d: Diagnostic, line: nat, character: nat)
    ensures At(s + [d], line, character) == At(s, line, character) + if d.line == line && d.character == character then [d] else []
  {
    assert (s + [d])[..|s|] == s;
  }

  lemma {:induction false} InsertSorts(s: seq<Diagnostic>, d: Diagnostic, line: nat, character: nat)
    requires Ascending(s)
    ensures Ascending(Insert(s, d)) && forall x :: x in Insert(s, d) <==> x in s || x == d
    ensures At(Insert(s, d), line, character) == At(s + [d], line, character)
  {
    hide At;
    AtAdd(s, d, line, character);
    if s != [] && After(s[|s| - 1], d) {
      var init, last := s[..|s| - 1], s[|s| - 1];
      assert s == init + [last];
      InsertSorts(init, d, line, character);
      AtAdd(init, last, line, character);
      AtAdd(init, d, line, character);
      AtAdd(Insert(init, d), last, line, character);
      assert forall x :: x in init ==> !After(x, last);
      AscendingAdd(Insert(init, d), last);
    } else {
      if s != [] {
        assert s == s[..|s| - 1] + [s[|s| - 1]];
      }
      AscendingAdd(s, d);
    }
  }

  lemma AscendingAdd(s: seq<Diagnostic>, d: Diagnostic)
    requires Ascending(s) && forall x :: x in s ==> !After(x, d)
    ensures Ascending(s + [d])
  {
    forall i | 0 <= i < |s| ensures !After(s[i], d) {
      assert s[i] in s;
    }
  }

  /** The stored list ascends by line and character, and the entries at any one position
      are the server's, in the server's order: together this determines it. */
  lemma {:induction false} ByPositionMeans(items: seq<Diagnostic>, line: nat, character: nat)
    ensures Ascending(ByPosition(items))
    ensures At(ByPosition(items), line, character) == At(items, line, character)
  {
    hide Insert, Ascending;
    if items == [] {
      NothingAscends();
    } else {
      var init, last := items[..|items| - 1], items[|items| - 1];
      assert items == init + [last];
      ByPositionMeans(init, line, character);
      InsertSorts(ByPosition(init), last, line, character);
      AtAdd(init, last, line, character);
      AtAdd(ByPosition(init), last, line, character);
    }
  }

  lemma NothingAscends()
    ensures Ascending([])
  {
  }

  lemma NoPackageKept(items: seq<Diagnostic>)
    ensures HasNoPackage(ByPosition(items)) <==> HasNoPackage(items)
  {
    ByPositionKeeps(items);
    SameItems(items, ByPosition(items));
    SameItems(ByPosition(items), items);
  }

  lemma SameItems(a: seq<Diagnostic>, b: seq<Diagnostic>)
    requires multiset(a) == multiset(b)
    ensures HasNoPackage(a) ==> HasNoPackage(b)
  {
    hide Notices;
    if i :| 0 <= i < |a| && Notices(a[i]) {
      assert a[i] in multiset(b);
      var j :| 0 <= j < |b| && b[j] == a[i];
    }
  }

  // ---------- The store ----------

  /** The fields the mutex guards, and how often each waiter channel has been closed. */
  datatype Store = Store(byPath: map<Path, seq<Diagnostic>>, published: set<Path>, versions: map<Path, int>,
                         seqNo: nat, publishSeq: map<Path, nat>, syncSeq: map<Path, nat>,
                         waiters: map<Path, seq<Chan>>, closed: multiset<Chan>)

  const EMPTY := Store(map[], {}, map[], 0, map[], map[], map[], multiset{})

  function Items(d: Store, path: Path): seq<Diagnostic> {
    if path in d.byPath then d.byPath[path] else []
  }

  function Number(m: map<Path, nat>, path: Path): nat {
    if path in m then m[path] else 0
  }

  function Waiters(d: Store, path: Path): seq<Chan> {
    if path in d.waiters then d.waiters[path] else []
  }

  function Numbered(d: Store, path: Path): Store {
    d.(seqNo := d.seqNo + 1, publishSeq := d.publishSeq[path := d.seqNo + 1], published := d.published + {path})
  }

  function Dated(d: Store, path: Path, version: Option<int>): Store {
    d.(versions := match version case None => d.versions - {path} case Some(v) => d.versions[path := v])
  }

  function Released(d: Store, path: Path): Store {
    d.(closed := d.closed + multiset(Waiters(d, path)), waiters := d.waiters - {path})
  }

  function Filed(d: Store, path: Path, items: seq<Diagnostic>): Store {
    d.(byPath := if items == [] then d.byPath - {path} else d.byPath[path := ByPosition(items)])
  }

  function Published(d: Store, path: Path, items: seq<Diagnostic>, version: Option<int>): Store {
    Filed(Released(Dated(Numbered(d, path), path, version), path), path, items)
  }

  function Synced(d: Store, path: Path): Store {
    d.(syncSeq := d.syncSeq[path := d.seqNo])
  }

  function Cleared(d: Store, path: Path): Store {
    d.(byPath := d.byPath - {path}, published := d.published - {path}, versions := d.versions - {path},
       publishSeq := d.publishSeq - {path}, syncSeq := d.syncSeq - {path})
  }

  function Registered(d: Store, path: Path, ch: Chan): Store {
    d.(waiters := d.waiters[path := Waiters(d, path) + [ch]])
  }

  function Remove(s: seq<Chan>, ch: Chan): seq<Chan> {
    if s == [] then [] else if s[0] == ch then s[1..] else [s[0]] + Remove(s[1..], ch)
  }

  function Dropped(d: Store, path: Path, ch: Chan): Store {
    var rest := Remove(Waiters(d, path), ch);
    d.(waiters := if rest == [] then d.waiters - {path} else d.waiters[path := rest])
  }

  datatype Status = Ok | Unpublished | Stale | Unassociated

  function DiagnosticsStatus(published: bool, pubVersion: Option<int>, synced: int, buf: int, items: seq<Diagnostic>): Status {
    if !published then Unpublished
    else if synced != buf then Stale
    else if pubVersion.Some? && pubVersion.value != buf then Stale
    else if HasNoPackage(items) then Unassociated
    else Ok
  }

  function Version(d: Store, path: Path): Option<int> {
    if path in d.versions then Some(d.versions[path]) else None
  }

  function Freshness(d: Store, path: Path, synced: int, buf: int): Status {
    var published, version := path in d.published, Version(d, path);
    if published && version == None && (Number(d.publishSeq, path) <= Number(d.syncSeq, path) || buf != 0) then Stale
    else DiagnosticsStatus(published, version, synced, buf, Items(d, path))
  }

  /** The store as the editor keeps it. Each method is one critical section. */
  class Diagnoses {
    var byPath: map<Path, seq<Diagnostic>>
    var published: set<Path>
    var versions: map<Path, int>
    var seqNo: nat
    var publishSeq: map<Path, nat>
    var syncSeq: map<Path, nat>
    var waiters: map<Path, seq<Chan>>
    var closed: multiset<Chan>

    constructor ()
      ensures View() == EMPTY
    {
      byPath, published, versions, seqNo := map[], {}, map[], 0;
      publishSeq, syncSeq, waiters, closed := map[], map[], map[], multiset{};
    }

    function View(): Store
      reads this
    {
      Store(byPath, published, versions, seqNo, publishSeq, syncSeq, waiters, closed)
    }

    method SetVersion(path: Path, items: seq<Diagnostic>, version: Option<int>)
      modifies this
      ensures View() == Published(old(View()), path, items, version)
    {
      hide ByPosition, Released;
      seqNo := seqNo + 1;
      publishSeq := publishSeq[path := seqNo];
      published := published + {path};
      ghost var numbered := View();
      assert numbered == Numbered(old(View()), path);
      if version.None? {
        versions := versions - {path};
      } else {
        versions := versions[path := version.value];
      }
      assert View() == Dated(numbered, path, version);
      WakeWaiters(path);
      if items == [] {
        byPath := byPath - {path};
        return;
      }
      byPath := byPath[path := ByPosition(items)];
    }

    method WakeWaiters(path: Path)
      modifies `waiters, `closed
      ensures View() == Released(old(View()), path)
    {
      var list := if path in waiters then waiters[path] else [];
      for k := 0 to |list|
        invariant closed == old(closed) + multiset(list[..k]) && waiters == old(waiters)
      {
        assert list[..k + 1] == list[..k] + [list[k]];
        closed := closed + multiset{list[k]};
      }
      assert list[..|list|] == list;
      waiters := waiters - {path};
    }

    method NoteSynced(path: Path)
      modifies this
      ensures View() == Synced(old(View()), path)
    {
      syncSeq := syncSeq[path := seqNo];
    }

    method Clear(path: Path)
      modifies this
      ensures View() == Cleared(old(View()), path)
    {
      byPath := byPath - {path};
      published := published - {path};
      versions := versions - {path};
      publishSeq := publishSeq - {path};
      syncSeq := syncSeq - {path};
    }

    method Register(path: Path, ch: Chan)
      modifies this
      ensures View() == Registered(old(View()), path, ch)
    {
      waiters := waiters[path := (if path in waiters then waiters[path] else []) + [ch]];
    }

    method DropWaiter(path: Path, ch: Chan)
      modifies `waiters
      ensures View() == Dropped(old(View()), path, ch)
    {
      var list := if path in waiters then waiters[path] else [];
      var i := 0;
      while i < |list| && list[i] != ch
        invariant 0 <= i <= |list| && ch !in list[..i]
      {
        i := i + 1;
      }
      if i == |list| {
        assert list[..i] == list;
        RemoveAbsent(list, ch);
      } else {
        assert list == list[..i] + [ch] + list[i + 1..];
        RemoveAt(list[..i], ch, list[i + 1..]);
        list := list[..i] + list[i + 1..];
        waiters := waiters[path := list];
      }
      if list == [] {
        waiters := waiters - {path};
      }
    }
  }

  lemma {:induction false} RemoveAt(pre: seq<Chan>, ch: Chan, post: seq<Chan>)
    requires ch !in pre
    ensures Remove(pre + [ch] + post, ch) == pre + post
  {
    if pre == [] {
      assert [] + [ch] + post == [ch] + post && [] + post == post;
      assert ([ch] + post)[1..] == post;
    } else {
      RemoveAt(pre[1..], ch, post);
      assert pre + [ch] + post == [pre[0]] + (pre[1..] + [ch] + post);
      assert (pre + [ch] + post)[1..] == pre[1..] + [ch] + post;
      assert pre + post == [pre[0]] + (pre[1..] + post);
    }
  }

  lemma {:induction false} RemoveAbsent(s: seq<Chan>, ch: Chan)
    requires ch !in s
    ensures Remove(s, ch) == s
  {
    if s != [] {
      RemoveAbsent(s[1..], ch);
      assert s == [s[0]] + s[1..];
    }
  }

  // ---------- The history ----------

  datatype Event =
    | Publish(path: Path, items: seq<Diagnostic>, version: Option<int>)
    | Sync(path: Path)
    | Clear(path: Path)
    | Register(path: Path, ch: Chan)
    | Cancel(path: Path, ch: Chan)

  function Next(d: Store, e: Event): Store {
    match e
    case Publish(p, items, v) => Published(d, p, items, v)
    case Sync(p) => Synced(d, p)
    case Clear(p) => Cleared(d, p)
    case Register(p, ch) => Registered(d, p, ch)
    case Cancel(p, ch) => Dropped(d, p, ch)
  }

  /** The store after a history of critical sections, all paths sharing one counter. */
  function StoreAfter(h: seq<Event>): Store {
    if h == [] then EMPTY else Next(StoreAfter(h[..|h| - 1]), h[|h| - 1])
  }

  // ---------- What the status means ----------

  /** The last publish for a path since its last clear, and where in the history it is. */
  datatype Reading = Reading(items: seq<Diagnostic>, version: Option<int>, at: nat)

  function LastPublish(h: seq<Event>, p: Path): Option<Reading> {
    if h == [] then None
    else
      var e := h[|h| - 1];
      if e.Publish? && e.path == p then Some(Reading(e.items, e.version, |h| - 1))
      else if e.Clear? && e.path == p then None
      else LastPublish(h[..|h| - 1], p)
  }

  function LastSync(h: seq<Event>, p: Path): Option<nat> {
    if h == [] then None
    else
      var e := h[|h| - 1];
      if e.Sync? && e.path == p then Some(|h| - 1)
      else if e.Clear? && e.path == p then None
      else LastSync(h[..|h| - 1], p)
  }

  function Publishes(h: seq<Event>): nat {
    if h == [] then 0 else Publishes(h[..|h| - 1]) + if h[|h| - 1].Publish? then 1 else 0
  }

  /** A publish without a version reads the text only of an unedited buffer, and only if
      the server was not told the text after it. */
  predicate Undated(h: seq<Event>, p: Path, r: Reading, buf: int) {
    r.version == None && (buf != 0 || (LastSync(h, p).Some? && r.at < LastSync(h, p).value))
  }

  /** The status as a definition over the history. */
  function StatusOf(h: seq<Event>, p: Path, synced: int, buf: int): Status {
    match LastPublish(h, p)
    case None => Unpublished
    case Some(r) =>
      if Undated(h, p, r, buf) || synced != buf || (r.version.Some? && r.version.value != buf) then Stale
      else if HasNoPackage(r.items) then Unassociated
      else Ok
  }

  ghost predicate PublishTracked(h: seq<Event>, d: Store, p: Path) {
    && (p in d.published <==> LastPublish(h, p).Some?)
    && match LastPublish(h, p)
       case None => p !in d.byPath && p !in d.versions && p !in d.publishSeq
       case Some(r) =>
         && r.at < |h|
         && Items(d, p) == ByPosition(r.items)
         && Version(d, p) == r.version
         && Number(d.publishSeq, p) == Publishes(h[..r.at]) + 1 == Publishes(h[..r.at + 1])
  }

  ghost predicate SyncTracked(h: seq<Event>, d: Store, p: Path) {
    match LastSync(h, p)
    case None => p !in d.syncSeq
    case Some(j) => j < |h| && Number(d.syncSeq, p) == Publishes(h[..j]) == Publishes(h[..j + 1])
  }

  lemma OneMore(h: seq<Event>, e: Event, p: Path)
    ensures LastPublish(h + [e], p) == if e.Publish? && e.path == p then Some(Reading(e.items, e.version, |h|))
                                       else if e.Clear? && e.path == p then None else LastPublish(h, p)
    ensures LastSync(h + [e], p) == if e.Sync? && e.path == p then Some(|h|)
                                    else if e.Clear? && e.path == p then None else LastSync(h, p)
    ensures Publishes(h + [e]) == Publishes(h) + if e.Publish? then 1 else 0
    ensures forall i :: 0 <= i <= |h| ==> (h + [e])[..i] == h[..i]
    ensures (h + [e])[..|h| + 1] == h + [e]
  {
    assert (h + [e])[..|h|] == h;
  }

  lemma PublishTrackedOneMore(h: seq<Event>, d: Store, e: Event, p: Path)
    requires d.seqNo == Publishes(h) && PublishTracked(h, d, p)
    ensures PublishTracked(h + [e], Next(d, e), p)
  {
    hide LastPublish, LastSync, Publishes, ByPosition, Waiters, Remove;
    OneMore(h, e, p);
    if e.Publish? && e.path == p {
      NothingToSort();
    }
  }

  lemma NothingToSort()
    ensures ByPosition([]) == []
  {
  }

  lemma SyncTrackedOneMore(h: seq<Event>, d: Store, e: Event, p: Path)
    requires d.seqNo == Publishes(h) && SyncTracked(h, d, p)
    ensures SyncTracked(h + [e], Next(d, e), p) && Next(d, e).seqNo == Publishes(h + [e])
  {
    hide LastPublish, LastSync, Publishes, ByPosition, Waiters, Remove;
    OneMore(h, e, p);
  }

  lemma {:induction false} StoreTracks(h: seq<Event>, p: Path)
    ensures StoreAfter(h).seqNo == Publishes(h)
    ensures PublishTracked(h, StoreAfter(h), p) && SyncTracked(h, StoreAfter(h), p)
  {
    hide PublishTracked, SyncTracked, Next;
    if h == [] {
      NothingTracked(p);
    } else {
      var n := |h| - 1;
      StoreTracks(h[..n], p);
      PublishTrackedOneMore(h[..n], StoreAfter(h[..n]), h[n], p);
      SyncTrackedOneMore(h[..n], StoreAfter(h[..n]), h[n], p);
      assert h == h[..n] + [h[n]];
    }
  }

  lemma NothingTracked(p: Path)
    ensures PublishTracked([], EMPTY, p) && SyncTracked([], EMPTY, p)
  {
  }

  lemma {:induction false} PublishesGrow(h: seq<Event>, i: nat, j: nat)
    requires i <= j <= |h|
    ensures Publishes(h[..i]) <= Publishes(h[..j])
  {
    if i < j {
      PublishesGrow(h, i, j - 1);
      assert h[..j][..j - 1] == h[..j - 1];
    }
  }

  /** The store judges every path by the history: after any interleaving of publishes,
      syncs and clears for all paths over one counter, the four-way status is the one
      the history defines. */
  lemma FreshnessIsExact(h: seq<Event>, p: Path, synced: int, buf: int)
    ensures Freshness(StoreAfter(h), p, synced, buf) == StatusOf(h, p, synced, buf)
  {
    hide Publishes, ByPosition, StoreAfter, HasNoPackage, LastPublish, LastSync;
    StoreTracks(h, p);
    if LastPublish(h, p).Some? {
      var r := LastPublish(h, p).value;
      NoPackageKept(r.items);
      if LastSync(h, p).Some? {
        var j := LastSync(h, p).value;
        if r.at < j {
          PublishesGrow(h, r.at + 1, j);
        } else {
          PublishesGrow(h, j + 1, r.at);
        }
      }
    }
  }

  /** So a status of ok says exactly this: the server has the buffer's version, and the
      last publish since the last clear is dated with it, or is undated, for version
      zero, and no sync since the clear came after it; and it has no no-package notice. */
  lemma OkMeans(h: seq<Event>, p: Path, synced: int, buf: int)
    ensures Freshness(StoreAfter(h), p, synced, buf) == Ok <==>
              && synced == buf && LastPublish(h, p).Some?
              && var r := LastPublish(h, p).value;
                 && (forall d :: d in r.items ==> !(NO_PACKAGE <= d.message))
                 && (r.version == Some(buf) ||
                     (r.version == None && buf == 0 && (LastSync(h, p).Some? ==> LastSync(h, p).value <= r.at)))
  {
    hide Freshness, StoreAfter, LastPublish, LastSync, HasNoPackage;
    FreshnessIsExact(h, p, synced, buf);
    if LastPublish(h, p).Some? {
      NoticeMeans(LastPublish(h, p).value.items);
    }
  }

  /** A list has the notice exactly when a message in it begins with the server's words. */
  lemma NoticeMeans(items: seq<Diagnostic>)
    ensures HasNoPackage(items) <==> exists d :: d in items && NO_PACKAGE <= d.message
  {
    if i :| 0 <= i < |items| && Notices(items[i]) {
      assert items[i] in items;
    }
    if d :| d in items && NO_PACKAGE <= d.message {
      var i :| 0 <= i < |items| && items[i] == d;
      assert Notices(items[i]);
    }
  }

  // ---------- Waiting for the next publish ----------

  /** One waiter's life, read off the history. */
  datatype Wait = Absent | Waiting(path: Path) | Woken | Gone

  function WaitOf(h: seq<Event>, ch: Chan): Wait {
    if h == [] then Absent
    else
      var w, e := WaitOf(h[..|h| - 1], ch), h[|h| - 1];
      match e
      case Register(p, c) => if c == ch then Waiting(p) else w
      case Publish(p, _, _) => if w == Waiting(p) then Woken else w
      case Cancel(p, c) => if c == ch && w == Waiting(p) then Gone else w
      case _ => w
  }

  /** Each registration makes its own channel. */
  ghost predicate FreshChannels(h: seq<Event>) {
    forall i, j :: 0 <= i < j < |h| && h[i].Register? && h[j].Register? ==> h[i].ch != h[j].ch
  }

  predicate Distinct(s: seq<Chan>) {
    forall i, j :: 0 <= i < j < |s| ==> s[i] != s[j]
  }

  ghost predicate WaitsFor(h: seq<Event>, d: Store) {
    && (forall p :: Distinct(Waiters(d, p)))
    && (forall p, ch :: ch in Waiters(d, p) <==> WaitOf(h, ch) == Waiting(p))
    && forall ch :: d.closed[ch] == if WaitOf(h, ch) == Woken then 1 else 0
  }

  lemma {:induction false} DistinctCount(s: seq<Chan>, ch: Chan)
    requires Distinct(s)
    ensures multiset(s)[ch] == if ch in s then 1 else 0
  {
    if s != [] {
      DistinctCount(s[..|s| - 1], ch);
      assert s == s[..|s| - 1] + [s[|s| - 1]];
    }
  }

  lemma {:induction false} RemoveDistinct(s: seq<Chan>, ch: Chan)
    requires Distinct(s)
    ensures Distinct(Remove(s, ch)) && forall c :: c in Remove(s, ch) <==> c in s && c != ch
  {
    if s != [] {
      RemoveDistinct(s[1..], ch);
      assert s == [s[0]] + s[1..];
      assert s[0] !in s[1..];
    }
  }

  lemma {:induction false} Unregistered(h: seq<Event>, ch: Chan)
    requires forall i :: 0 <= i < |h| && h[i].Register? ==> h[i].ch != ch
    ensures WaitOf(h, ch) == Absent
  {
    if h != [] {
      Unregistered(h[..|h| - 1], ch);
    }
  }

  lemma WaitOneMore(h: seq<Event>, e: Event, ch: Chan)
    ensures WaitOf(h + [e], ch) ==
              match e
              case Register(p, c) => if c == ch then Waiting(p) else WaitOf(h, ch)
              case Publish(p, _, _) => if WaitOf(h, ch) == Waiting(p) then Woken else WaitOf(h, ch)
              case Cancel(p, c) => if c == ch && WaitOf(h, ch) == Waiting(p) then Gone else WaitOf(h, ch)
              case _ => WaitOf(h, ch)
  {
    assert (h + [e])[..|h|] == h;
  }

  lemma PublishWakes(h: seq<Event>, d: Store, e: Event)
    requires WaitsFor(h, d) && e.Publish?
    ensures WaitsFor(h + [e], Next(d, e))
  {
    hide WaitOf, ByPosition;
    var d' := Next(d, e);
    forall p ensures Waiters(d', p) == if p == e.path then [] else Waiters(d, p) {
    }
    forall ch
      ensures forall p :: ch in Waiters(d', p) <==> WaitOf(h + [e], ch) == Waiting(p)
      ensures d'.closed[ch] == if WaitOf(h + [e], ch) == Woken then 1 else 0
    {
      WaitOneMore(h, e, ch);
      DistinctCount(Waiters(d, e.path), ch);
    }
  }

  lemma RegisterWaits(h: seq<Event>, d: Store, e: Event)
    requires WaitsFor(h, d) && e.Register? && WaitOf(h, e.ch) == Absent
    ensures WaitsFor(h + [e], Next(d, e))
  {
    hide WaitOf, Next, Waiters, Distinct;
    var d' := Next(d, e);
    forall p ensures Waiters(d', p) == if p == e.path then Waiters(d, p) + [e.ch] else Waiters(d, p) {
      RegisteredWaiters(d, e, p);
    }
    RegisteredWaiters(d, e, e.path);
    forall ch
      ensures forall p :: ch in Waiters(d', p) <==> WaitOf(h + [e], ch) == Waiting(p)
      ensures d'.closed[ch] == if WaitOf(h + [e], ch) == Woken then 1 else 0
    {
      WaitOneMore(h, e, ch);
    }
    DistinctAdd(Waiters(d, e.path), e.ch);
  }

  lemma DistinctAdd(s: seq<Chan>, ch: Chan)
    requires Distinct(s) && ch !in s
    ensures Distinct(s + [ch])
  {
  }

  lemma RegisteredWaiters(d: Store, e: Event, p: Path)
    requires e.Register?
    ensures Waiters(Next(d, e), p) == if p == e.path then Waiters(d, p) + [e.ch] else Waiters(d, p)
    ensures Next(d, e).closed == d.closed
  {
  }

  lemma CancelDrops(h: seq<Event>, d: Store, e: Event)
    requires WaitsFor(h, d) && e.Cancel?
    ensures WaitsFor(h + [e], Next(d, e))
  {
    hide WaitOf, Remove;
    var d' := Next(d, e);
    RemoveDistinct(Waiters(d, e.path), e.ch);
    forall p ensures Waiters(d', p) == if p == e.path then Remove(Waiters(d, p), e.ch) else Waiters(d, p) {
    }
    forall ch
      ensures forall p :: ch in Waiters(d', p) <==> WaitOf(h + [e], ch) == Waiting(p)
      ensures d'.closed[ch] == if WaitOf(h + [e], ch) == Woken then 1 else 0
    {
      WaitOneMore(h, e, ch);
    }
  }

  lemma OtherWaits(h: seq<Event>, d: Store, e: Event)
    requires WaitsFor(h, d) && (e.Sync? || e.Clear?)
    ensures WaitsFor(h + [e], Next(d, e))
  {
    hide WaitOf;
    forall ch ensures WaitOf(h + [e], ch) == WaitOf(h, ch) {
      WaitOneMore(h, e, ch);
    }
    assert forall p :: Waiters(Next(d, e), p) == Waiters(d, p);
  }

  lemma {:induction false} StoreWaits(h: seq<Event>)
    requires FreshChannels(h)
    ensures WaitsFor(h, StoreAfter(h))
  {
    hide WaitsFor, Next, WaitOf;
    if h == [] {
      NobodyWaits();
    } else {
      var n := |h| - 1;
      StoreWaits(h[..n]);
      assert h == h[..n] + [h[n]];
      match h[n] {
        case Publish(_, _, _) => PublishWakes(h[..n], StoreAfter(h[..n]), h[n]);
        case Register(_, ch) =>
          Unregistered(h[..n], ch);
          RegisterWaits(h[..n], StoreAfter(h[..n]), h[n]);
        case Cancel(_, _) => CancelDrops(h[..n], StoreAfter(h[..n]), h[n]);
        case _ => OtherWaits(h[..n], StoreAfter(h[..n]), h[n]);
      }
    }
  }

  lemma NobodyWaits()
    ensures WaitsFor([], EMPTY)
  {
  }

  /** No channel is closed twice, in any interleaving. */
  lemma ClosedOnce(h: seq<Event>, ch: Chan)
    requires FreshChannels(h)
    ensures StoreAfter(h).closed[ch] <= 1
  {
    StoreWaits(h);
  }

  predicate PublishedBetween(h: seq<Event>, p: Path, from: nat, to: nat)
    requires to <= |h|
  {
    exists i :: from <= i < to && h[i].Publish? && h[i].path == p
  }

  predicate CancelledBetween(h: seq<Event>, p: Path, ch: Chan, from: nat, to: nat)
    requires to <= |h|
  {
    exists i :: from <= i < to && h[i] == Cancel(p, ch)
  }

  lemma {:induction false} WaitSince(h: seq<Event>, p: Path, ch: Chan, r: nat)
    requires FreshChannels(h) && r < |h| && h[r] == Register(p, ch)
    requires !CancelledBetween(h, p, ch, r, |h|)
    ensures WaitOf(h, ch) == if PublishedBetween(h, p, r, |h|) then Woken else Waiting(p)
  {
    var n := |h| - 1;
    if r < n {
      WaitSince(h[..n], p, ch, r);
      assert PublishedBetween(h, p, r, |h|) <==> PublishedBetween(h[..n], p, r, n) || (h[n].Publish? && h[n].path == p);
    }
  }

  lemma {:induction false} SettledStays(h: seq<Event>, ch: Chan, r: nat, i: nat)
    requires FreshChannels(h) && r < i <= |h| && h[r].Register? && h[r].ch == ch
    requires WaitOf(h[..i], ch) == Woken || WaitOf(h[..i], ch) == Gone
    ensures WaitOf(h, ch) == WaitOf(h[..i], ch)
  {
    if i < |h| {
      var n := |h| - 1;
      assert h[..n][..i] == h[..i];
      SettledStays(h[..n], ch, r, i);
    } else {
      assert h[..i] == h;
    }
  }

  /** No wake-up is lost: the first publish for a path after a registration that has not
      been cancelled releases that waiter, and it stays released. */
  lemma NoLostWakeup(h: seq<Event>, p: Path, ch: Chan, r: nat, i: nat)
    requires FreshChannels(h) && r < i < |h| && h[r] == Register(p, ch)
    requires h[i].Publish? && h[i].path == p && forall k :: r < k < i ==> h[k] != Cancel(p, ch)
    ensures StoreAfter(h[..i + 1]).closed[ch] == 1 && StoreAfter(h).closed[ch] == 1
  {
    hide StoreAfter, WaitOf;
    var g := h[..i + 1];
    assert PublishedBetween(g, p, r, |g|);
    assert !CancelledBetween(g, p, ch, r, |g|);
    WaitSince(g, p, ch, r);
    SettledStays(h, ch, r, i + 1);
    StoreWaits(g);
    StoreWaits(h);
  }

  /** `waitFor` answers by whether its channel is closed. After the waiter withdrew, at
      whatever later moment it looks, the channel is closed if and only if a publish for
      the path came between its registration and its withdrawal. */
  lemma FalseOnlyIfQuiet(h: seq<Event>, p: Path, ch: Chan, r: nat, c: nat)
    requires FreshChannels(h) && r < c < |h| && h[r] == Register(p, ch) && h[c] == Cancel(p, ch)
    requires forall k :: r < k < c ==> h[k] != Cancel(p, ch)
    ensures StoreAfter(h).closed[ch] == if exists k :: r < k < c && h[k].Publish? && h[k].path == p then 1 else 0
  {
    hide StoreAfter, WaitOf;
    var g := h[..c];
    assert PublishedBetween(g, p, r, c) <==> PublishedBetween(h, p, r, c);
    assert !CancelledBetween(g, p, ch, r, |g|);
    WaitSince(g, p, ch, r);
    WaitOneMore(g, h[c], ch);
    assert h[..c + 1] == g + [h[c]];
    SettledStays(h, ch, r, c + 1);
    StoreWaits(h);
  }
}
