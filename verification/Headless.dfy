/** The registry of buffers without a tab: most recently used first, bounded. */
module Headless {
  /** A file, whichever spelling of its path names it. */
  type File = string

  const HEADLESS_MAX := 8

  /** Keeps the busy buffers and clean ones up to the cap, `clean` of them kept so far. */
  function Sweep(list: seq<File>, busy: set<File>, clean: nat): seq<File> {
    if list == [] then []
    else if list[0] in busy then [list[0]] + Sweep(list[1..], busy, clean)
    else if clean < HEADLESS_MAX then [list[0]] + Sweep(list[1..], busy, clean + 1)
    else Sweep(list[1..], busy, clean)
  }

  function Evicted(list: seq<File>, busy: set<File>): seq<File> {
    if |list| <= HEADLESS_MAX then list else Sweep(list, busy, 0)
  }

  function Without(list: seq<File>, f: File): seq<File> {
    if list == [] then [] else if list[0] == f then list[1..] else [list[0]] + Without(list[1..], f)
  }

  /** A lookup that finds the file moves it to the front. */
  function Used(list: seq<File>, f: File): seq<File> {
    if f in list then [f] + Without(list, f) else list
  }

  function Loaded(list: seq<File>, f: File, readable: bool, busy: set<File>): seq<File> {
    if f in list then Used(list, f) else if readable then Evicted([f] + list, busy) else list
  }

  predicate Distinct(s: seq<File>) {
    forall i, j :: 0 <= i < j < |s| ==> s[i] != s[j]
  }

  lemma {:induction false} WithoutAt(s: seq<File>, i: nat)
    requires i < |s| && s[i] !in s[..i]
    ensures Without(s, s[i]) == s[..i] + s[i + 1..]
  {
    if i > 0 {
      assert s[0] == s[..i][0];
      assert s[1..][..i - 1] == s[..i][1..];
      WithoutAt(s[1..], i - 1);
      assert s[..i] + s[i + 1..] == [s[0]] + (s[1..][..i - 1] + s[1..][i..]);
    }
  }

  lemma {:induction false} WithoutAbsent(s: seq<File>, f: File)
    requires f !in s
    ensures Without(s, f) == s
  {
    if s != [] {
      WithoutAbsent(s[1..], f);
    }
  }

  lemma SweepStep(list: seq<File>, k: nat, busy: set<File>, clean: nat, kept: seq<File>)
    requires k < |list|
    ensures kept + Sweep(list[k..], busy, clean) ==
              if list[k] in busy then kept + [list[k]] + Sweep(list[k + 1..], busy, clean)
              else if clean < HEADLESS_MAX then kept + [list[k]] + Sweep(list[k + 1..], busy, clean + 1)
              else kept + Sweep(list[k + 1..], busy, clean)
  {
    assert list[k..][1..] == list[k + 1..];
  }

  class Registry {
    var headless: seq<File>

    constructor ()
      ensures headless == []
    {
      headless := [];
    }

    /** `readable`: the file is in a workspace root and opens. `busy`: the buffers with
        unsaved work or a pending proposal. */
    method LoadHeadless(path: File, readable: bool, busy: set<File>) returns (ok: bool)
      modifies this
      ensures headless == Loaded(old(headless), path, readable, busy)
      ensures ok <==> path in old(headless) || readable
    {
      ok := FindHeadless(path);
      if ok || !readable {
        return;
      }
      headless := [path] + headless;
      EvictHeadless(busy);
      ok := true;
    }

    method FindHeadless(path: File) returns (found: bool)
      modifies this
      ensures headless == Used(old(headless), path)
      ensures found <==> path in old(headless)
    {
      for i := 0 to |headless|
        invariant headless == old(headless) && path !in headless[..i]
      {
        if path != headless[i] {
          continue;
        }
        WithoutAt(headless, i);
        if i > 0 {
          headless := headless[..i] + headless[i + 1..];
          headless := [path] + headless;
        } else {
          assert headless == [path] + headless[1..];
        }
        return true;
      }
      return false;
    }

    method EvictHeadless(busy: set<File>)
      modifies this
      ensures headless == Evicted(old(headless), busy)
    {
      if |headless| <= HEADLESS_MAX {
        return;
      }
      hide Sweep;
      ghost var list := headless;
      var kept: seq<File>, clean := [], 0;
      for k := 0 to |headless|
        invariant headless == list && 0 <= clean <= HEADLESS_MAX
        invariant kept + Sweep(list[k..], busy, clean) == Sweep(list, busy, 0)
      {
        SweepStep(list, k, busy, clean, kept);
        var p := headless[k];
        if p in busy {
          kept := kept + [p];
          continue;
        }
        if clean < HEADLESS_MAX {
          kept := kept + [p];
          clean := clean + 1;
          continue;
        }
      }
      headless := kept;
    }

    /** A buffer that gets a tab, or is dropped by its caller, leaves the registry. */
    method UnregisterHeadless(path: File)
      modifies this
      ensures headless == Without(old(headless), path)
    {
      for i := 0 to |headless|
        invariant headless == old(headless) && path !in headless[..i]
      {
        if headless[i] == path {
          WithoutAt(headless, i);
          headless := headless[..i] + headless[i + 1..];
          return;
        }
      }
      WithoutAbsent(headless, path);
    }
  }

  // ---------- Recency ----------

  datatype Event =
    | Load(file: File, readable: bool, busy: set<File>)
    | Find(file: File)
    | Unregister(file: File)

  /** The registry, the clock, and when each file was last used. */
  datatype World = World(list: seq<File>, now: nat, used: map<File, nat>)

  function Next(w: World, e: Event): World {
    match e
    case Load(f, readable, busy) =>
      World(Loaded(w.list, f, readable, busy), w.now + 1,
            if f in w.list || readable then w.used[f := w.now + 1] else w.used)
    case Find(f) =>
      World(Used(w.list, f), w.now + 1, if f in w.list then w.used[f := w.now + 1] else w.used)
    case Unregister(f) => w.(list := Without(w.list, f))
  }

  /** Every listed file was used, and the more recently the nearer the front. */
  predicate InOrder(list: seq<File>, used: map<File, nat>, now: nat) {
    && (forall i :: 0 <= i < |list| ==> list[i] in used && used[list[i]] <= now)
    && forall i, j :: 0 <= i < j < |list| ==> used[list[j]] < used[list[i]]
  }

  /** `sub` keeps the order of `list`. */
  predicate Within(sub: seq<File>, list: seq<File>) {
    if sub == [] then true
    else if list == [] then false
    else if sub[0] == list[0] then Within(sub[1..], list[1..])
    else Within(sub, list[1..])
  }

  lemma {:induction false} WithinMembers(sub: seq<File>, list: seq<File>)
    requires Within(sub, list)
    ensures forall x :: x in sub ==> x in list
  {
    if sub != [] {
      assert sub == [sub[0]] + sub[1..];
      assert list == [list[0]] + list[1..];
      if sub[0] == list[0] {
        WithinMembers(sub[1..], list[1..]);
      } else {
        WithinMembers(sub, list[1..]);
      }
    }
  }

  lemma {:induction false} WithinInOrder(sub: seq<File>, list: seq<File>, used: map<File, nat>, now: nat)
    requires Within(sub, list) && InOrder(list, used, now)
    ensures InOrder(sub, used, now)
  {
    if sub != [] {
      WithinMembers(sub, list);
      assert InOrder(list[1..], used, now);
      if sub[0] == list[0] {
        WithinInOrder(sub[1..], list[1..], used, now);
        WithinMembers(sub[1..], list[1..]);
        forall j | 1 <= j < |sub| ensures used[sub[j]] < used[sub[0]] {
          assert sub[j] in sub[1..];
          var k :| 0 <= k < |list[1..]| && list[1..][k] == sub[j];
          assert list[k + 1] == sub[j];
        }
        assert sub == [sub[0]] + sub[1..];
      } else {
        WithinInOrder(sub, list[1..], used, now);
      }
    }
  }

  lemma {:induction false} WithinItself(list: seq<File>)
    ensures Within(list, list)
  {
    if list != [] {
      WithinItself(list[1..]);
    }
  }

  lemma {:induction false} WithoutWithin(list: seq<File>, f: File)
    ensures Within(Without(list, f), list)
  {
    if list != [] {
      if list[0] == f {
        WithinItself(list[1..]);
        WithinSkip(list[1..], list[1..], list[0]);
        assert [list[0]] + list[1..] == list;
      } else {
        WithoutWithin(list[1..], f);
      }
    }
  }

  /** Dropping from the front of the longer list. */
  lemma {:induction false} WithinSkip(sub: seq<File>, list: seq<File>, x: File)
    requires Within(sub, list)
    ensures Within(sub, [x] + list)
    decreases |list|, 1
  {
    assert ([x] + list)[1..] == list;
    if sub != [] && sub[0] == x {
      WithinTail(sub, list);
    }
  }

  lemma {:induction false} WithinTail(sub: seq<File>, list: seq<File>)
    requires Within(sub, list) && sub != []
    ensures Within(sub[1..], list)
    decreases |list|, 0
  {
    assert list == [list[0]] + list[1..];
    if sub[0] == list[0] {
      WithinSkip(sub[1..], list[1..], list[0]);
    } else {
      WithinTail(sub, list[1..]);
      WithinSkip(sub[1..], list[1..], list[0]);
    }
  }

  lemma {:induction false} SweepWithin(list: seq<File>, busy: set<File>, clean: nat)
    ensures Within(Sweep(list, busy, clean), list)
  {
    if list != [] {
      if list[0] in busy {
        SweepWithin(list[1..], busy, clean);
      } else if clean < HEADLESS_MAX {
        SweepWithin(list[1..], busy, clean + 1);
      } else {
        SweepWithin(list[1..], busy, clean);
        WithinSkip(Sweep(list, busy, clean), list[1..], list[0]);
        assert [list[0]] + list[1..] == list;
      }
    }
  }

  /** Eviction keeps a subsequence of the registry. */
  lemma EvictedWithin(list: seq<File>, busy: set<File>)
    ensures Within(Evicted(list, busy), list)
  {
    SweepWithin(list, busy, 0);
    WithinItself(list);
  }

  lemma {:induction false} WithoutGone(list: seq<File>, f: File)
    requires Distinct(list)
    ensures f !in Without(list, f)
  {
    if list != [] {
      assert list == [list[0]] + list[1..];
      WithoutGone(list[1..], f);
    }
  }

  lemma UsedInOrder(list: seq<File>, f: File, used: map<File, nat>, now: nat)
    requires InOrder(list, used, now) && f in list
    ensures InOrder(Used(list, f), used[f := now + 1], now + 1)
  {
    var rest := Without(list, f);
    WithoutWithin(list, f);
    WithinInOrder(rest, list, used, now);
    WithoutGone(list, f);
    FreshFront(f, rest, used, now);
  }

  lemma FreshFront(f: File, rest: seq<File>, used: map<File, nat>, now: nat)
    requires InOrder(rest, used, now) && f !in rest
    ensures InOrder([f] + rest, used[f := now + 1], now + 1)
  {
    var used' := used[f := now + 1];
    assert forall i :: 0 <= i < |rest| ==> rest[i] in rest;
    assert InOrder(rest, used', now + 1);
  }

  lemma NextInOrder(w: World, e: Event)
    requires InOrder(w.list, w.used, w.now)
    ensures InOrder(Next(w, e).list, Next(w, e).used, Next(w, e).now)
  {
    hide InOrder, Evicted, Without;
    InOrderLater(w.list, w.used, w.now);
    match e
    case Load(f, readable, busy) =>
      if f in w.list {
        UsedInOrder(w.list, f, w.used, w.now);
      } else if readable {
        FreshFront(f, w.list, w.used, w.now);
        EvictedWithin([f] + w.list, busy);
        WithinInOrder(Evicted([f] + w.list, busy), [f] + w.list, Next(w, e).used, w.now + 1);
      }
    case Find(f) =>
      if f in w.list {
        UsedInOrder(w.list, f, w.used, w.now);
      }
    case Unregister(f) =>
      WithoutWithin(w.list, f);
      WithinInOrder(Without(w.list, f), w.list, w.used, w.now);
  }

  lemma InOrderLater(list: seq<File>, used: map<File, nat>, now: nat)
    requires InOrder(list, used, now)
    ensures InOrder(list, used, now + 1)
  {
  }

  ghost predicate Run(ws: seq<World>, es: seq<Event>) {
    && |ws| == |es| + 1 && ws[0] == World([], 0, map[])
    && forall i :: 0 <= i < |es| ==> ws[i + 1] == Next(ws[i], es[i])
  }

  /** Over any run of loads, lookups and removals, whatever is busy when, the list is in
      recency order. */
  lemma {:induction false} RecencyOrder(ws: seq<World>, es: seq<Event>, i: nat)
    requires Run(ws, es) && i < |ws|
    ensures InOrder(ws[i].list, ws[i].used, ws[i].now)
  {
    hide Next;
    if i == 0 {
      NothingListed();
    } else {
      RecencyOrder(ws, es, i - 1);
      NextInOrder(ws[i - 1], es[i - 1]);
    }
  }

  lemma NothingListed()
    ensures InOrder([], map[], 0)
  {
  }

  // ---------- What eviction drops ----------

  /** Clean buffers of the list that were used more recently. */
  function CleanNewer(list: seq<File>, busy: set<File>, used: map<File, nat>, f: File): nat
    requires f in used && forall x :: x in list ==> x in used
  {
    if list == [] then 0
    else (if list[0] !in busy && used[list[0]] > used[f] then 1 else 0) + CleanNewer(list[1..], busy, used, f)
  }

  function Clean(list: seq<File>, busy: set<File>): nat {
    if list == [] then 0 else (if list[0] in busy then 0 else 1) + Clean(list[1..], busy)
  }

  lemma {:induction false} NoneNewer(list: seq<File>, busy: set<File>, used: map<File, nat>, f: File)
    requires f in used && forall x :: x in list ==> x in used && used[x] <= used[f]
    ensures CleanNewer(list, busy, used, f) == 0
  {
    if list != [] {
      NoneNewer(list[1..], busy, used, f);
    }
  }

  lemma {:induction false} SweepKeeps(list: seq<File>, busy: set<File>, clean: nat, used: map<File, nat>, now: nat, f: File)
    requires InOrder(list, used, now) && f in list && f in used && forall x :: x in list ==> x in used
    ensures f in Sweep(list, busy, clean) <==> f in busy || clean + CleanNewer(list, busy, used, f) < HEADLESS_MAX
  {
    assert list == [list[0]] + list[1..];
    if f == list[0] {
      forall x | x in list[1..] ensures used[x] <= used[f] {
        var k :| 0 <= k < |list[1..]| && list[1..][k] == x;
        assert list[k + 1] == x;
      }
      NoneNewer(list[1..], busy, used, f);
      SweepWithin(list[1..], busy, clean);
      WithinMembers(Sweep(list[1..], busy, clean), list[1..]);
      assert f !in list[1..];
    } else {
      assert f in list[1..];
      var k :| 0 <= k < |list[1..]| && list[1..][k] == f;
      assert used[list[k + 1]] < used[list[0]];
      var more := if list[0] !in busy && clean < HEADLESS_MAX then clean + 1 else clean;
      SweepKeeps(list[1..], busy, more, used, now, f);
    }
  }

  lemma {:induction false} FewNewer(list: seq<File>, busy: set<File>, used: map<File, nat>, f: File)
    requires f in list && f in used && forall x :: x in list ==> x in used
    ensures CleanNewer(list, busy, used, f) < |list|
  {
    assert list == [list[0]] + list[1..];
    if f == list[0] {
      CleanAtMost(list[1..], busy, used, f);
    } else {
      FewNewer(list[1..], busy, used, f);
    }
  }

  lemma {:induction false} CleanAtMost(list: seq<File>, busy: set<File>, used: map<File, nat>, f: File)
    requires f in used && forall x :: x in list ==> x in used
    ensures CleanNewer(list, busy, used, f) <= |list|
  {
    if list != [] {
      CleanAtMost(list[1..], busy, used, f);
    }
  }

  /** True least recently used: a buffer survives an eviction if and only if it is busy, or
      fewer than eight clean buffers were used more recently. */
  lemma EvictionIsLru(ws: seq<World>, es: seq<Event>, i: nat, busy: set<File>, f: File)
    requires Run(ws, es) && i < |ws| && f in ws[i].list
    ensures f in ws[i].used && (forall x :: x in ws[i].list ==> x in ws[i].used)
    ensures f in Evicted(ws[i].list, busy) <==>
              f in busy || CleanNewer(ws[i].list, busy, ws[i].used, f) < HEADLESS_MAX
  {
    hide Sweep, CleanNewer, Next;
    RecencyOrder(ws, es, i);
    SweepKeeps(ws[i].list, busy, 0, ws[i].used, ws[i].now, f);
    FewNewer(ws[i].list, busy, ws[i].used, f);
  }

  /** The same where it happens on a load: the new file in front, every buffer of the
      registry that is clean and has eight clean ones used more recently, the new one
      among them, is dropped, and no other. */
  lemma LoadIsLru(ws: seq<World>, es: seq<Event>, i: nat, f: File, busy: set<File>, g: File)
    requires Run(ws, es) && i < |ws| && f !in ws[i].list && g in [f] + ws[i].list
    ensures var used := ws[i].used[f := ws[i].now + 1];
            && g in used && (forall x :: x in [f] + ws[i].list ==> x in used)
            && (g in Loaded(ws[i].list, f, true, busy) <==>
                g in busy || CleanNewer([f] + ws[i].list, busy, used, g) < HEADLESS_MAX)
  {
    hide Sweep, CleanNewer, Next, InOrder;
    RecencyOrder(ws, es, i);
    var list, used := [f] + ws[i].list, ws[i].used[f := ws[i].now + 1];
    FreshFront(f, ws[i].list, ws[i].used, ws[i].now);
    InOrderUsed(list, used, ws[i].now + 1);
    SweepKeeps(list, busy, 0, used, ws[i].now + 1, g);
    FewNewer(list, busy, used, g);
  }

  lemma InOrderUsed(list: seq<File>, used: map<File, nat>, now: nat)
    requires InOrder(list, used, now)
    ensures forall x :: x in list ==> x in used
  {
  }

  lemma {:induction false} SweepCap(list: seq<File>, busy: set<File>, clean: nat)
    requires clean <= HEADLESS_MAX
    ensures clean + Clean(Sweep(list, busy, clean), busy) <= HEADLESS_MAX
  {
    if list != [] {
      SweepCap(list[1..], busy, clean);
      if clean < HEADLESS_MAX {
        SweepCap(list[1..], busy, clean + 1);
      }
    }
  }

  lemma {:induction false} CleanFits(list: seq<File>, busy: set<File>)
    ensures Clean(list, busy) <= |list|
  {
    if list != [] {
      CleanFits(list[1..], busy);
    }
  }

  /** The clean files of a list are no more than its clean places. */
  lemma {:induction false} CleanSize(list: seq<File>, busy: set<File>)
    ensures |set f | f in list && f !in busy| <= Clean(list, busy)
  {
    if list == [] {
      assert (set f | f in list && f !in busy) == {};
    } else {
      var rest := list[1..];
      assert list == [list[0]] + rest;
      CleanSize(rest, busy);
      var fewer := set f | f in rest && f !in busy;
      var all := set f | f in list && f !in busy;
      if list[0] in busy {
        assert all == fewer;
      } else {
        assert all == fewer + {list[0]};
      }
    }
  }

  /** After a load of a new file at most eight buffers are clean, and the file just loaded
      is at the front. */
  lemma LoadCaps(list: seq<File>, f: File, busy: set<File>)
    requires f !in list
    ensures |set g | g in Loaded(list, f, true, busy) && g !in busy| <= HEADLESS_MAX
    ensures Clean(Loaded(list, f, true, busy), busy) <= HEADLESS_MAX
    ensures Loaded(list, f, true, busy) != [] && Loaded(list, f, true, busy)[0] == f
  {
    hide Clean;
    SweepCap([f] + list, busy, 0);
    CleanFits([f] + list, busy);
    CleanSize(Loaded(list, f, true, busy), busy);
  }

  // ---------- Who is listed ----------

  lemma {:induction false} WithoutMembers(list: seq<File>, f: File)
    requires Distinct(list)
    ensures forall g :: g in Without(list, f) <==> g in list && g != f
  {
    if list != [] {
      assert list == [list[0]] + list[1..];
      assert Distinct(list[1..]) && list[0] !in list[1..];
      if list[0] != f {
        WithoutMembers(list[1..], f);
      }
    }
  }

  lemma OrderedIsDistinct(list: seq<File>, used: map<File, nat>, now: nat)
    requires InOrder(list, used, now)
    ensures Distinct(list)
  {
  }

  /** What each step does to the registry's members, over every run: a lookup changes none;
      a removal takes out the one file; a load of a file it knows, or that cannot be read,
      changes none, and any other load puts the file in and drops exactly the clean
      buffers with eight clean ones used more recently. With `RecencyOrder` this fixes
      the list. */
  lemma StepMembers(ws: seq<World>, es: seq<Event>, i: nat, g: File)
    requires Run(ws, es) && i < |es|
    ensures es[i].Find? ==> (g in ws[i + 1].list <==> g in ws[i].list)
    ensures es[i].Unregister? ==> (g in ws[i + 1].list <==> g in ws[i].list && g != es[i].file)
    ensures es[i].Load? && (es[i].file in ws[i].list || !es[i].readable) ==> (g in ws[i + 1].list <==> g in ws[i].list)
    ensures es[i].Load? && es[i].file !in ws[i].list && es[i].readable ==>
              var used := ws[i].used[es[i].file := ws[i].now + 1];
              && (forall x :: x in ws[i].list ==> x in used)
              && (g in ws[i + 1].list <==>
                    && (g == es[i].file || g in ws[i].list)
                    && (g in es[i].busy || CleanNewer([es[i].file] + ws[i].list, es[i].busy, used, g) < HEADLESS_MAX))
  {
    hide Evicted, Without, CleanNewer;
    RecencyOrder(ws, es, i);
    OrderedIsDistinct(ws[i].list, ws[i].used, ws[i].now);
    var f := es[i].file;
    WithoutMembers(ws[i].list, f);
    match es[i]
    case Find(_) =>
    case Unregister(_) =>
    case Load(_, readable, busy) =>
      if f !in ws[i].list && readable {
        EvictedWithin([f] + ws[i].list, busy);
        WithinMembers(Evicted([f] + ws[i].list, busy), [f] + ws[i].list);
        if g in [f] + ws[i].list {
          LoadIsLru(ws, es, i, f, busy, g);
        }
      }
  }
}
