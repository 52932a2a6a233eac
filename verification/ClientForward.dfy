/** How an attached client's typing reaches the daemon: a one-hunk diff, the scan that
    starts a forward loop, and the loop that ships it. */
module ClientForward {
  import opened Options

  type Text = string

  // ---------- The single hunk ----------

  predicate CommonPrefix(a: Text, b: Text, k: nat) {
    k <= |a| && k <= |b| && a[..k] == b[..k]
  }

  predicate CommonSuffix(a: Text, b: Text, k: nat) {
    k <= |a| && k <= |b| && a[|a| - k..] == b[|b| - k..]
  }

  lemma CommonSuffixAt(a: Text, b: Text, k: nat, m: nat)
    requires CommonSuffix(a, b, k) && m < k
    ensures a[|a| - m - 1] == b[|b| - m - 1]
  {
    assert a[|a| - k..][k - m - 1] == b[|b| - k..][k - m - 1];
  }

  lemma LongerPrefix(a: Text, b: Text, m: nat)
    requires m < |a| && m < |b|
    ensures forall k: nat :: CommonPrefix(a, b, k) && m < k ==> a[m] == b[m]
  {
    forall k: nat | CommonPrefix(a, b, k) && m < k ensures a[m] == b[m] {
      assert a[..k][m] == b[..k][m];
    }
  }

  lemma NoSuffix(a: Text, b: Text)
    ensures CommonSuffix(a, b, 0)
  {
  }

  lemma SuffixStep(a: Text, b: Text, m: nat)
    requires CommonSuffix(a, b, m) && m < |a| && m < |b| && a[|a| - m - 1] == b[|b| - m - 1]
    ensures CommonSuffix(a, b, m + 1)
  {
    assert a[|a| - m - 1..] == [a[|a| - m - 1]] + a[|a| - m..];
    assert b[|b| - m - 1..] == [b[|b| - m - 1]] + b[|b| - m..];
  }

  lemma MiddleReplaced(a: Text, b: Text, start: nat, endOld: nat, endNew: nat)
    requires start <= endOld <= |a| && start <= endNew <= |b| && |a| - endOld == |b| - endNew
    requires CommonPrefix(a, b, start) && CommonSuffix(a, b, |a| - endOld)
    ensures a[..start] + b[start..endNew] + a[endOld..] == b
  {
    assert b == b[..start] + b[start..endNew] + b[endNew..];
  }

  lemma LongerSuffix(a: Text, b: Text, m: nat)
    requires m < |a| && m < |b|
    ensures forall k: nat :: CommonSuffix(a, b, k) && m < k ==> a[|a| - m - 1] == b[|b| - m - 1]
  {
    forall k: nat | CommonSuffix(a, b, k) && m < k ensures a[|a| - m - 1] == b[|b| - m - 1] {
      CommonSuffixAt(a, b, k, m);
    }
  }

  /** The changed middle: the longest common prefix, then the longest common suffix that
      does not reach back into it. */
  method EditMiddle(before: Text, cur: Text) returns (start: nat, endOld: nat, endNew: nat)
    ensures start <= endOld <= |before| && start <= endNew <= |cur|
    ensures CommonPrefix(before, cur, start)
    ensures forall k: nat :: CommonPrefix(before, cur, k) ==> k <= start
    ensures |before| - endOld == |cur| - endNew && CommonSuffix(before, cur, |before| - endOld)
    ensures forall k: nat :: CommonSuffix(before, cur, k) && start + k <= |before| && start + k <= |cur| ==> k <= |before| - endOld
    ensures before[..start] + cur[start..endNew] + before[endOld..] == cur
  {
    hide CommonSuffix;
    var n := if |cur| < |before| then |cur| else |before|;
    start := 0;
    while start < n && before[start] == cur[start]
      invariant start <= n
      invariant before[..start] == cur[..start]
    {
      start := start + 1;
    }
    if start < n {
      LongerPrefix(before, cur, start);
    }
    endOld, endNew := |before|, |cur|;
    NoSuffix(before, cur);
    while endOld > start && endNew > start && before[endOld - 1] == cur[endNew - 1]
      invariant start <= endOld <= |before| && start <= endNew <= |cur|
      invariant |before| - endOld == |cur| - endNew
      invariant CommonSuffix(before, cur, |before| - endOld)
    {
      SuffixStep(before, cur, |before| - endOld);
      endOld, endNew := endOld - 1, endNew - 1;
    }
    if endOld > start && endNew > start {
      LongerSuffix(before, cur, |before| - endOld);
    }
    MiddleReplaced(before, cur, start, endOld, endNew);
  }

  /** One hunk of an apply request. */
  datatype Hunk = Hunk(start: nat, end: nat, text: Text)

  function Place(text: Text, h: Hunk): Text
    requires h.start <= h.end <= |text|
  {
    text[..h.start] + h.text + text[h.end..]
  }

  /** The hunk `forwardApply` sends. */
  ghost predicate IsMiddle(h: Hunk, synced: Text, cur: Text) {
    h.start <= h.end <= |synced| && Place(synced, h) == cur
  }

  method MiddleHunk(synced: Text, cur: Text) returns (h: Hunk)
    ensures IsMiddle(h, synced, cur)
    ensures synced == cur ==> h.start == h.end && h.text == ""
    ensures forall g: Hunk :: IsMiddle(g, synced, cur) ==> h.end - h.start <= g.end - g.start && |h.text| <= |g.text|
  {
    var start, endOld, endNew := EditMiddle(synced, cur);
    assert synced == cur ==> CommonPrefix(synced, cur, |synced|);
    h := Hunk(start, endOld, cur[start..endNew]);
    forall g: Hunk | IsMiddle(g, synced, cur) ensures endOld - start <= g.end - g.start && |h.text| <= |g.text| {
      MiddleIsLeast(synced, cur, start, |synced| - endOld, g);
    }
  }

  /** No hunk that turns one text into the other replaces less than what lies between the
      longest common prefix and the longest suffix beside it. */
  lemma MiddleIsLeast(synced: Text, cur: Text, prefix: nat, suffix: nat, g: Hunk)
    requires IsMiddle(g, synced, cur) && prefix + suffix <= |synced| && prefix + suffix <= |cur|
    requires forall k: nat :: CommonPrefix(synced, cur, k) ==> k <= prefix
    requires forall k: nat :: CommonSuffix(synced, cur, k) && prefix + k <= |synced| && prefix + k <= |cur| ==> k <= suffix
    ensures |synced| - suffix - prefix <= g.end - g.start && |cur| - suffix - prefix <= |g.text|
  {
    hide CommonPrefix, CommonSuffix;
    var tail := |synced| - g.end;
    assert |cur| == g.start + |g.text| + tail;
    HunkAgrees(synced, cur, g);
    var n := if |synced| < |cur| then |synced| else |cur|;
    var k := if tail <= n - prefix then tail else n - prefix;
    ShorterSuffix(synced, cur, tail, k);
    assert k <= suffix;
  }

  lemma HunkAgrees(synced: Text, cur: Text, g: Hunk)
    requires IsMiddle(g, synced, cur)
    ensures CommonPrefix(synced, cur, g.start) && CommonSuffix(synced, cur, |synced| - g.end)
  {
    assert cur == synced[..g.start] + g.text + synced[g.end..];
  }

  lemma ShorterSuffix(a: Text, b: Text, m: nat, k: nat)
    requires CommonSuffix(a, b, m) && k <= m
    ensures CommonSuffix(a, b, k)
  {
  }

  // ---------- One path's entry ----------

  /** The daemon state a pane's copy came from, and what is still to be forwarded. */
  datatype Entry = Entry(version: nat, synced: Text, pending: Text, dirty: bool, running: bool)

  function ScanEntry(e: Entry, cur: Text): Entry {
    if e.running || (cur == e.synced && !e.dirty) then e
    else e.(pending := cur, dirty := true, running := true)
  }

  predicate ScanStarts(e: Entry, cur: Text) {
    !e.running && !(cur == e.synced && !e.dirty)
  }

  /** A loop turn that found nothing to send clears `running` and ends. */
  function StopEntry(e: Entry): Entry {
    e.(running := false)
  }

  function RecordEntry(e: Entry, cur: Text, reply: Option<nat>): Entry {
    match reply
    case Some(v) => e.(version := v, synced := cur, dirty := if e.pending == cur then false else e.dirty)
    case None => e.(synced := cur, dirty := false)
  }

  /** A refused apply is not retried: what was sent counts as synced at the version it was
      based on, the next turn ends the loop, and a scan takes the path up again exactly
      when the pane then shows another text. */
  lemma RefusedIsNotRetried(e: Entry, sent: Text, later: Text)
    ensures var r := RecordEntry(e, sent, None);
            && !r.dirty && r.synced == sent && r.version == e.version
            && (ScanStarts(StopEntry(r), later) <==> later != sent)
            && (later != sent ==> ScanEntry(StopEntry(r), later) == Entry(e.version, sent, later, true, true))
  {
  }

  /** The tracked paths, updated in place under the client mutex. */
  class Client {
    var edits: map<string, Entry>

    constructor (edits: map<string, Entry>)
      ensures this.edits == edits
    {
      this.edits := edits;
    }

    /** Sweeps the panes once; a path whose loop runs is left to a later scan. */
    method ScanClientEdits(panes: seq<(string, Text)>) returns (started: seq<string>)
      requires forall i, j :: 0 <= i < j < |panes| ==> panes[i].0 != panes[j].0
      modifies this
      ensures edits.Keys == old(edits).Keys
      ensures forall i :: 0 <= i < |panes| && panes[i].0 in old(edits) ==>
                edits[panes[i].0] == ScanEntry(old(edits)[panes[i].0], panes[i].1)
      ensures forall p :: p in edits && (forall i :: 0 <= i < |panes| ==> panes[i].0 != p) ==> edits[p] == old(edits)[p]
      ensures forall p :: p in started <==>
                exists i :: 0 <= i < |panes| && panes[i].0 == p && p in old(edits) && ScanStarts(old(edits)[p], panes[i].1)
      ensures forall i, j :: 0 <= i < j < |started| ==> started[i] != started[j]
    {
      hide ScanEntry, ScanStarts;
      started := [];
      for k := 0 to |panes|
        invariant edits.Keys == old(edits).Keys
        invariant forall i :: 0 <= i < k && panes[i].0 in old(edits) ==>
                    edits[panes[i].0] == ScanEntry(old(edits)[panes[i].0], panes[i].1)
        invariant forall p :: p in edits && (forall i :: 0 <= i < k ==> panes[i].0 != p) ==> edits[p] == old(edits)[p]
        invariant forall p :: p in started <==>
                    exists i :: 0 <= i < k && panes[i].0 == p && p in old(edits) && ScanStarts(old(edits)[p], panes[i].1)
        invariant forall i, j :: 0 <= i < j < |started| ==> started[i] != started[j]
      {
        var starts := ScanPane(panes[k].0, panes[k].1);
        if starts {
          started := started + [panes[k].0];
        }
      }
    }

    method ScanPane(path: string, cur: Text) returns (starts: bool)
      modifies this
      ensures path !in old(edits) ==> edits == old(edits) && !starts
      ensures path in old(edits) ==>
                && edits == old(edits)[path := ScanEntry(old(edits)[path], cur)]
                && starts == ScanStarts(old(edits)[path], cur)
    {
      if path !in edits || edits[path].running {
        return false;
      }
      var e := edits[path];
      if cur == e.synced && !e.dirty {
        return false;
      }
      edits := edits[path := e.(pending := cur, dirty := true, running := true)];
      return true;
    }

    /** The top of a loop turn: what to send, or none when the loop ends. */
    method LoopTurn(path: string) returns (send: Option<(nat, Text, Text)>)
      modifies this
      ensures path !in old(edits) ==> edits == old(edits) && send == None
      ensures path in old(edits) && !old(edits)[path].dirty ==>
                edits == old(edits)[path := StopEntry(old(edits)[path])] && send == None
      ensures path in old(edits) && old(edits)[path].dirty ==>
                && edits == old(edits)
                && send == Some((edits[path].version, edits[path].synced, edits[path].pending))
    {
      if path !in edits {
        return None;
      }
      var e := edits[path];
      if !e.dirty {
        edits := edits[path := e.(running := false)];
        return None;
      }
      send := Some((e.version, e.synced, e.pending));
    }

    /** The bottom of a loop turn: what the daemon answered. */
    method LoopRecord(path: string, cur: Text, reply: Option<nat>)
      modifies this
      ensures path !in old(edits) ==> edits == old(edits)
      ensures path in old(edits) ==> edits == old(edits)[path := RecordEntry(old(edits)[path], cur, reply)]
    {
      if path !in edits {
        return;
      }
      var e := edits[path];
      match reply {
        case Some(v) =>
          e := e.(version := v, synced := cur);
          if e.pending == cur {
            e := e.(dirty := false);
          }
        case None =>
          e := e.(synced := cur, dirty := false);
      }
      edits := edits[path := e];
    }
  }

  // ---------- One path over a run ----------

  /** Where a forward loop is: between locks it holds the arguments of its apply, or the
      version the daemon returned for it. */
  datatype Phase =
    | Sleeping
    | Sending(base: nat, synced: Text, cur: Text)
    | Answered(version: nat, sent: Text)

  /** A pane, its entry, every live loop for its path, and the daemon's text at each of
      its versions. */
  datatype Path = Path(pane: Text, entry: Entry, loops: seq<Phase>, daemon: seq<Text>)

  /** The daemon applies a hunk written against its current version. An empty hunk
      commits nothing, so the version it answers is the one it had. */
  function DaemonApply(daemon: seq<Text>, h: Hunk): seq<Text>
    requires daemon != [] && h.start <= h.end <= |daemon[|daemon| - 1]|
  {
    if h.start == h.end && h.text == "" then daemon
    else daemon + [Place(daemon[|daemon| - 1], h)]
  }

  datatype Event = Type(text: Text) | Scan | Turn(loop: nat) | Reach(loop: nat, hunk: Hunk) | Record(loop: nat)

  function Drop(loops: seq<Phase>, i: nat): (r: seq<Phase>)
    requires i < |loops|
    ensures |r| == |loops| - 1 && forall k :: 0 <= k < |r| ==> r[k] == loops[if k < i then k else k + 1]
  {
    loops[..i] + loops[i + 1..]
  }

  ghost predicate Step(w: Path, e: Event, w': Path) {
    match e
    case Type(text) => w' == w.(pane := text)
    case Scan =>
      w' == w.(entry := ScanEntry(w.entry, w.pane),
               loops := if ScanStarts(w.entry, w.pane) then w.loops + [Sleeping] else w.loops)
    case Turn(i) =>
      && i < |w.loops| && w.loops[i].Sleeping?
      && w' == if w.entry.dirty
               then w.(loops := w.loops[i := Sending(w.entry.version, w.entry.synced, w.entry.pending)])
               else w.(entry := StopEntry(w.entry), loops := Drop(w.loops, i))
    case Reach(i, h) =>
      // The request's base is the daemon's version, so nothing is rebased. The run
      // theorem shows every request meets this with one writer.
      && i < |w.loops| && w.loops[i].Sending?
      && IsMiddle(h, w.loops[i].synced, w.loops[i].cur)
      && (w.loops[i].synced == w.loops[i].cur ==> h.start == h.end && h.text == "")
      && w.daemon != [] && w.loops[i].base == |w.daemon| - 1
      && h.end <= |w.daemon[|w.daemon| - 1]|
      && var d := DaemonApply(w.daemon, h);
         w' == w.(daemon := d, loops := w.loops[i := Answered(|d| - 1, w.loops[i].cur)])
    case Record(i) =>
      && i < |w.loops| && w.loops[i].Answered?
      && w' == w.(entry := RecordEntry(w.entry, w.loops[i].sent, Some(w.loops[i].version)),
                  loops := w.loops[i := Sleeping])
  }

  ghost predicate Initial(w: Path) {
    && w.daemon != [] && w.loops == []
    && !w.entry.dirty && !w.entry.running
    && w.entry.version == |w.daemon| - 1 && w.entry.synced == w.daemon[|w.daemon| - 1]
  }

  /** The entry describes the daemon: `synced` is its text at `version`, its newest. */
  predicate Current(w: Path) {
    w.daemon != [] && w.entry.version == |w.daemon| - 1 && w.entry.synced == w.daemon[|w.daemon| - 1]
  }

  ghost predicate Inv(w: Path) {
    && w.daemon != []
    && |w.loops| <= 1
    && (w.entry.running <==> |w.loops| == 1)
    && (w.loops == [] ==> Current(w) && !w.entry.dirty)
    && (|w.loops| == 1 ==>
          match w.loops[0]
          case Sleeping => Current(w)
          case Sending(base, synced, cur) =>
            && Current(w) && w.entry.dirty
            && base == w.entry.version && synced == w.entry.synced && cur == w.entry.pending
          case Answered(v, cur) =>
            && w.entry.dirty && cur == w.entry.pending
            && v == |w.daemon| - 1 && w.daemon[v] == cur)
  }

  lemma StepInv(w: Path, e: Event, w': Path)
    requires Inv(w) && Step(w, e, w')
    ensures Inv(w')
  {
  }

  ghost predicate Run(ws: seq<Path>, es: seq<Event>) {
    && |ws| == |es| + 1 && Initial(ws[0])
    && forall i :: 0 <= i < |es| ==> Step(ws[i], es[i], ws[i + 1])
  }

  lemma {:induction false} RunInv(ws: seq<Path>, es: seq<Event>, i: nat)
    requires Run(ws, es) && i < |ws|
    ensures Inv(ws[i])
  {
    if i > 0 {
      RunInv(ws, es, i - 1);
      StepInv(ws[i - 1], es[i - 1], ws[i]);
    }
  }

  /** In every interleaving of typing, scans and loop steps with one writer: at most one
      loop runs for the path, `synced` is the daemon's text at `version` whenever no
      answer is waiting to be recorded, and a scan that finds nothing to do with no loop
      running means the pane, the synced text and the daemon agree. */
  lemma Converges(ws: seq<Path>, es: seq<Event>, i: nat)
    requires Run(ws, es) && i < |ws|
    ensures |ws[i].loops| <= 1
    ensures (forall k :: 0 <= k < |ws[i].loops| ==> !ws[i].loops[k].Answered?) ==> Current(ws[i])
    ensures ws[i].loops == [] && !ScanStarts(ws[i].entry, ws[i].pane) ==>
              ws[i].pane == ws[i].entry.synced == ws[i].daemon[|ws[i].daemon| - 1]
  {
    RunInv(ws, es, i);
  }

  /** Every request of a run is answered as the model says: its base is the daemon's
      version and its hunk fits, so the daemon rebases nothing and cannot refuse. */
  lemma RequestsFit(ws: seq<Path>, es: seq<Event>, i: nat, h: Hunk)
    requires Run(ws, es) && i < |ws| && |ws[i].loops| == 1 && ws[i].loops[0].Sending?
    requires IsMiddle(h, ws[i].loops[0].synced, ws[i].loops[0].cur)
    ensures ws[i].loops[0].base == |ws[i].daemon| - 1
    ensures h.end <= |ws[i].daemon[|ws[i].daemon| - 1]|
    ensures Place(ws[i].daemon[|ws[i].daemon| - 1], h) == ws[i].loops[0].cur
  {
    RunInv(ws, es, i);
  }

  /** One round of a loop that has work: send, reach the daemon, record, stop. */
  function Round(w: Path): Path
    requires w.daemon != []
  {
    var cur := w.entry.pending;
    var d := if w.entry.synced == cur then w.daemon else w.daemon + [cur];
    w.(entry := StopEntry(RecordEntry(w.entry, cur, Some(|d| - 1))), loops := [], daemon := d)
  }

  /** Typing that stops is delivered: from any quiet moment, a scan and one round of the
      loop it starts leave the daemon with the pane's text and nothing left to scan. */
  lemma TypingIsDelivered(w: Path)
    requires Inv(w) && w.loops == []
    ensures var scanned := w.(entry := ScanEntry(w.entry, w.pane));
            var after := if ScanStarts(w.entry, w.pane) then Round(scanned) else w;
            && after.daemon[|after.daemon| - 1] == w.pane
            && after.entry.synced == w.pane && !ScanStarts(after.entry, after.pane)
            && Inv(after)
  {
  }

  /** The round is made of the loop's own steps. */
  lemma RoundIsSteps(w: Path, h: Hunk)
    requires Inv(w) && w.loops == [Sleeping] && w.entry.dirty
    requires IsMiddle(h, w.entry.synced, w.entry.pending)
    requires w.entry.synced == w.entry.pending <==> h.start == h.end && h.text == ""
    ensures exists a, b, c :: Step(w, Turn(0), a) && Step(a, Reach(0, h), b) && Step(b, Record(0), c) &&
              Step(c, Turn(0), Round(w))
  {
    var a := w.(loops := [Sending(w.entry.version, w.entry.synced, w.entry.pending)]);
    var d := DaemonApply(w.daemon, h);
    var b := a.(daemon := d, loops := [Answered(|d| - 1, w.entry.pending)]);
    var c := b.(entry := RecordEntry(b.entry, w.entry.pending, Some(|d| - 1)), loops := [Sleeping]);
    assert Step(w, Turn(0), a);
    assert Step(a, Reach(0, h), b);
    assert Step(b, Record(0), c);
    assert Drop(c.loops, 0) == [];
    assert Step(c, Turn(0), Round(w));
  }

  // ---------- What a running loop delivers ----------

  function DaemonText(w: Path): Text {
    if w.daemon == [] then "" else w.daemon[|w.daemon| - 1]
  }

  /** A loop that has read `pending` and not stopped: it still sends it, or has. */
  ghost predicate Delivers(w: Path, pending: Text) {
    && Inv(w) && |w.loops| == 1 && w.entry.pending == pending
    && (w.loops[0].Sleeping? ==> !w.entry.dirty && DaemonText(w) == pending)
  }

  /** A scan leaves a running path alone, and what was pending is recorded as clean. */
  lemma ScanSkipsRunning(e: Entry, cur: Text)
    requires e.running
    ensures ScanEntry(e, cur) == e && !ScanStarts(e, cur)
    ensures RecordEntry(e, e.pending, Some(e.version)).dirty == false
  {
  }

  /** Until the loop stops, nothing moves what it delivers: a scan leaves a running path
      alone, so text typed meanwhile is not taken up. */
  lemma DeliversStep(w: Path, e: Event, w': Path, pending: Text)
    requires Delivers(w, pending) && Step(w, e, w')
    ensures |w'.loops| == 1 ==> Delivers(w', pending)
    ensures w'.loops == [] ==> DaemonText(w') == pending && w'.entry.pending == pending
    ensures |w'.loops| <= 1
  {
    StepInv(w, e, w');
    ScanSkipsRunning(w.entry, w.pane);
  }

  lemma {:induction false} LoopDelivers(ws: seq<Path>, es: seq<Event>, i: nat, j: nat)
    requires Run(ws, es) && i < j < |ws|
    requires |ws[i].loops| == 1 && ws[i].loops[0].Sending?
    requires forall k :: i < k < j ==> ws[k].loops != []
    ensures |ws[j].loops| == 1 ==> Delivers(ws[j], ws[i].entry.pending)
    ensures ws[j].loops == [] ==> DaemonText(ws[j]) == ws[i].entry.pending
    ensures |ws[j].loops| <= 1
  {
    hide Step, Inv;
    if j == i + 1 {
      RunInv(ws, es, i);
      DeliversStep(ws[i], es[i], ws[j], ws[i].entry.pending);
    } else {
      LoopDelivers(ws, es, i, j - 1);
      DeliversStep(ws[j - 1], es[j - 1], ws[j], ws[i].entry.pending);
    }
  }

  /** In every run, with typing and scans anywhere in between: when a loop that was
      sending has stopped, the daemon holds the text the loop had pending when it sent.
      So the daemon has the pane's text then if and only if that pane text is the one
      that was pending; an edit typed during the apply is not forwarded by this loop. */
  lemma StoppedLoopDelivered(ws: seq<Path>, es: seq<Event>, i: nat, j: nat)
    requires Run(ws, es) && i < j < |ws|
    requires |ws[i].loops| == 1 && ws[i].loops[0].Sending?
    requires (forall k :: i < k < j ==> ws[k].loops != []) && ws[j].loops == []
    ensures DaemonText(ws[j]) == ws[j].pane <==> ws[j].pane == ws[i].entry.pending
  {
    LoopDelivers(ws, es, i, j);
  }

  /** The next turn itself: from any state of the invariant with the apply in flight, the
      daemon's answer, its record and one more turn stop the loop, and the daemon has the
      pane's text if and only if the pane still shows what was pending. */
  lemma NextTurnDelivers(w: Path, h: Hunk, a: Path, b: Path, c: Path)
    requires Inv(w) && |w.loops| == 1 && w.loops[0].Sending?
    requires Step(w, Reach(0, h), a) && Step(a, Record(0), b) && Step(b, Turn(0), c)
    ensures c.loops == [] && c.pane == w.pane
    ensures DaemonText(c) == c.pane <==> w.pane == w.entry.pending
  {
    hide Place;
    var pending := w.entry.pending;
    DeliversStep(w, Reach(0, h), a, pending);
    DeliversStep(a, Record(0), b, pending);
    DeliversStep(b, Turn(0), c, pending);
    assert b.entry.dirty == false;
  }

  const QUIET := Entry(0, "", "", false, false)
  const BUSY := Entry(0, "", "a", true, true)
  const SENT := Entry(1, "a", "a", false, true)

  /** Typing during an apply is lost to the loop that runs: a run that ends with the loop
      stopped, the daemon at `"a"` and the pane at `"ab"`. */
  lemma TypedDuringApplyWaits()
    ensures exists ws, es :: Run(ws, es) && StoppedShort(ws, es)
  {
    hide Step;
    var ws := [
      Path("", QUIET, [], [""]),
      Path("a", QUIET, [], [""]),
      Path("a", BUSY, [Sleeping], [""]),
      Path("a", BUSY, [Sending(0, "", "a")], [""]),
      Path("ab", BUSY, [Sending(0, "", "a")], [""]),
      Path("ab", BUSY, [Answered(1, "a")], ["", "a"]),
      Path("ab", SENT, [Sleeping], ["", "a"]),
      Path("ab", StopEntry(SENT), [], ["", "a"])];
    var es := [Type("a"), Scan, Turn(0), Type("ab"), Reach(0, Hunk(0, 0, "a")), Record(0), Turn(0)];
    FirstSteps();
    LastSteps();
    forall i | 0 <= i < |es| ensures Step(ws[i], es[i], ws[i + 1]) {
      assert i == 0 || i == 1 || i == 2 || i == 3 || i == 4 || i == 5 || i == 6;
    }
    assert Initial(ws[0]);
    assert StoppedShort(ws, es);
  }

  lemma FirstSteps()
    ensures Step(Path("", QUIET, [], [""]), Type("a"), Path("a", QUIET, [], [""]))
    ensures Step(Path("a", QUIET, [], [""]), Scan, Path("a", BUSY, [Sleeping], [""]))
    ensures Step(Path("a", BUSY, [Sleeping], [""]), Turn(0), Path("a", BUSY, [Sending(0, "", "a")], [""]))
    ensures Step(Path("a", BUSY, [Sending(0, "", "a")], [""]), Type("ab"), Path("ab", BUSY, [Sending(0, "", "a")], [""]))
  {
    assert [] + [Sleeping] == [Sleeping];
  }

  lemma LastSteps()
    ensures Step(Path("ab", BUSY, [Sending(0, "", "a")], [""]), Reach(0, Hunk(0, 0, "a")), Path("ab", BUSY, [Answered(1, "a")], ["", "a"]))
    ensures Step(Path("ab", BUSY, [Answered(1, "a")], ["", "a"]), Record(0), Path("ab", SENT, [Sleeping], ["", "a"]))
    ensures Step(Path("ab", SENT, [Sleeping], ["", "a"]), Turn(0), Path("ab", StopEntry(SENT), [], ["", "a"]))
  {
    var h := Hunk(0, 0, "a");
    assert Place("", h) == "a";
    assert [""] + ["a"] == ["", "a"];
    assert Drop([Sleeping], 0) == [];
  }

  /** The run typed during an apply and ended with its loop stopped behind the pane. */
  ghost predicate StoppedShort(ws: seq<Path>, es: seq<Event>) {
    && |ws| == 8 && |es| == 7 && ws[3].loops == [Sending(0, "", "a")] && es[3] == Type("ab")
    && es[4].Reach? && es[5] == Record(0) && es[6] == Turn(0)
    && ws[7].loops == [] && ws[7].pane == "ab" && DaemonText(ws[7]) == "a"
  }
}
