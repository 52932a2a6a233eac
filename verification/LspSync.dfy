/** The language server's copy of a document: the journal window rendered as edits, the
    tracker that ships them, and why the copy never differs from the text last sent.
    The order of application is that of the DidChangeTextDocument Notification section
    of the LSP 3.17 specification: each change applies to the result of the previous. */
module LspSync {
  import opened Options
  import opened PieceTable
  import opened OpLogRuns

  /** Replace bytes [start, end) of the text the previous edits produced. */
  datatype Edit = Edit(start: nat, end: nat, text: Bytes)

  // ---------- Rendering the window ----------

  method RecsText(texts: Texts, recs: seq<Piece>) returns (r: Bytes)
    ensures r == Render(texts, recs)
  {
    r := [];
    assert recs[..0] == [];
    for i := 0 to |recs|
      invariant r == Render(texts, recs[..i])
    {
      RenderSnoc(texts, recs, i);
      r := r + Slice(texts, recs[i].buf, recs[i].start, recs[i].length);
    }
    assert recs[..|recs|] == recs;
  }

  lemma RenderSnoc(texts: Texts, recs: seq<Piece>, i: nat)
    requires i < |recs|
    ensures Render(texts, recs[..i + 1]) ==
            Render(texts, recs[..i]) + Slice(texts, recs[i].buf, recs[i].start, recs[i].length)
  {
    hide Slice;
    assert recs[..i + 1] == recs[..i] + [recs[i]];
    RenderConcat(texts, recs[..i], [recs[i]]);
    assert [recs[i]][1..] == [];
  }

  function EditOf(texts: Texts, o: Op): Edit {
    Edit(o.pos, o.pos + RecsLen(o.del), Render(texts, o.ins))
  }

  function EditsOf(texts: Texts, ops: seq<Op>): seq<Edit> {
    seq(|ops|, i requires 0 <= i < |ops| => EditOf(texts, ops[i]))
  }

  /** None is Go's nil: no history to send. */
  method EditsSince(s: Session, since: nat) returns (r: Option<seq<Edit>>)
    ensures r == if s.OpsSince(since) == [] then None else Some(EditsOf(s.texts, s.OpsSince(since)))
  {
    var ops := s.OpsSince(since);
    if |ops| == 0 {
      return None;
    }
    var edits: seq<Edit> := [];
    assert ops[..0] == [];
    for i := 0 to |ops|
      invariant edits == EditsOf(s.texts, ops[..i])
    {
      assert ops[..i + 1][..i] == ops[..i];
      var text := RecsText(s.texts, ops[i].ins);
      edits := edits + [Edit(ops[i].pos, ops[i].pos + RecsLen(ops[i].del), text)];
    }
    assert ops[..|ops|] == ops;
    r := Some(edits);
  }

  /** Edits applied in order, each to the text its predecessors left; past-the-end clamps. */
  function ApplyEdits(text: Bytes, edits: seq<Edit>): Bytes {
    if edits == [] then text
    else
      var e := edits[|edits| - 1];
      Splice(ApplyEdits(text, edits[..|edits| - 1]), e.start, if e.end < e.start then 0 else e.end - e.start, e.text)
  }

  lemma {:induction false} EditsFollowReplay(texts: Texts, ps: seq<Piece>, ops: seq<Op>)
    requires AllInStore(texts, ps) && OpsInStore(texts, ops)
    ensures ApplyEdits(Render(texts, ps), EditsOf(texts, ops)) == Render(texts, Replay(ps, ops))
  {
    hide Apply, Render, Splice;
    if ops != [] {
      var pre, o := ops[..|ops| - 1], ops[|ops| - 1];
      EditsFollowReplay(texts, ps, pre);
      ReplayInStore(texts, ps, pre);
      ApplyRenders(texts, Replay(ps, pre), o);
      assert EditsOf(texts, ops)[..|ops| - 1] == EditsOf(texts, pre);
    }
  }

  ghost predicate Journaled(s: Session) {
    && 0 < |s.texts| && s.origLen <= |s.texts[0]|
    && OpsInStore(s.texts, s.journal)
  }

  /** The window's edits turn the text at `since` into the text now: edits, undo ops
      and redo ops alike. */
  lemma WindowReachesPresent(s: Session, since: nat)
    requires Journaled(s) && since <= |s.journal|
    ensures ApplyEdits(s.TextAt(since), EditsOf(s.texts, s.OpsSince(since))) == s.TextAt(|s.journal|)
  {
    hide Render, Replay, ApplyEdits, EditsOf;
    var n := |s.journal|;
    BaseInStore(s);
    OpsSincePrefix(s, since);
    ReplayInStore(s.texts, BasePieces(s.origLen), s.journal[..since]);
    EditsFollowReplay(s.texts, Replay(BasePieces(s.origLen), s.journal[..since]), s.OpsSince(since));
    ReplaySplit(BasePieces(s.origLen), s.journal[..since], s.OpsSince(since));
    assert s.journal[..n] == s.journal;
  }

  lemma OpsSincePrefix(s: Session, since: nat)
    requires since <= |s.journal| && OpsInStore(s.texts, s.journal)
    ensures s.journal[..since] + s.OpsSince(since) == s.journal
    ensures OpsInStore(s.texts, s.journal[..since]) && OpsInStore(s.texts, s.OpsSince(since))
  {
  }

  lemma EditsOfJoin(texts: Texts, a: seq<Op>, b: seq<Op>)
    ensures EditsOf(texts, a + b) == EditsOf(texts, a) + EditsOf(texts, b)
  {
    hide EditOf;
  }

  lemma {:induction false} ApplyJoined(text: Bytes, a: seq<Edit>, b: seq<Edit>)
    ensures ApplyEdits(text, a + b) == ApplyEdits(ApplyEdits(text, a), b)
  {
    hide Splice;
    if b == [] {
      assert a + b == a;
    } else {
      assert (a + b)[..|a + b| - 1] == a + b[..|b| - 1];
      ApplyJoined(text, a, b[..|b| - 1]);
    }
  }

  /** Two windows read back to back are the window that spans them. */
  lemma WindowsCompose(texts: Texts, text: Bytes, a: seq<Op>, b: seq<Op>)
    ensures EditsOf(texts, a + b) == EditsOf(texts, a) + EditsOf(texts, b)
    ensures ApplyEdits(text, EditsOf(texts, a + b)) == ApplyEdits(ApplyEdits(text, EditsOf(texts, a)), EditsOf(texts, b))
  {
    hide EditsOf, ApplyEdits;
    EditsOfJoin(texts, a, b);
    ApplyJoined(text, EditsOf(texts, a), EditsOf(texts, b));
  }

  // ---------- Ranged changes ----------

  const MAX_INCREMENTAL_EDITS := 64

  /** One content change: a whole document, or a range of the document so far. */
  datatype Change = Whole(text: Bytes) | Range(lo: nat, hi: nat, text: Bytes)

  function Receive(copy: Bytes, c: Change): Bytes {
    match c
    case Whole(text) => text
    case Range(lo, hi, text) => copy[..Min(lo, |copy|)] + text + copy[Min(if hi < lo then lo else hi, |copy|)..]
  }

  function ReceiveAll(copy: Bytes, cs: seq<Change>): Bytes {
    if cs == [] then copy else Receive(ReceiveAll(copy, cs[..|cs| - 1]), cs[|cs| - 1])
  }

  /** Where a byte offset lands after a trip through a UTF-16 position: itself, or a
      neighbouring rune boundary. Only this much is known of it. */
  ghost predicate SnapOk(snap: (Bytes, nat) -> nat) {
    && (forall t: Bytes, o: nat :: snap(t, o) <= |t|)
    && (forall t: Bytes, o: nat, p: nat :: o <= p ==> snap(t, o) <= snap(t, p))
  }

  predicate Nothing(e: Edit) {
    e.start == e.end && e.text == []
  }

  /** The text after the ranges `edits` convert to, or none when one does not fit. */
  function Converted(before: Bytes, edits: seq<Edit>, snap: (Bytes, nat) -> nat): Option<Bytes>
    requires SnapOk(snap)
  {
    if edits == [] then Some(before)
    else match Converted(before, edits[..|edits| - 1], snap)
         case None => None
         case Some(working) =>
           var e := edits[|edits| - 1];
           if Nothing(e) then Some(working)
           else if e.end < e.start || e.end > |working| then None
           else Some(working[..snap(working, e.start)] + e.text + working[snap(working, e.end)..])
  }

  lemma {:induction false} ConvertedFails(before: Bytes, edits: seq<Edit>, snap: (Bytes, nat) -> nat, n: nat)
    requires SnapOk(snap) && n <= |edits| && Converted(before, edits[..n], snap) == None
    ensures Converted(before, edits, snap) == None
    decreases |edits| - n
  {
    if n == |edits| {
      assert edits[..n] == edits;
    } else {
      assert edits[..n + 1][..n] == edits[..n];
      ConvertedFails(before, edits, snap, n + 1);
    }
  }

  /** One edit that ends before it starts, or past the text its predecessors left, refuses
      the whole list; one that changes nothing is skipped wherever it stands. */
  lemma MisfitRefused(before: Bytes, edits: seq<Edit>, snap: (Bytes, nat) -> nat, i: nat)
    requires SnapOk(snap) && i < |edits| && Converted(before, edits[..i], snap).Some?
    ensures var e, working := edits[i], Converted(before, edits[..i], snap).value;
            && (e.start == e.end && e.text == [] ==> Converted(before, edits[..i + 1], snap) == Some(working))
            && (!(e.start == e.end && e.text == []) && (e.end < e.start || e.end > |working|) ==> Converted(before, edits, snap) == None)
  {
    var e, working := edits[i], Converted(before, edits[..i], snap).value;
    assert edits[..i + 1][..i] == edits[..i];
    if !(e.start == e.end && e.text == []) && (e.end < e.start || e.end > |working|) {
      ConvertedFails(before, edits, snap, i + 1);
    }
  }

  /** Ranges are sent only when the server's copy is certain to end as the buffer. */
  method IncrementalChanges(before: Bytes, edits: Option<seq<Edit>>, after: Bytes, snap: (Bytes, nat) -> nat)
    returns (r: Option<seq<Change>>)
    requires SnapOk(snap)
    ensures r.Some? ==> ReceiveAll(before, r.value) == after
    ensures r.Some? <==> edits.Some? && |edits.value| <= MAX_INCREMENTAL_EDITS &&
                         Converted(before, edits.value, snap) == Some(after)
  {
    if edits.None? || |edits.value| > MAX_INCREMENTAL_EDITS {
      return None;
    }
    var es := edits.value;
    var working := before;
    var changes: seq<Change> := [];
    assert es[..0] == [];
    for i := 0 to |es|
      invariant Converted(before, es[..i], snap) == Some(working)
      invariant ReceiveAll(before, changes) == working
    {
      assert es[..i + 1][..i] == es[..i];
      var e := es[i];
      if e.start == e.end && e.text == [] {
        continue;
      }
      if e.end < e.start || e.end > |working| {
        ConvertedFails(before, es, snap, i + 1);
        return None;
      }
      var lo, hi := snap(working, e.start), snap(working, e.end);
      assert (changes + [Range(lo, hi, e.text)])[..|changes|] == changes;
      changes := changes + [Range(lo, hi, e.text)];
      working := working[..lo] + e.text + working[hi..];
    }
    assert es[..|es|] == es;
    if working != after {
      return None;
    }
    r := Some(changes);
  }

  // ---------- The tracker ----------

  datatype SyncKind = SyncNone | SyncFull | SyncIncremental

  datatype Tracked = Tracked(version: int, text: Bytes)

  /** `open` is what the editor believes it told the server; `server` is what the
      messages sent so far made of the server's copies. */
  class Sync {
    const kind: SyncKind
    var open: map<string, Tracked>
    var server: map<string, Bytes>

    constructor (kind: SyncKind)
      ensures this.kind == kind && open == map[] && server == map[]
    {
      this.kind, open, server := kind, map[], map[];
    }

    ghost predicate Valid()
      reads this
    {
      && open.Keys == server.Keys
      && forall uri :: uri in open ==> server[uri] == open[uri].text
    }

    /** A second open of the same document sends nothing and records nothing. */
    method Open(uri: string, text: Bytes, version: int)
      requires Valid()
      modifies this
      ensures Valid()
      ensures uri in old(open) ==> open == old(open) && server == old(server)
      ensures uri !in old(open) ==> open == old(open)[uri := Tracked(version, text)] && server == old(server)[uri := text]
    {
      if uri in open {
        return;
      }
      open := open[uri := Tracked(version, text)];
      server := server[uri := text];
    }

    method Notify(uri: string, changes: seq<Change>)
      requires uri in server
      modifies this`server
      ensures server == old(server)[uri := ReceiveAll(old(server)[uri], changes)]
    {
      var copy := server[uri];
      for i := 0 to |changes|
        invariant copy == ReceiveAll(server[uri], changes[..i])
        invariant server == old(server)
      {
        assert changes[..i + 1][..i] == changes[..i];
        copy := Receive(copy, changes[i]);
      }
      assert changes[..|changes|] == changes;
      server := server[uri := copy];
    }

    /** However wrong `edits` is, the server's copy ends as `text`: a range is sent only
        after the replay reproduced the buffer, and anything else sends it whole. */
    method Change(uri: string, text: Bytes, version: int, edits: Option<seq<Edit>>, snap: (Bytes, nat) -> nat)
      requires Valid() && SnapOk(snap)
      modifies this
      ensures Valid()
      ensures kind == SyncNone || uri !in old(open) ==> open == old(open) && server == old(server)
      ensures kind != SyncNone && uri in old(open) ==>
                open == old(open)[uri := Tracked(version, text)] && server == old(server)[uri := text]
    {
      if kind == SyncNone {
        return;
      }
      if uri !in open {
        return;
      }
      var last := open[uri];
      if version == last.version && text == last.text {
        return;
      }
      open := open[uri := Tracked(version, text)];
      var changes := [Whole(text)];
      assert changes[..0] == [];
      if kind == SyncIncremental && version > last.version {
        var ranged := IncrementalChanges(last.text, edits, text, snap);
        if ranged.Some? {
          if |ranged.value| == 0 {
            assert last.text == text;
            return;
          }
          changes := ranged.value;
        }
      }
      Notify(uri, changes);
    }

    method Close(uri: string)
      requires Valid()
      modifies this
      ensures Valid()
      ensures open == old(open) - {uri} && server == old(server) - {uri}
    {
      open := open - {uri};
      server := server - {uri};
    }

    /** Brings the server up to a buffer; `noted` says whether a notification dated the
        diagnostics that were already there. */
    method SyncDoc(uri: string, s: Session, snap: (Bytes, nat) -> nat) returns (noted: bool)
      requires Valid() && SnapOk(snap)
      modifies this
      ensures Valid()
      ensures kind != SyncNone ==> open == old(open)[uri := Tracked(|s.journal|, s.Text())]
      ensures kind != SyncNone ==> server == old(server)[uri := s.Text()]
      ensures kind == SyncNone && uri in old(open) ==> open == old(open) && server == old(server)
      ensures !noted <==> uri in old(open) && old(open)[uri] == Tracked(|s.journal|, s.Text())
    {
      var text, version := s.Text(), |s.journal|;
      if uri !in open {
        Open(uri, text, version);
        return true;
      }
      var last := open[uri];
      if version == last.version && text == last.text {
        return false;
      }
      var edits := None;
      if last.version >= 0 {
        edits := EditsSince(s, last.version);
      }
      Change(uri, text, version, edits, snap);
      noted := true;
    }

    /** The idle tick: an unknown pane is opened when it is dirty, a known one is pushed
        when its version has moved, and nothing else is touched. So a dirty pane, and one
        the server knows from an earlier moment of the session, is current afterwards. */
    method SyncDirtyPane(uri: string, s: Session, dirty: bool, snap: (Bytes, nat) -> nat)
      requires Valid() && SnapOk(snap)
      modifies this
      ensures Valid()
      ensures !(if uri in old(open) then old(open)[uri].version != |s.journal| else dirty) ==>
                open == old(open) && server == old(server)
      ensures kind != SyncNone && (if uri in old(open) then old(open)[uri].version != |s.journal| else dirty) ==>
                open == old(open)[uri := Tracked(|s.journal|, s.Text())] && server == old(server)[uri := s.Text()]
      ensures kind != SyncNone && s.Valid() && (uri in old(open) ==> Dated(old(open)[uri], s)) && (dirty || uri in old(open)) ==>
                && uri in open && open[uri] == Tracked(|s.journal|, s.Text())
                && uri in server && server[uri] == s.Text()
    {
      if NeedsSync(uri in open, dirty, if uri in open then open[uri].version else 0, |s.journal|) {
        var _ := SyncDoc(uri, s, snap);
      } else if uri in open && s.Valid() && Dated(open[uri], s) {
        UnmovedIsCurrent(open[uri], s, dirty);
      }
    }
  }

  predicate NeedsSync(open: bool, dirty: bool, syncedVersion: int, bufVersion: int) {
    (!open && dirty) || (open && syncedVersion != bufVersion)
  }

  // ---------- A document over one session ----------

  /** What the tracker holds for a document was the buffer's text at the version it
      names, for the session the buffer still has. */
  ghost predicate Dated(t: Tracked, s: Session) {
    0 <= t.version <= |s.journal| && t.text == s.TextAt(t.version)
  }

  /** Stores and journal only grow between two syncs. */
  ghost predicate Later(s: Session, s': Session) {
    && s.Valid() && s'.Valid()
    && Extends(s.texts, s'.texts) && s.texts[0] == s'.texts[0] && s.journal <= s'.journal
  }

  /** A dated copy stays dated while the buffer is edited. */
  lemma DatedStays(t: Tracked, s: Session, s': Session)
    requires Dated(t, s) && Later(s, s')
    ensures Dated(t, s')
  {
    assert JournalInStore(s.texts, s.journal) by {
      forall i | 0 <= i < |s.journal| ensures OpInStore(s.texts, s.journal[i]) {
        assert s.ValidOp(i);
      }
    }
    TextAtStable(s, s', t.version);
  }

  /** What `SyncDoc` records is dated. */
  lemma SyncedIsDated(s: Session)
    requires s.Valid()
    ensures Dated(Tracked(|s.journal|, s.Text()), s)
  {
  }

  /** So the idle tick's version compare is enough: over one session, an open document
      it leaves alone already has the buffer's text. */
  lemma UnmovedIsCurrent(t: Tracked, s: Session, dirty: bool)
    requires s.Valid() && Dated(t, s) && !NeedsSync(true, dirty, t.version, |s.journal|)
    ensures t.text == s.Text()
  {
  }

  // ---------- A copy fed windows only ----------

  /** The text a receiver holds and the version it last heard of. */
  datatype Mirror = Mirror(version: nat, text: Bytes)

  /** One moment of a run: the session as it then was, and whether a window was sent. */
  datatype Moment = Moment(session: Session, told: bool)

  /** The first moment opens the document; later ones see the session only grow. */
  ghost predicate History(run: seq<Moment>) {
    && run != []
    && (if |run| == 1 then run[0].session.Valid()
        else History(run[..|run| - 1]) && Later(run[|run| - 2].session, run[|run| - 1].session))
  }

  /** Opened once with the whole text and never sent anything but windows. */
  function MirrorOf(run: seq<Moment>): Mirror
    requires run != []
  {
    var s := run[|run| - 1].session;
    if |run| == 1 then Mirror(|s.journal|, s.Text())
    else
      var m := MirrorOf(run[..|run| - 1]);
      if run[|run| - 1].told then
        Mirror(|s.journal|, ApplyEdits(m.text, EditsOf(s.texts, s.OpsSince(m.version))))
      else m
  }

  /** The last moment something was sent. */
  function LastTold(run: seq<Moment>): (k: nat)
    requires run != []
    ensures k < |run| && (k == 0 || run[k].told)
    ensures forall i :: k < i < |run| ==> !run[i].told
  {
    if |run| == 1 || run[|run| - 1].told then |run| - 1 else LastTold(run[..|run| - 1])
  }

  lemma ValidJournaled(s: Session)
    requires s.Valid()
    ensures Journaled(s) && s.TextAt(|s.journal|) == s.Text()
  {
    SyncedIsDated(s);
    forall i | 0 <= i < |s.journal| ensures AllInStore(s.texts, s.journal[i].ins) {
      assert s.ValidOp(i);
    }
  }

  /** The whole document is needed once: after that, windows read at whatever moments
      leave the receiver with the text of the last moment one was sent, which is still
      the session's text at the version it names. */
  lemma {:induction false} MirrorHoldsLastSent(run: seq<Moment>)
    requires History(run)
    ensures var m, sent := MirrorOf(run), run[LastTold(run)].session;
            && m == Mirror(|sent.journal|, sent.Text())
            && Dated(Tracked(m.version, m.text), run[|run| - 1].session)
  {
    hide Session.Valid, ApplyEdits, EditsOf;
    var n := |run| - 1;
    var s := run[n].session;
    if n == 0 {
      SyncedIsDated(s);
    } else {
      var pre := run[..n];
      MirrorHoldsLastSent(pre);
      var m := MirrorOf(pre);
      assert pre[n - 1] == run[n - 1];
      DatedStays(Tracked(m.version, m.text), run[n - 1].session, s);
      ValidJournaled(s);
      if run[n].told {
        WindowReachesPresent(s, m.version);
        SyncedIsDated(s);
      }
    }
  }

  // ---------- When ranges are sent ----------

  /** Every op removes bytes that were there. */
  ghost predicate InBounds(s: Session) {
    forall i :: 0 <= i < |s.journal| ==>
      s.journal[i].pos + RecsLen(s.journal[i].del) <= |s.TextAt(i)|
  }

  /** No edit's edge falls inside a rune of the text it applies to. */
  ghost predicate EdgesHold(text: Bytes, edits: seq<Edit>, snap: (Bytes, nat) -> nat) {
    forall i :: 0 <= i < |edits| ==>
      var t := ApplyEdits(text, edits[..i]);
      snap(t, edits[i].start) == edits[i].start && snap(t, edits[i].end) == edits[i].end
  }

  ghost predicate EditsFit(text: Bytes, edits: seq<Edit>) {
    forall i :: 0 <= i < |edits| ==> edits[i].start <= edits[i].end <= |ApplyEdits(text, edits[..i])|
  }

  lemma FitsButLast(text: Bytes, edits: seq<Edit>, snap: (Bytes, nat) -> nat)
    requires edits != [] && EdgesHold(text, edits, snap) && EditsFit(text, edits)
    ensures EdgesHold(text, edits[..|edits| - 1], snap) && EditsFit(text, edits[..|edits| - 1])
  {
    hide ApplyEdits;
    var pre := edits[..|edits| - 1];
    assert forall i :: 0 <= i < |pre| ==> pre[..i] == edits[..i];
  }

  lemma LastFits(text: Bytes, edits: seq<Edit>, snap: (Bytes, nat) -> nat)
    requires edits != [] && EdgesHold(text, edits, snap) && EditsFit(text, edits)
    ensures var e, working := edits[|edits| - 1], ApplyEdits(text, edits[..|edits| - 1]);
            e.start <= e.end <= |working| && snap(working, e.start) == e.start && snap(working, e.end) == e.end
  {
    hide ApplyEdits;
  }

  lemma {:induction false} ConvertedIsApplied(text: Bytes, edits: seq<Edit>, snap: (Bytes, nat) -> nat)
    requires SnapOk(snap) && EdgesHold(text, edits, snap) && EditsFit(text, edits)
    ensures Converted(text, edits, snap) == Some(ApplyEdits(text, edits))
  {
    hide SnapOk, EdgesHold, EditsFit;
    if edits != [] {
      var pre, e := edits[..|edits| - 1], edits[|edits| - 1];
      FitsButLast(text, edits, snap);
      ConvertedIsApplied(text, pre, snap);
      var working := ApplyEdits(text, pre);
      LastFits(text, edits, snap);
      if Nothing(e) {
        assert Splice(working, e.start, 0, []) == working;
      }
    }
  }

  /** The window `editsSince` reads always passes the tracker's replay check when it is
      short enough and cuts no rune, so such a sync sends ranges, not the document. */
  lemma WindowSendsRanges(s: Session, since: nat, snap: (Bytes, nat) -> nat)
    requires SnapOk(snap) && Journaled(s) && InBounds(s) && since <= |s.journal|
    requires EdgesHold(s.TextAt(since), EditsOf(s.texts, s.OpsSince(since)), snap)
    ensures Converted(s.TextAt(since), EditsOf(s.texts, s.OpsSince(since)), snap) == Some(s.TextAt(|s.journal|))
  {
    WindowReachesPresent(s, since);
    var text, ops := s.TextAt(since), s.OpsSince(since);
    var edits := EditsOf(s.texts, ops);
    assert EditsFit(text, edits) by {
      forall i | 0 <= i < |edits| ensures edits[i].start <= edits[i].end <= |ApplyEdits(text, edits[..i])| {
        WindowPrefix(s, since, i);
      }
    }
    ConvertedIsApplied(text, edits, snap);
  }

  lemma WindowPrefix(s: Session, since: nat, i: nat)
    requires Journaled(s) && InBounds(s) && since <= |s.journal| && i < |s.OpsSince(since)|
    ensures var edits := EditsOf(s.texts, s.OpsSince(since));
            && edits[i] == EditOf(s.texts, s.journal[since + i])
            && ApplyEdits(s.TextAt(since), edits[..i]) == s.TextAt(since + i)
            && edits[i].start <= edits[i].end <= |ApplyEdits(s.TextAt(since), edits[..i])|
  {
    hide Render, Replay, ApplyEdits, RecsLen;
    var ops := s.OpsSince(since);
    var base := BasePieces(s.origLen);
    assert EditsOf(s.texts, ops)[..i] == EditsOf(s.texts, ops[..i]);
    BaseInStore(s);
    OpsSincePrefix(s, since);
    ReplayInStore(s.texts, base, s.journal[..since]);
    EditsFollowReplay(s.texts, Replay(base, s.journal[..since]), ops[..i]);
    ReplaySplit(base, s.journal[..since], ops[..i]);
    assert s.journal[..since] + ops[..i] == s.journal[..since + i];
  }
}
