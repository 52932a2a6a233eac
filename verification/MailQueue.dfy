/** The mail plugin: which session owns a raj key, and what becomes of each message. */
module MailQueue {

  type Key = string
  type Session = string
  /** A message as it is queued: already rendered for the agent. */
  type Msg = string

  datatype Source = Register | Use

  /** The plugin's own maps and sets. */
  datatype Maps = Maps(owner: map<Key, Session>, active: set<Key>, keyOf: map<Session, Key>,
                       busy: set<Session>, pending: map<Session, seq<Msg>>)

  function Queue(c: Maps, s: Session): seq<Msg> {
    if s in c.pending then c.pending[s] else []
  }

  /** Whether `learn` attaches the key: nobody else owns it, a use does not displace a
      key the session has, and it is not the key the session already has. */
  predicate Binds(c: Maps, s: Session, key: Key, source: Source) {
    && (key in c.owner ==> c.owner[key] == s)
    && (s in c.keyOf ==> c.keyOf[s] != key && source == Register)
  }

  function Retired(c: Maps, s: Session): set<Key> {
    if s in c.keyOf then {c.keyOf[s]} else {}
  }

  function Learned(c: Maps, s: Session, key: Key, source: Source): Maps {
    if !Binds(c, s, key, source) then c
    else c.(active := c.active - Retired(c, s) + {key}, keyOf := c.keyOf[s := key], owner := c.owner[key := s])
  }

  predicate StartsListener(c: Maps, s: Session, key: Key, source: Source) {
    Binds(c, s, key, source) && key !in c.active - Retired(c, s)
  }

  function Queued(c: Maps, s: Session, mail: seq<Msg>): Maps {
    c.(pending := c.pending[s := Queue(c, s) + mail])
  }

  /** The batch a flush takes: nothing while the session is busy. */
  function Batch(c: Maps, s: Session): seq<Msg> {
    if s in c.busy then [] else Queue(c, s)
  }

  function Flushed(c: Maps, s: Session): Maps {
    if Batch(c, s) == [] then c
    else c.(pending := c.pending - {s}, busy := c.busy + {s})
  }

  function Requeued(c: Maps, s: Session, batch: seq<Msg>): Maps {
    c.(busy := c.busy - {s}, pending := c.pending[s := batch + Queue(c, s)])
  }

  /** A tool result carries the whole queue away. */
  function Carried(c: Maps, s: Session): Maps {
    if Queue(c, s) == [] then c else c.(pending := c.pending - {s})
  }

  /** The closure's state. Each method is one stretch between awaits. */
  class Plugin {
    var owner: map<Key, Session>
    var active: set<Key>
    var keyOf: map<Session, Key>
    var busy: set<Session>
    var pending: map<Session, seq<Msg>>

    constructor ()
      ensures View() == Maps(map[], {}, map[], {}, map[])
    {
      owner, active, keyOf, busy, pending := map[], {}, map[], {}, map[];
    }

    function View(): Maps
      reads this
    {
      Maps(owner, active, keyOf, busy, pending)
    }

    /** `learn`, once it knows whether the session is a primary one. */
    method Learn(session: Session, key: Key, source: Source, primary: bool) returns (starts: bool)
      modifies this
      ensures View() == if primary then Learned(old(View()), session, key, source) else old(View())
      ensures starts <==> primary && StartsListener(old(View()), session, key, source)
    {
      if !primary {
        return false;
      }
      if key in owner && owner[key] != session {
        return false;
      }
      if source == Use && session in keyOf && keyOf[session] != key {
        return false;
      }
      if session in keyOf {
        if keyOf[session] == key {
          return false;
        }
        active := active - {keyOf[session]};
      }
      keyOf := keyOf[session := key];
      owner := owner[key := session];
      if key in active {
        return false;
      }
      active := active + {key};
      return true;
    }

    /** One answer of a parked `recv`: queued for the key's owner, then flushed. A key
        without an owner drops its mail. */
    method Receive(key: Key, mail: seq<Msg>) returns (batch: seq<Msg>)
      modifies this
      ensures key !in old(owner) || mail == [] ==> View() == old(View()) && batch == []
      ensures key in old(owner) && mail != [] ==>
                var s := old(owner)[key];
                && View() == Flushed(Queued(old(View()), s, mail), s)
                && batch == Batch(Queued(old(View()), s, mail), s)
    {
      if key !in owner || mail == [] {
        return [];
      }
      var session := owner[key];
      var queue := if session in pending then pending[session] else [];
      for k := 0 to |mail|
        invariant queue == Queue(old(View()), session) + mail[..k]
      {
        queue := queue + [mail[k]];
      }
      assert mail[..|mail|] == mail;
      pending := pending[session := queue];
      batch := Flush(session);
    }

    method Flush(session: Session) returns (batch: seq<Msg>)
      modifies this
      ensures View() == Flushed(old(View()), session) && batch == Batch(old(View()), session)
    {
      if session in busy {
        return [];
      }
      if session !in pending || pending[session] == [] {
        return [];
      }
      batch := pending[session];
      pending := pending - {session};
      busy := busy + {session};
    }

    /** The prompt's `catch`. */
    method Refused(session: Session, batch: seq<Msg>)
      modifies this
      ensures View() == Requeued(old(View()), session, batch)
    {
      busy := busy - {session};
      pending := pending[session := batch + if session in pending then pending[session] else []];
    }

    method Idle(session: Session) returns (batch: seq<Msg>)
      modifies this
      ensures var free := old(View()).(busy := old(busy) - {session});
              View() == Flushed(free, session) && batch == Batch(free, session)
    {
      busy := busy - {session};
      batch := Flush(session);
    }

    /** A tool result: `textual` says whether its output is a string. */
    method ToolAfter(session: Session, textual: bool) returns (carried: seq<Msg>)
      modifies this
      ensures View() == if textual then Carried(old(View()), session) else old(View())
      ensures carried == if textual then Queue(old(View()), session) else []
    {
      carried := [];
      if session in pending && pending[session] != [] && textual {
        carried := pending[session];
        pending := pending - {session};
      }
    }
  }

  // ---------- Runs ----------

  datatype Flight = Flight(session: Session, batch: seq<Msg>)

  /** The plugin, the listen loops alive for each key, the prompts not yet settled, and
      the history: what each session was sent, what it was given, and what was dropped. */
  datatype World = World(maps: Maps, loops: multiset<Key>, flights: seq<Flight>,
                         received: map<Session, multiset<Msg>>, given: map<Session, multiset<Msg>>,
                         dropped: multiset<Msg>, refused: set<Session>)

  datatype Event =
    | Learn(session: Session, key: Key, source: Source, primary: bool)
    | Mail(key: Key, mail: seq<Msg>)
    | Retire(key: Key)
    | Idle(session: Session)
    | Busy(session: Session)
    | ToolAfter(session: Session, textual: bool)
    | Accepted(flight: nat)
    | Refused(flight: nat)

  function Tally(m: map<Session, multiset<Msg>>, s: Session): multiset<Msg> {
    if s in m then m[s] else multiset{}
  }

  function Add(m: map<Session, multiset<Msg>>, s: Session, mail: seq<Msg>): map<Session, multiset<Msg>> {
    m[s := Tally(m, s) + multiset(mail)]
  }

  function Prompted(flights: seq<Flight>, s: Session, batch: seq<Msg>): seq<Flight> {
    if batch == [] then flights else flights + [Flight(s, batch)]
  }

  function Without(flights: seq<Flight>, i: nat): seq<Flight>
    requires i < |flights|
  {
    flights[..i] + flights[i + 1..]
  }

  /** A flush of a session that has just been queued to, or has just become idle. */
  function Flush(w: World, c: Maps, s: Session): World {
    w.(maps := Flushed(c, s), flights := Prompted(w.flights, s, Batch(c, s)),
       refused := if Batch(c, s) == [] then w.refused else w.refused - {s})
  }

  predicate Enabled(w: World, e: Event) {
    match e
    case Mail(key, _) => key in w.loops
    case Retire(key) => key in w.loops && key !in w.maps.active
    case Accepted(i) => i < |w.flights|
    case Refused(i) => i < |w.flights|
    case _ => true
  }

  function Next(w: World, e: Event): World
    requires Enabled(w, e)
  {
    var c := w.maps;
    match e
    case Learn(s, key, source, primary) =>
      if !primary then w
      else w.(maps := Learned(c, s, key, source),
              loops := if StartsListener(c, s, key, source) then w.loops + multiset{key} else w.loops)
    case Mail(key, mail) =>
      if key !in c.owner then w.(dropped := w.dropped + multiset(mail))
      else if mail == [] then w
      else
        var s := c.owner[key];
        Flush(w.(received := Add(w.received, s, mail)), Queued(c, s, mail), s)
    case Retire(key) => w.(loops := w.loops - multiset{key})
    case Idle(s) => Flush(w, c.(busy := c.busy - {s}), s)
    case Busy(s) => w.(maps := c.(busy := c.busy + {s}))
    case ToolAfter(s, textual) =>
      if !textual then w
      else w.(maps := Carried(c, s), given := Add(w.given, s, Queue(c, s)))
    case Accepted(i) =>
      w.(flights := Without(w.flights, i), given := Add(w.given, w.flights[i].session, w.flights[i].batch))
    case Refused(i) =>
      var f := w.flights[i];
      w.(flights := Without(w.flights, i), maps := Requeued(c, f.session, f.batch), refused := w.refused + {f.session})
  }

  predicate Initial(w: World) {
    w == World(Maps(map[], {}, map[], {}, map[]), multiset{}, [], map[], map[], multiset{}, {})
  }

  // ---------- Ownership ----------

  /** A session's key is its own, an owner has a key, and the active keys are the
      sessions' current keys. */
  ghost predicate Owned(c: Maps) {
    && (forall s :: s in c.keyOf ==> c.keyOf[s] in c.owner && c.owner[c.keyOf[s]] == s)
    && (forall k :: k in c.owner ==> c.owner[k] in c.keyOf)
    && forall k :: k in c.active <==> k in c.owner && c.owner[k] in c.keyOf && c.keyOf[c.owner[k]] == k
  }

  lemma LearnedOwned(c: Maps, s: Session, key: Key, source: Source)
    requires Owned(c)
    ensures Owned(Learned(c, s, key, source))
  {
  }

  ghost predicate Listening(w: World) {
    && (forall k :: k in w.loops ==> k in w.maps.owner)
    && forall k :: k in w.maps.active ==> k in w.loops
  }

  // ---------- Conservation ----------

  function InFlight(flights: seq<Flight>, s: Session): multiset<Msg> {
    if flights == [] then multiset{}
    else
      var last := flights[|flights| - 1];
      InFlight(flights[..|flights| - 1], s) + if last.session == s then multiset(last.batch) else multiset{}
  }

  /** Everything a session was sent is queued, in flight or given, each once. */
  predicate Kept(w: World, s: Session) {
    Tally(w.received, s) == multiset(Queue(w.maps, s)) + InFlight(w.flights, s) + Tally(w.given, s)
  }

  ghost predicate Conserved(w: World) {
    w.dropped == multiset{} && forall s :: Kept(w, s)
  }

  /** Mail waits only at a busy session, or at one whose last prompt was refused. */
  ghost predicate Waiting(w: World) {
    forall s :: Queue(w.maps, s) != [] ==> s in w.maps.busy || s in w.refused
  }

  ghost predicate Inv(w: World) {
    Owned(w.maps) && Listening(w) && Conserved(w) && Waiting(w)
  }

  lemma {:induction false} InFlightWithout(flights: seq<Flight>, i: nat, s: Session)
    requires i < |flights|
    ensures InFlight(flights, s) == InFlight(Without(flights, i), s)
              + if flights[i].session == s then multiset(flights[i].batch) else multiset{}
  {
    hide InFlight;
    var n := |flights| - 1;
    var init, last := flights[..n], flights[n];
    assert flights == init + [last];
    InFlightAdd(init, last, s);
    if i == n {
      assert Without(flights, i) == init;
    } else {
      InFlightWithout(init, i, s);
      assert Without(flights, i) == Without(init, i) + [last];
      InFlightAdd(Without(init, i), last, s);
    }
  }

  lemma InFlightAdd(flights: seq<Flight>, f: Flight, s: Session)
    ensures InFlight(flights + [f], s) == InFlight(flights, s) + if f.session == s then multiset(f.batch) else multiset{}
  {
    assert (flights + [f])[..|flights|] == flights;
  }

  lemma InFlightPrompted(flights: seq<Flight>, t: Session, batch: seq<Msg>, s: Session)
    ensures InFlight(Prompted(flights, t, batch), s) == InFlight(flights, s) + if s == t then multiset(batch) else multiset{}
  {
    if batch != [] {
      assert (flights + [Flight(t, batch)])[..|flights|] == flights;
    }
  }

  /** A flush only moves the queue into a prompt. */
  lemma FlushKeeps(w: World, c: Maps, t: Session, s: Session)
    requires Tally(w.received, s) == multiset(Queue(c, s)) + InFlight(w.flights, s) + Tally(w.given, s)
    ensures Kept(Flush(w, c, t), s)
  {
    hide InFlight, Prompted;
    InFlightPrompted(w.flights, t, Batch(c, t), s);
  }

  lemma QueuedTallies(w: World, t: Session, mail: seq<Msg>, s: Session)
    requires Kept(w, s)
    ensures Tally(Add(w.received, t, mail), s) == multiset(Queue(Queued(w.maps, t, mail), s)) + InFlight(w.flights, s) + Tally(w.given, s)
  {
    hide InFlight;
    assert s != t ==> Queue(Queued(w.maps, t, mail), s) == Queue(w.maps, s);
  }

  lemma MailKeeps(w: World, key: Key, mail: seq<Msg>, s: Session)
    requires Kept(w, s) && key in w.loops && key in w.maps.owner && mail != []
    ensures Kept(Next(w, Mail(key, mail)), s)
  {
    hide InFlight, Flushed, Batch, Prompted, Queued, Queue, Tally, Add, Kept, Flush;
    var t := w.maps.owner[key];
    QueuedTallies(w, t, mail, s);
    FlushKeeps(w.(received := Add(w.received, t, mail)), Queued(w.maps, t, mail), t, s);
  }

  /** A tool result moves the queue into what the session was given. */
  lemma CarriedKeeps(w: World, t: Session, textual: bool, s: Session)
    requires Kept(w, s)
    ensures Kept(Next(w, ToolAfter(t, textual)), s)
  {
    hide InFlight;
  }

  /** Learning, retiring and a busy mark touch no mail. */
  lemma OtherKeeps(w: World, e: Event, s: Session)
    requires Kept(w, s) && Enabled(w, e) && (e.Learn? || e.Retire? || e.Busy?)
    ensures Kept(Next(w, e), s)
  {
    hide InFlight, StartsListener, Binds;
  }

  lemma AddTally(m: map<Session, multiset<Msg>>, t: Session, mail: seq<Msg>, s: Session)
    ensures Tally(Add(m, t, mail), s) == Tally(m, s) + if s == t then multiset(mail) else multiset{}
  {
  }

  lemma RequeuedQueue(c: Maps, t: Session, batch: seq<Msg>, s: Session)
    ensures multiset(Queue(Requeued(c, t, batch), s)) == multiset(Queue(c, s)) + if s == t then multiset(batch) else multiset{}
  {
  }

  lemma AcceptedKeeps(w: World, i: nat, s: Session)
    requires Kept(w, s) && i < |w.flights|
    ensures Kept(Next(w, Accepted(i)), s)
  {
    hide InFlight, Without, Queued, Flushed, Learned, Carried, StartsListener, Flush, Queue, Tally, Add, Requeued;
    InFlightWithout(w.flights, i, s);
    AddTally(w.given, w.flights[i].session, w.flights[i].batch, s);
  }

  lemma RefusedKeeps(w: World, i: nat, s: Session)
    requires Kept(w, s) && i < |w.flights|
    ensures Kept(Next(w, Refused(i)), s)
  {
    hide InFlight, Without, Queued, Flushed, Learned, Carried, StartsListener, Flush, Queue, Tally, Add, Requeued;
    InFlightWithout(w.flights, i, s);
    RequeuedQueue(w.maps, w.flights[i].session, w.flights[i].batch, s);
  }

  lemma StepKeeps(w: World, e: Event, s: Session)
    requires Kept(w, s) && Enabled(w, e) && (e.Mail? ==> e.key in w.maps.owner)
    ensures Kept(Next(w, e), s)
  {
    hide InFlight, Without, Flushed, Batch, Prompted, Flush, Queued, Queue, Tally, Add, Carried, Requeued, Learned;
    match e
    case Mail(key, mail) => if mail != [] { MailKeeps(w, key, mail, s); }
    case Idle(t) => IdleKeeps(w, t, s);
    case Accepted(i) => AcceptedKeeps(w, i, s);
    case Refused(i) => RefusedKeeps(w, i, s);
    case ToolAfter(t, textual) => CarriedKeeps(w, t, textual, s);
    case _ => OtherKeeps(w, e, s);
  }

  lemma IdleKeeps(w: World, t: Session, s: Session)
    requires Kept(w, s)
    ensures Kept(Next(w, Idle(t)), s)
  {
    hide InFlight, Flushed, Batch, Prompted, Tally, Flush;
    FlushKeeps(w, w.maps.(busy := w.maps.busy - {t}), t, s);
  }

  lemma OwnershipStays(w: World, e: Event)
    requires Enabled(w, e) && !e.Learn?
    ensures var w' := Next(w, e);
            && w'.maps.owner == w.maps.owner && w'.maps.active == w.maps.active && w'.maps.keyOf == w.maps.keyOf
            && w'.loops == if e.Retire? then w.loops - multiset{e.key} else w.loops
  {
    hide Queue, Tally, Prompted, Without, Batch, Add, Learned, StartsListener, Binds, Flush, Queued;
    match e
    case Mail(key, mail) =>
      if key in w.maps.owner {
        var s := w.maps.owner[key];
        QueuedOwnership(w.maps, s, mail);
        FlushOwnership(w.(received := Add(w.received, s, mail)), Queued(w.maps, s, mail), s);
      }
    case Idle(s) => FlushOwnership(w, w.maps.(busy := w.maps.busy - {s}), s);
    case _ =>
  }

  lemma QueuedOwnership(c: Maps, s: Session, mail: seq<Msg>)
    ensures var c' := Queued(c, s, mail); c'.owner == c.owner && c'.active == c.active && c'.keyOf == c.keyOf
  {
  }

  lemma FlushOwnership(w: World, c: Maps, s: Session)
    ensures var w' := Flush(w, c, s);
            && w'.maps.owner == c.owner && w'.maps.active == c.active && w'.maps.keyOf == c.keyOf
            && w'.loops == w.loops
  {
    hide Batch, Prompted;
  }

  lemma RetireListening(w: World, key: Key)
    requires Listening(w) && key in w.loops && key !in w.maps.active
    ensures Listening(w.(loops := w.loops - multiset{key}))
  {
    var loops := w.loops - multiset{key};
    assert forall k :: k != key ==> loops[k] == w.loops[k];
    assert forall k :: k in loops ==> k in w.loops;
  }

  lemma LearnListening(w: World, s: Session, key: Key, source: Source)
    requires Listening(w)
    ensures Listening(Next(w, Learn(s, key, source, true)))
  {
  }

  lemma StepOwned(w: World, e: Event)
    requires Owned(w.maps) && Listening(w) && Enabled(w, e)
    ensures Owned(Next(w, e).maps) && Listening(Next(w, e))
  {
    hide Binds, StartsListener, Learned;
    if e.Learn? {
      LearnedOwned(w.maps, e.session, e.key, e.source);
      LearnListening(w, e.session, e.key, e.source);
    } else {
      OthersOwned(w, e);
    }
  }

  lemma OthersOwned(w: World, e: Event)
    requires Owned(w.maps) && Listening(w) && Enabled(w, e) && !e.Learn?
    ensures Owned(Next(w, e).maps) && Listening(Next(w, e))
  {
    hide Next;
    OwnershipStays(w, e);
    if e.Retire? {
      RetireListening(w, e.key);
    }
  }

  lemma StepWaiting(w: World, e: Event)
    requires Waiting(w) && Enabled(w, e)
    ensures Waiting(Next(w, e))
  {
  }

  lemma StepInv(w: World, e: Event)
    requires Inv(w) && Enabled(w, e)
    ensures Inv(Next(w, e))
  {
    hide Next, Owned, Waiting, Kept;
    StepOwned(w, e);
    StepWaiting(w, e);
    forall s ensures Kept(Next(w, e), s) {
      StepKeeps(w, e, s);
    }
    NothingDropped(w, e);
  }

  lemma NothingDropped(w: World, e: Event)
    requires Listening(w) && Enabled(w, e)
    ensures Next(w, e).dropped == w.dropped
  {
  }

  ghost predicate Run(ws: seq<World>, es: seq<Event>) {
    && |ws| == |es| + 1 && Initial(ws[0])
    && forall i :: 0 <= i < |es| ==> Enabled(ws[i], es[i]) && ws[i + 1] == Next(ws[i], es[i])
  }

  lemma {:induction false} RunInv(ws: seq<World>, es: seq<Event>, i: nat)
    requires Run(ws, es) && i < |ws|
    ensures Inv(ws[i])
  {
    hide Next;
    if i > 0 {
      RunInv(ws, es, i - 1);
      StepInv(ws[i - 1], es[i - 1]);
    }
  }

  /** Over every run, at every moment: no message is dropped, and every message is in its
      session's queue, in a prompt in flight and in what the session was given, taken
      together, exactly as often as it was sent. */
  lemma OnePlace(ws: seq<World>, es: seq<Event>, i: nat, s: Session)
    requires Run(ws, es) && i < |ws|
    ensures ws[i].dropped == multiset{}
    ensures multiset(Queue(ws[i].maps, s)) + InFlight(ws[i].flights, s) + Tally(ws[i].given, s) == Tally(ws[i].received, s)
  {
    RunInv(ws, es, i);
    assert Kept(ws[i], s);
  }

  /** Over every run: a session's key is owned by that session, and the active keys are
      exactly the sessions' current keys, each with a listener. */
  lemma ActiveKeysAreCurrent(ws: seq<World>, es: seq<Event>, i: nat, k: Key)
    requires Run(ws, es) && i < |ws|
    ensures forall s :: s in ws[i].maps.keyOf ==> ws[i].maps.keyOf[s] in ws[i].maps.owner && ws[i].maps.owner[ws[i].maps.keyOf[s]] == s
    ensures k in ws[i].maps.active <==> exists s :: s in ws[i].maps.keyOf && ws[i].maps.keyOf[s] == k
    ensures k in ws[i].maps.active ==> k in ws[i].loops
  {
    RunInv(ws, es, i);
  }

  /** A key's owner never changes once set. */
  lemma {:induction false} OwnerIsForever(ws: seq<World>, es: seq<Event>, i: nat, j: nat, k: Key)
    requires Run(ws, es) && i <= j < |ws| && k in ws[i].maps.owner
    ensures k in ws[j].maps.owner && ws[j].maps.owner[k] == ws[i].maps.owner[k]
  {
    hide Next;
    if i < j {
      OwnerIsForever(ws, es, i, j - 1, k);
      OwnerStep(ws[j - 1], es[j - 1], k);
    }
  }

  lemma OwnerStep(w: World, e: Event, k: Key)
    requires Enabled(w, e) && k in w.maps.owner
    ensures k in Next(w, e).maps.owner && Next(w, e).maps.owner[k] == w.maps.owner[k]
  {
  }

  /** The output of a register in the session itself. */
  predicate Registers(e: Event, s: Session) {
    e.Learn? && e.session == s && e.source == Register && e.primary
  }

  /** When `learn` attaches a key: nobody else owns it, and the session has none, or has
      this one already, or has just registered this one. The key then has an owner, is
      active and has a listener; otherwise nothing changes. */
  lemma LearnAttaches(w: World, s: Session, key: Key, source: Source)
    requires Inv(w)
    ensures var w' := Next(w, Learn(s, key, source, true));
            var free := key !in w.maps.owner || w.maps.owner[key] == s;
            if free && (s !in w.maps.keyOf || w.maps.keyOf[s] == key || source == Register)
            then
              && s in w'.maps.keyOf && w'.maps.keyOf[s] == key
              && key in w'.maps.owner && w'.maps.owner[key] == s
              && key in w'.maps.active && key in w'.loops
            else w' == w
    ensures Next(w, Learn(s, key, source, false)) == w
  {
    StepInv(w, Learn(s, key, source, true));
  }

  /** Only the output of a register moves a session that has a key; no text does. */
  lemma OnlyRegisterMoves(w: World, e: Event, s: Session)
    requires Enabled(w, e) && s in w.maps.keyOf
    ensures s in Next(w, e).maps.keyOf
    ensures Next(w, e).maps.keyOf[s] != w.maps.keyOf[s] ==> Registers(e, s)
  {
  }

  /** Over any stretch of a run in which a session registers nothing, it keeps the key it
      has, whatever keys its commands and mail mention and whatever others register. */
  lemma {:induction false} KeyMovesByRegister(ws: seq<World>, es: seq<Event>, i: nat, j: nat, s: Session)
    requires Run(ws, es) && i <= j < |ws| && s in ws[i].maps.keyOf
    requires forall k :: i <= k < j ==> !Registers(es[k], s)
    ensures s in ws[j].maps.keyOf && ws[j].maps.keyOf[s] == ws[i].maps.keyOf[s]
  {
    hide Next;
    if i < j {
      KeyMovesByRegister(ws, es, i, j - 1, s);
      OnlyRegisterMoves(ws[j - 1], es[j - 1], s);
    }
  }

  /** The session's prompt was refused at `k`, and none has been sent to it since. */
  predicate RefusedSince(ws: seq<World>, es: seq<Event>, k: nat, i: nat, s: Session)
    requires i < |ws| && |ws| == |es| + 1
  {
    && k < i && es[k].Refused? && es[k].flight < |ws[k].flights| && ws[k].flights[es[k].flight].session == s
    && forall m :: k < m < i ==> NewPrompt(ws[m], ws[m + 1], s) == []
  }

  lemma RefusedStep(w: World, e: Event, s: Session)
    requires Enabled(w, e) && s in Next(w, e).refused
    ensures (e.Refused? && w.flights[e.flight].session == s) || (s in w.refused && NewPrompt(w, Next(w, e), s) == [])
  {
    hide Binds, StartsListener, InFlight, Add, Tally, Learned, Carried, Requeued, Queued;
  }

  lemma {:induction false} RefusedWhen(ws: seq<World>, es: seq<Event>, i: nat, s: Session)
    requires Run(ws, es) && i < |ws| && s in ws[i].refused
    ensures exists k :: RefusedSince(ws, es, k, i, s)
  {
    hide Next, NewPrompt;
    if i > 0 {
      var n := i - 1;
      RefusedStep(ws[n], es[n], s);
      if es[n].Refused? && ws[n].flights[es[n].flight].session == s {
        assert RefusedSince(ws, es, n, i, s);
      } else {
        RefusedWhen(ws, es, n, s);
        var k :| RefusedSince(ws, es, k, n, s);
        assert RefusedSince(ws, es, k, i, s);
      }
    }
  }

  /** Mail that waits at an idle session waits for a refused prompt's sake: one of its
      prompts was refused, and it has been sent none since. */
  lemma StrandedOnlyByRefusal(ws: seq<World>, es: seq<Event>, i: nat, s: Session)
    requires Run(ws, es) && i < |ws| && Queue(ws[i].maps, s) != [] && s !in ws[i].maps.busy
    ensures exists k :: RefusedSince(ws, es, k, i, s)
  {
    RunInv(ws, es, i);
    RefusedWhen(ws, es, i, s);
  }

  /** When a prompt is sent, and with what: mail for an idle session sends the queue with
      the mail behind it, the end of a turn sends the queue if there is any, and nothing
      else sends one. */
  lemma PromptsExactly(w: World, e: Event, s: Session)
    requires Enabled(w, e)
    ensures var mine := e.Mail? && e.mail != [] && e.key in w.maps.owner && w.maps.owner[e.key] == s;
            NewPrompt(w, Next(w, e), s) ==
              if mine && s !in w.maps.busy then Queue(w.maps, s) + e.mail
              else if e == Idle(s) then Queue(w.maps, s)
              else []
  {
    hide Binds, StartsListener, InFlight, Add, Tally, Learned, Carried, Requeued;
  }

  /** When a session counts as busy after a step: a turn began, or a prompt was sent to it,
      or it was busy and neither did its turn end nor a prompt of its fail. */
  lemma BusyExactly(w: World, e: Event, s: Session)
    requires Enabled(w, e)
    ensures s in Next(w, e).maps.busy <==>
              || e == Busy(s)
              || NewPrompt(w, Next(w, e), s) != []
              || (s in w.maps.busy && e != Idle(s) && !(e.Refused? && w.flights[e.flight].session == s))
  {
    hide Binds, StartsListener, InFlight, Add, Tally;
  }

  /** An event that can move a session's queue: mail for it, its turn ending, a textual
      tool result in it, or another of its prompts refused. */
  predicate Stirs(w: World, e: Event, s: Session)
    requires Enabled(w, e)
  {
    match e
    case Mail(key, _) => key in w.maps.owner && w.maps.owner[key] == s
    case Idle(t) => t == s
    case ToolAfter(t, textual) => t == s && textual
    case Refused(i) => w.flights[i].session == s
    case _ => false
  }

  lemma UnstirredQueue(w: World, e: Event, s: Session)
    requires Enabled(w, e) && !Stirs(w, e, s)
    ensures Queue(Next(w, e).maps, s) == Queue(w.maps, s)
  {
    hide Binds, StartsListener, InFlight;
  }

  /** And a refusal does strand it, over every run: the batch is back at the head of the
      queue and stays there, with what had queued behind it, until new mail, the end of a
      turn, a tool result or another refusal of that session. No retry comes of itself. */
  lemma {:induction false} RefusalStrands(ws: seq<World>, es: seq<Event>, i: nat, j: nat, s: Session)
    requires Run(ws, es) && i < j < |ws| && es[i].Refused? && ws[i].flights[es[i].flight].session == s
    requires forall k :: i < k < j ==> !Stirs(ws[k], es[k], s)
    ensures Queue(ws[j].maps, s) == ws[i].flights[es[i].flight].batch + Queue(ws[i].maps, s)
  {
    hide Next, Stirs, Queue;
    if j == i + 1 {
      RefusedQueue(ws[i], es[i].flight);
    } else {
      RefusalStrands(ws, es, i, j - 1, s);
      UnstirredQueue(ws[j - 1], es[j - 1], s);
    }
  }

  lemma RefusedQueue(w: World, i: nat)
    requires i < |w.flights|
    ensures Queue(Next(w, Refused(i)).maps, w.flights[i].session) == w.flights[i].batch + Queue(w.maps, w.flights[i].session)
  {
  }

  // ---------- Order ----------

  /** What a step queues for a session. */
  function Arrives(w: World, e: Event, s: Session): seq<Msg> {
    if e.Mail? && e.key in w.maps.owner && w.maps.owner[e.key] == s then e.mail else []
  }

  /** The batch of a prompt a step has sent to the session. */
  function NewPrompt(w: World, w': World, s: Session): seq<Msg> {
    if |w'.flights| > |w.flights| && w'.flights[|w.flights|].session == s then w'.flights[|w.flights|].batch else []
  }

  /** What a step hands to it: a new prompt's batch, or the queue a tool result took. */
  function HandsOut(w: World, e: Event, w': World, s: Session): seq<Msg> {
    if e.ToolAfter? then (if e.session == s && e.textual then Queue(w.maps, s) else [])
    else NewPrompt(w, w', s)
  }

  function Arrived(ws: seq<World>, es: seq<Event>, i: nat, s: Session): seq<Msg>
    requires i < |ws| && |ws| == |es| + 1
  {
    if i == 0 then [] else Arrived(ws, es, i - 1, s) + Arrives(ws[i - 1], es[i - 1], s)
  }

  function HandedOut(ws: seq<World>, es: seq<Event>, i: nat, s: Session): seq<Msg>
    requires i < |ws| && |ws| == |es| + 1
  {
    if i == 0 then [] else HandedOut(ws, es, i - 1, s) + HandsOut(ws[i - 1], es[i - 1], ws[i], s)
  }

  lemma FlushInOrder(w: World, u: World, c: Maps, t: Session, s: Session)
    requires u.flights == w.flights
    ensures NewPrompt(w, Flush(u, c, t), s) + Queue(Flush(u, c, t).maps, s) == Queue(c, s)
  {
  }

  lemma QueuedInOrder(c: Maps, t: Session, mail: seq<Msg>, s: Session)
    ensures Queue(Queued(c, t, mail), s) == Queue(c, s) + if s == t then mail else []
  {
  }

  lemma CarriedInOrder(c: Maps, t: Session, s: Session)
    ensures Queue(Carried(c, t), s) == if s == t then [] else Queue(c, s)
  {
  }

  lemma NoPrompt(w: World, e: Event, s: Session)
    requires Enabled(w, e) && !e.Mail? && !e.Idle?
    ensures NewPrompt(w, Next(w, e), s) == []
  {
    hide Binds, StartsListener, InFlight, Add, Tally, Queue, Learned, Carried, Requeued;
  }

  lemma StepInOrder(w: World, e: Event, s: Session)
    requires Enabled(w, e) && (e.Refused? ==> w.flights[e.flight].session != s)
    ensures HandsOut(w, e, Next(w, e), s) + Queue(Next(w, e).maps, s) == Queue(w.maps, s) + Arrives(w, e, s)
  {
    hide Binds, StartsListener, InFlight, Add, Tally, Flush, Queue, Queued, NewPrompt, Carried, Learned, Without;
    match e
    case Mail(key, mail) =>
      if key !in w.maps.owner || mail == [] {
        NothingSent(w, Next(w, e), s);
      } else {
        var t := w.maps.owner[key];
        QueuedInOrder(w.maps, t, mail, s);
        FlushInOrder(w, w.(received := Add(w.received, t, mail)), Queued(w.maps, t, mail), t, s);
      }
    case Idle(t) =>
      var c := w.maps.(busy := w.maps.busy - {t});
      FlushInOrder(w, w, c, t, s);
      QueuesAreMail(c, w.maps, s);
    case ToolAfter(t, textual) => CarriedInOrder(w.maps, t, s);
    case _ =>
      NoPrompt(w, e, s);
      UnstirredQueue(w, e, s);
  }

  lemma NothingSent(w: World, w': World, s: Session)
    requires w'.flights == w.flights
    ensures NewPrompt(w, w', s) == []
  {
  }

  lemma QueuesAreMail(c: Maps, d: Maps, s: Session)
    requires c.pending == d.pending
    ensures Queue(c, s) == Queue(d, s)
  {
  }

  /** Until one of its prompts is refused, a session is given its mail in the order it came:
      what was handed out, in prompts and tool results, and then what is still queued, is
      what arrived. A refused batch goes back ahead of all that is queued. */
  lemma {:induction false} MailInOrder(ws: seq<World>, es: seq<Event>, i: nat, s: Session)
    requires Run(ws, es) && i < |ws|
    requires forall k :: 0 <= k < i && es[k].Refused? ==> ws[k].flights[es[k].flight].session != s
    ensures HandedOut(ws, es, i, s) + Queue(ws[i].maps, s) == Arrived(ws, es, i, s)
  {
    hide Next, Queue, HandsOut, Arrives;
    if i == 0 {
      NothingQueued(ws[0], s);
    } else {
      MailInOrder(ws, es, i - 1, s);
      StepInOrder(ws[i - 1], es[i - 1], s);
      var out := HandsOut(ws[i - 1], es[i - 1], ws[i], s);
      var before := HandedOut(ws, es, i - 1, s);
      assert before + out + Queue(ws[i].maps, s) == before + (out + Queue(ws[i].maps, s));
      assert before + (Queue(ws[i - 1].maps, s) + Arrives(ws[i - 1], es[i - 1], s))
          == before + Queue(ws[i - 1].maps, s) + Arrives(ws[i - 1], es[i - 1], s);
    }
  }

  lemma NothingQueued(w: World, s: Session)
    requires Initial(w)
    ensures Queue(w.maps, s) == []
  {
  }

  // ---------- One listener per key ----------

  predicate OneEach(loops: multiset<Key>) {
    forall k :: k in loops ==> loops[k] == 1
  }

  /** A step gives a key a second listener exactly when it moves a session back to a key
      it had before, by a register, while that key's retired loop is still waiting. */
  lemma SecondListener(w: World, e: Event)
    requires Inv(w) && OneEach(w.loops) && Enabled(w, e)
    ensures !OneEach(Next(w, e).loops) <==>
              && e.Learn? && e.source == Register && e.primary
              && Binds(w.maps, e.session, e.key, e.source) && e.key in w.loops
  {
    var loops := Next(w, e).loops;
    if e.Learn? && e.primary && StartsListener(w.maps, e.session, e.key, e.source) {
      assert loops == w.loops + multiset{e.key};
      assert e.key in w.loops ==> loops[e.key] == 2;
      assert forall k :: k != e.key ==> loops[k] == w.loops[k];
    } else if e.Retire? {
      assert forall k :: k != e.key ==> loops[k] == w.loops[k];
    }
  }

  /** Registering one key, then another, then the first again is such a run. */
  lemma ReturningDoublesListener(a: Key, b: Key, s: Session, w: World)
    requires a != b && Initial(w)
    ensures var w1 := Next(w, Learn(s, a, Register, true));
            var w2 := Next(w1, Learn(s, b, Register, true));
            Next(w2, Learn(s, a, Register, true)).loops[a] == 2
  {
    var w1 := Next(w, Learn(s, a, Register, true));
    assert w1.loops == multiset{a};
    var w2 := Next(w1, Learn(s, b, Register, true));
    assert w2.loops == multiset{a, b};
    assert Binds(w2.maps, s, a, Register);
  }

  // ---------- Escaping ----------

  function ReplaceAll(s: string, c: char, t: string): string {
    if s == "" then "" else (if s[0] == c then t else [s[0]]) + ReplaceAll(s[1..], c, t)
  }

  /** Peer text, with the ampersand escaped first. */
  function Escape(s: string): string {
    ReplaceAll(ReplaceAll(ReplaceAll(ReplaceAll(s, '&', "&amp;"), '<', "&lt;"), '>', "&gt;"), '"', "&quot;")
  }

  function Entity(c: char): string {
    if c == '&' then "&amp;" else if c == '<' then "&lt;" else if c == '>' then "&gt;" else if c == '"' then "&quot;" else [c]
  }

  function Entities(s: string): string {
    if s == "" then "" else Entity(s[0]) + Entities(s[1..])
  }

  /** What a reader of the markup sees. */
  function Decode(s: string): string {
    if s == "" then ""
    else if |s| >= 5 && s[..5] == "&amp;" then "&" + Decode(s[5..])
    else if |s| >= 4 && s[..4] == "&lt;" then "<" + Decode(s[4..])
    else if |s| >= 4 && s[..4] == "&gt;" then ">" + Decode(s[4..])
    else if |s| >= 6 && s[..6] == "&quot;" then "\"" + Decode(s[6..])
    else [s[0]] + Decode(s[1..])
  }

  lemma JoinHead(a: string, b: string, c: char, t: string)
    requires a != ""
    ensures ReplaceAll(a + b, c, t) == (if a[0] == c then t else [a[0]]) + ReplaceAll(a[1..] + b, c, t)
  {
    assert (a + b)[0] == a[0] && (a + b)[1..] == a[1..] + b;
  }

  lemma {:induction false} ReplaceAllJoins(a: string, b: string, c: char, t: string)
    ensures ReplaceAll(a + b, c, t) == ReplaceAll(a, c, t) + ReplaceAll(b, c, t)
  {
    if a == "" {
      assert a + b == b;
    } else {
      ReplaceAllJoins(a[1..], b, c, t);
      JoinHead(a, b, c, t);
      assert ReplaceAll(a, c, t) == (if a[0] == c then t else [a[0]]) + ReplaceAll(a[1..], c, t);
    }
  }

  lemma {:induction false} NothingReplaced(s: string, c: char, t: string)
    requires c !in s
    ensures ReplaceAll(s, c, t) == s
  {
    if s != "" {
      NothingReplaced(s[1..], c, t);
    }
  }

  lemma {:induction false} EscapeIsEntities(s: string)
    ensures Escape(s) == Entities(s)
  {
    if s != "" {
      EscapeIsEntities(s[1..]);
      EscapeHead([s[0]], s[1..]);
      EscapeChar(s[0]);
      assert s == [s[0]] + s[1..];
    }
  }

  lemma EscapeHead(a: string, b: string)
    ensures Escape(a + b) == Escape(a) + Escape(b)
  {
    hide ReplaceAll;
    var amp, lt, gt := "&amp;", "&lt;", "&gt;";
    var a1, b1 := ReplaceAll(a, '&', amp), ReplaceAll(b, '&', amp);
    ReplaceAllJoins(a, b, '&', amp);
    var a2, b2 := ReplaceAll(a1, '<', lt), ReplaceAll(b1, '<', lt);
    ReplaceAllJoins(a1, b1, '<', lt);
    var a3, b3 := ReplaceAll(a2, '>', gt), ReplaceAll(b2, '>', gt);
    ReplaceAllJoins(a2, b2, '>', gt);
    ReplaceAllJoins(a3, b3, '"', "&quot;");
  }

  lemma ReplaceOne(c: char, d: char, t: string)
    ensures ReplaceAll([c], d, t) == if c == d then t else [c]
  {
    assert [c][1..] == "";
    assert t + "" == t;
  }

  lemma EscapeChar(c: char)
    ensures Escape([c]) == Entity(c)
  {
    hide ReplaceAll;
    ReplaceOne(c, '&', "&amp;");
    ReplaceOne(c, '<', "&lt;");
    ReplaceOne(c, '>', "&gt;");
    ReplaceOne(c, '"', "&quot;");
    NothingReplaced("&amp;", '<', "&lt;");
    NothingReplaced("&amp;", '>', "&gt;");
    NothingReplaced("&amp;", '"', "&quot;");
    NothingReplaced("&lt;", '>', "&gt;");
    NothingReplaced("&lt;", '"', "&quot;");
    NothingReplaced("&gt;", '"', "&quot;");
  }

  /** However a peer writes its text, escaped text holds no markup character, and a
      reader that decodes the entities sees exactly the text that was written. */
  lemma {:induction false} EscapeIsExact(s: string)
    ensures '<' !in Escape(s) && '>' !in Escape(s) && '"' !in Escape(s)
    ensures Decode(Escape(s)) == s
  {
    EscapeIsEntities(s);
    EntitiesExact(s);
  }

  lemma {:induction false} EntitiesExact(s: string)
    ensures '<' !in Entities(s) && '>' !in Entities(s) && '"' !in Entities(s)
    ensures Decode(Entities(s)) == s
  {
    hide Decode, Entity;
    if s == "" {
      DecodeNothing();
    } else {
      EntitiesExact(s[1..]);
      EntityClean(s[0]);
      DecodeEntity(s[0], Entities(s[1..]));
      assert [s[0]] + s[1..] == s;
    }
  }

  lemma DecodeNothing()
    ensures Decode("") == ""
  {
  }

  lemma EntityClean(c: char)
    ensures '<' !in Entity(c) && '>' !in Entity(c) && '"' !in Entity(c)
  {
  }

  lemma DecodeEntity(c: char, rest: string)
    ensures Decode(Entity(c) + rest) == [c] + Decode(rest)
  {
    var e := Entity(c);
    var s := e + rest;
    assert s[..|e|] == e && s[|e|..] == rest;
    if c == '<' || c == '>' {
      assert |s| >= 5 ==> s[..5][1] == e[1] && s[..5][1] != "&amp;"[1];
      assert c == '>' ==> s[..4][1] != "&lt;"[1];
    } else if c == '"' {
      assert s[..5][1] != "&amp;"[1] && s[..4][1] != "&lt;"[1] && s[..4][1] != "&gt;"[1];
    } else if c != '&' {
      assert |s| >= 5 ==> s[..5][0] != "&amp;"[0];
      assert |s| >= 4 ==> s[..4][0] != "&lt;"[0] && s[..4][0] != "&gt;"[0];
      assert |s| >= 6 ==> s[..6][0] != "&quot;"[0];
    }
  }
}
