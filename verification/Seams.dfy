/** Grouping one task's change sets into a named seam. */
module Seams {
  import opened Options

  type Name = string

  /** A change set's id, qualified by the workspace path of the buffer that numbers it. */
  datatype Member = Member(id: nat, path: string)

  datatype State = Accepted | Proposed | Rejected

  /** A listed change set. `rel` is its buffer's workspace path, none outside it. */
  datatype Ref = Ref(id: nat, rel: Option<string>, task: string, state: State)

  datatype Seam = Seam(task: string, base: string, baseSHA: string, members: seq<Member>)

  type Set = map<Name, Seam>

  function MemberFor(g: Ref): Option<Member> {
    match g.rel
    case Some(p) => Some(Member(g.id, p))
    case None => None
  }

  function MembersOf(set_: Set, name: Name): seq<Member> {
    if name in set_ then set_[name].members else []
  }

  // ---------- Names in order ----------

  predicate Less(a: string, b: string) {
    if b == "" then false
    else if a == "" then true
    else if a[0] != b[0] then a[0] < b[0]
    else Less(a[1..], b[1..])
  }

  lemma {:induction false} LessTrans(a: string, b: string, c: string)
    requires Less(a, b) && Less(b, c)
    ensures Less(a, c)
  {
    if a != "" && a[0] == b[0] && b[0] == c[0] {
      LessTrans(a[1..], b[1..], c[1..]);
    }
  }

  lemma {:induction false} LessTotal(a: string, b: string)
    ensures Less(a, b) || Less(b, a) || a == b
    ensures !(Less(a, b) && Less(b, a)) && !Less(a, a)
  {
    if a != "" && b != "" && a[0] == b[0] {
      LessTotal(a[1..], b[1..]);
      assert a == [a[0]] + a[1..] && b == [b[0]] + b[1..];
    }
    if a != "" {
      LessTotal(a[1..], a[1..]);
    }
  }

  // ---------- seamHolders ----------

  predicate HoldsFull(set_: Set, self: Name, m: Member, name: Name) {
    name in set_ && name != self && m.path != "" && m in set_[name].members
  }

  predicate HoldsBare(set_: Set, self: Name, id: nat, name: Name) {
    name in set_ && name != self && Member(id, "") in set_[name].members
  }

  /** Some other seam already names the set, by its path or by its bare id. */
  ghost predicate HeldElsewhere(set_: Set, self: Name, m: Member) {
    exists name :: HoldsFull(set_, self, m, name) || HoldsBare(set_, self, m.id, name)
  }

  /** The least name seen for each key. */
  ghost predicate Least<K(!new)>(held: map<K, Name>, seen: set<(Name, K)>) {
    && (forall k :: k in held ==> (held[k], k) in seen)
    && forall n, k :: (n, k) in seen ==> k in held && !Less(n, held[k])
  }

  function Record<K(==)>(held: map<K, Name>, k: K, name: Name): map<K, Name> {
    if k !in held || Less(name, held[k]) then held[k := name] else held
  }

  lemma RecordLeast<K(!new)>(held: map<K, Name>, seen: set<(Name, K)>, k: K, name: Name)
    requires Least(held, seen)
    ensures Least(Record(held, k, name), seen + {(name, k)})
  {
    LessTotal(name, name);
    if k in held {
      LessTotal(name, held[k]);
      forall n | (n, k) in seen ensures Less(name, held[k]) ==> !Less(n, name) {
        if Less(name, held[k]) && Less(n, name) {
          LessTrans(n, name, held[k]);
        }
      }
    }
  }

  /** The two maps name, for exactly the sets other seams hold, the least seam that does. */
  ghost predicate Holders(set_: Set, self: Name, held: map<Member, Name>, heldBare: map<nat, Name>) {
    && (forall m :: m in held ==> HoldsFull(set_, self, m, held[m]))
    && (forall id :: id in heldBare ==> HoldsBare(set_, self, id, heldBare[id]))
    && (forall m, n :: HoldsFull(set_, self, m, n) ==> m in held && !Less(n, held[m]))
    && forall id, n :: HoldsBare(set_, self, id, n) ==> id in heldBare && !Less(n, heldBare[id])
  }

  method SeamHolders(set_: Set, self: Name) returns (held: map<Member, Name>, heldBare: map<nat, Name>)
    ensures Holders(set_, self, held, heldBare)
  {
    hide Less;
    held, heldBare := map[], map[];
    var todo := set_.Keys;
    ghost var full: set<(Name, Member)>, bare: set<(Name, nat)> := {}, {};
    while todo != {}
      invariant todo <= set_.Keys
      invariant Least(held, full) && Least(heldBare, bare)
      invariant forall n, m :: (n, m) in full <==> n !in todo && HoldsFull(set_, self, m, n)
      invariant forall n, id: nat :: (n, id) in bare <==> n !in todo && HoldsBare(set_, self, id, n)
    {
      var name :| name in todo;
      if name != self {
        var members := set_[name].members;
        for k := 0 to |members|
          invariant Least(held, full) && Least(heldBare, bare)
          invariant forall n, m :: (n, m) in full <==>
                      (n !in todo && HoldsFull(set_, self, m, n)) || (n == name && m.path != "" && m in members[..k])
          invariant forall n, id: nat :: (n, id) in bare <==>
                      (n !in todo && HoldsBare(set_, self, id, n)) || (n == name && Member(id, "") in members[..k])
        {
          var m := members[k];
          assert members[..k + 1] == members[..k] + [m];
          if m.path == "" {
            RecordLeast(heldBare, bare, m.id, name);
            heldBare := Record(heldBare, m.id, name);
            bare := bare + {(name, m.id)};
          } else {
            RecordLeast(held, full, m, name);
            held := Record(held, m, name);
            full := full + {(name, m)};
          }
        }
        assert members[..|members|] == members;
      }
      todo := todo - {name};
    }
  }

  /** There is one such pair of maps. */
  lemma HoldersUnique(set_: Set, self: Name, held: map<Member, Name>, heldBare: map<nat, Name>,
                      other: map<Member, Name>, otherBare: map<nat, Name>)
    requires Holders(set_, self, held, heldBare) && Holders(set_, self, other, otherBare)
    ensures held == other && heldBare == otherBare
  {
    hide HoldsFull, HoldsBare, Less;
    forall m | m in held ensures m in other && other[m] == held[m] {
      assert HoldsFull(set_, self, m, held[m]) && HoldsFull(set_, self, m, other[m]);
      LessTotal(held[m], other[m]);
    }
    forall m | m in other ensures m in held {
      assert HoldsFull(set_, self, m, other[m]);
    }
    forall id | id in heldBare ensures id in otherBare && otherBare[id] == heldBare[id] {
      assert HoldsBare(set_, self, id, heldBare[id]) && HoldsBare(set_, self, id, otherBare[id]);
      LessTotal(heldBare[id], otherBare[id]);
    }
    forall id | id in otherBare ensures id in heldBare {
      assert HoldsBare(set_, self, id, otherBare[id]);
    }
  }

  // ---------- groupAdded ----------

  datatype Skip =
    | AmbiguousPath(id: nat)
    | OtherSeam(member: Member, seam: Name)
    | NotPending(member: Member, state: State)

  datatype Verdict = Added(m: Member) | Already | Skipped(skip: Skip)

  /** How many of the listed sets qualify to this member. */
  function Count(refs: seq<Ref>, m: Member): nat {
    if refs == [] then 0
    else Count(refs[..|refs| - 1], m) + if MemberFor(refs[|refs| - 1]) == Some(m) then 1 else 0
  }

  method MemberCounts(refs: seq<Ref>) returns (count: map<Member, nat>)
    ensures forall m :: (if m in count then count[m] else 0) == Count(refs, m)
  {
    count := map[];
    for k := 0 to |refs|
      invariant forall m :: (if m in count then count[m] else 0) == Count(refs[..k], m)
    {
      assert refs[..k + 1][..k] == refs[..k];
      var m := MemberFor(refs[k]);
      if m.Some? {
        count := count[m.value := (if m.value in count then count[m.value] else 0) + 1];
      }
    }
    assert refs[..|refs|] == refs;
  }

  /** What the call decides about one listed set, in the source's fixed precedence. */
  function Judge(g: Ref, refs: seq<Ref>, members: seq<Member>, held: map<Member, Name>, heldBare: map<nat, Name>): Verdict {
    match MemberFor(g)
    case None => Skipped(AmbiguousPath(g.id))
    case Some(m) =>
      if Count(refs, m) > 1 then Skipped(AmbiguousPath(g.id))
      else if m in members then Already
      else if m in held then Skipped(OtherSeam(m, held[m]))
      else if m.id in heldBare then Skipped(OtherSeam(m, heldBare[m.id]))
      else if g.state != Proposed then Skipped(NotPending(m, g.state))
      else Added(m)
  }

  function Verdicts(listed: seq<Ref>, refs: seq<Ref>, members: seq<Member>, held: map<Member, Name>, heldBare: map<nat, Name>): (v: seq<Verdict>)
    ensures |v| == |listed|
    ensures forall i :: 0 <= i < |listed| ==> v[i] == Judge(listed[i], refs, members, held, heldBare)
  {
    seq(|listed|, i requires 0 <= i < |listed| => Judge(listed[i], refs, members, held, heldBare))
  }

  function AddedOf(v: seq<Verdict>): seq<Member> {
    if v == [] then []
    else AddedOf(v[..|v| - 1]) + if v[|v| - 1].Added? then [v[|v| - 1].m] else []
  }

  function SkippedOf(v: seq<Verdict>): seq<Skip> {
    if v == [] then []
    else SkippedOf(v[..|v| - 1]) + if v[|v| - 1].Skipped? then [v[|v| - 1].skip] else []
  }

  function AlreadyIn(v: seq<Verdict>): nat {
    if v == [] then 0 else AlreadyIn(v[..|v| - 1]) + if v[|v| - 1].Already? then 1 else 0
  }

  method GroupAdded(refs: seq<Ref>, members: seq<Member>, held: map<Member, Name>, heldBare: map<nat, Name>, count: map<Member, nat>)
    returns (added: seq<Member>, skipped: seq<Skip>)
    requires forall m :: (if m in count then count[m] else 0) == Count(refs, m)
    ensures added == AddedOf(Verdicts(refs, refs, members, held, heldBare))
    ensures skipped == SkippedOf(Verdicts(refs, refs, members, held, heldBare))
  {
    hide Count;
    ghost var v := Verdicts(refs, refs, members, held, heldBare);
    added, skipped := [], [];
    for k := 0 to |refs|
      invariant added == AddedOf(v[..k]) && skipped == SkippedOf(v[..k])
    {
      assert v[..k + 1][..k] == v[..k];
      var g := refs[k];
      assert v[k] == Judge(g, refs, members, held, heldBare);
      var q := MemberFor(g);
      if q.None? || (q.value in count && count[q.value] > 1) {
        skipped := skipped + [AmbiguousPath(g.id)];
        continue;
      }
      var m := q.value;
      if m in members {
        continue;
      }
      if m in held {
        skipped := skipped + [OtherSeam(m, held[m])];
        continue;
      }
      if m.id in heldBare {
        skipped := skipped + [OtherSeam(m, heldBare[m.id])];
        continue;
      }
      if g.state != Proposed {
        skipped := skipped + [NotPending(m, g.state)];
        continue;
      }
      added := added + [m];
    }
    assert v[..|refs|] == v;
  }

  lemma {:induction false} VerdictCounts(v: seq<Verdict>)
    ensures |AddedOf(v)| + AlreadyIn(v) + |SkippedOf(v)| == |v|
  {
    if v != [] {
      VerdictCounts(v[..|v| - 1]);
    }
  }

  /** Where a listed set's verdict stands in the list it goes to. */
  function AddedPlace(v: seq<Verdict>, i: nat): nat
    requires i <= |v|
  {
    |AddedOf(v[..i])|
  }

  function SkippedPlace(v: seq<Verdict>, i: nat): nat
    requires i <= |v|
  {
    |SkippedOf(v[..i])|
  }

  lemma {:induction false} PlacesHold(v: seq<Verdict>, i: nat)
    requires i < |v|
    ensures v[i].Added? ==> AddedPlace(v, i) < |AddedOf(v)| && AddedOf(v)[AddedPlace(v, i)] == v[i].m
    ensures v[i].Skipped? ==> SkippedPlace(v, i) < |SkippedOf(v)| && SkippedOf(v)[SkippedPlace(v, i)] == v[i].skip
  {
    var n := |v| - 1;
    if i < n {
      PlacesHold(v[..n], i);
      assert v[..n][..i] == v[..i];
    }
  }

  lemma {:induction false} PlacesGrow(v: seq<Verdict>, i: nat, j: nat)
    requires i <= j <= |v|
    ensures AddedPlace(v, i) <= AddedPlace(v, j) && SkippedPlace(v, i) <= SkippedPlace(v, j)
    ensures i < j && v[i].Added? ==> AddedPlace(v, i) < AddedPlace(v, j)
    ensures i < j && v[i].Skipped? ==> SkippedPlace(v, i) < SkippedPlace(v, j)
  {
    if i < j {
      PlacesGrow(v, i, j - 1);
      assert v[..j][..j - 1] == v[..j - 1];
    }
  }

  function SkipId(s: Skip): nat {
    match s
    case AmbiguousPath(id) => id
    case OtherSeam(m, _) => m.id
    case NotPending(m, _) => m.id
  }

  /** A call classifies every set of the listing exactly once. A set that qualifies and is
      a member already is in neither list; any other has one place of its own, in listing
      order, in the list of the added or of the skipped, which holds nothing else. */
  lemma EveryRefOnce(refs: seq<Ref>, members: seq<Member>, held: map<Member, Name>, heldBare: map<nat, Name>)
    ensures var v := Verdicts(refs, refs, members, held, heldBare);
            && (forall i :: 0 <= i < |refs| ==>
                  match v[i]
                  case Added(m) =>
                    MemberFor(refs[i]) == Some(m) && AddedPlace(v, i) < |AddedOf(v)| && AddedOf(v)[AddedPlace(v, i)] == m
                  case Skipped(skip) =>
                    SkipId(skip) == refs[i].id && SkippedPlace(v, i) < |SkippedOf(v)| && SkippedOf(v)[SkippedPlace(v, i)] == skip
                  case Already => MemberFor(refs[i]).Some? && MemberFor(refs[i]).value in members)
            && (forall i, j :: 0 <= i < j < |refs| && v[i].Added? && v[j].Added? ==> AddedPlace(v, i) < AddedPlace(v, j))
            && (forall i, j :: 0 <= i < j < |refs| && v[i].Skipped? && v[j].Skipped? ==> SkippedPlace(v, i) < SkippedPlace(v, j))
            && |AddedOf(v)| + |SkippedOf(v)| + AlreadyIn(v) == |refs|
  {
    hide AddedOf, SkippedOf, AlreadyIn, AddedPlace, SkippedPlace, Count;
    var v := Verdicts(refs, refs, members, held, heldBare);
    VerdictCounts(v);
    forall i | 0 <= i < |refs| && v[i].Added?
      ensures AddedPlace(v, i) < |AddedOf(v)| && AddedOf(v)[AddedPlace(v, i)] == v[i].m
    {
      PlacesHold(v, i);
    }
    forall i | 0 <= i < |refs| && v[i].Skipped?
      ensures SkippedPlace(v, i) < |SkippedOf(v)| && SkippedOf(v)[SkippedPlace(v, i)] == v[i].skip
    {
      PlacesHold(v, i);
    }
    forall i, j | 0 <= i < j < |refs|
      ensures v[i].Added? ==> AddedPlace(v, i) < AddedPlace(v, j)
      ensures v[i].Skipped? ==> SkippedPlace(v, i) < SkippedPlace(v, j)
    {
      PlacesGrow(v, i, j);
    }
  }

  predicate Distinct(s: seq<Member>) {
    forall i, j :: 0 <= i < j < |s| ==> s[i] != s[j]
  }

  lemma {:induction false} CountTwice(refs: seq<Ref>, m: Member, i: nat, j: nat)
    requires i < j < |refs| && MemberFor(refs[i]) == Some(m) && MemberFor(refs[j]) == Some(m)
    ensures Count(refs, m) > 1
  {
    if j < |refs| - 1 {
      CountTwice(refs[..|refs| - 1], m, i, j);
    } else {
      CountOnce(refs[..|refs| - 1], m, i);
    }
  }

  lemma {:induction false} CountOnce(refs: seq<Ref>, m: Member, i: nat)
    requires i < |refs| && MemberFor(refs[i]) == Some(m)
    ensures Count(refs, m) > 0
  {
    if i < |refs| - 1 {
      CountOnce(refs[..|refs| - 1], m, i);
    }
  }

  lemma {:induction false} CountMeans(refs: seq<Ref>, m: Member)
    ensures Count(refs, m) > 0 <==> exists i :: 0 <= i < |refs| && MemberFor(refs[i]) == Some(m)
    ensures Count(refs, m) > 1 <==>
              exists i, j :: 0 <= i < j < |refs| && MemberFor(refs[i]) == Some(m) && MemberFor(refs[j]) == Some(m)
  {
    if refs != [] {
      var init := refs[..|refs| - 1];
      CountMeans(init, m);
      if i :| 0 <= i < |refs| && MemberFor(refs[i]) == Some(m) {
        CountOnce(refs, m, i);
      }
      if i, j :| 0 <= i < j < |refs| && MemberFor(refs[i]) == Some(m) && MemberFor(refs[j]) == Some(m) {
        CountTwice(refs, m, i, j);
      }
      if Count(init, m) > 0 {
        var i :| 0 <= i < |init| && MemberFor(init[i]) == Some(m);
        assert MemberFor(refs[i]) == Some(m);
      }
    }
  }

  /** Two sets of the listing qualify to the member. */
  predicate Doubled(refs: seq<Ref>, m: Member) {
    exists i, j :: 0 <= i < j < |refs| && MemberFor(refs[i]) == Some(m) && MemberFor(refs[j]) == Some(m)
  }

  /** The least of the other seams that hold the set: by its path where one does, and only
      otherwise by its bare id. */
  ghost predicate HeldBy(set_: Set, self: Name, m: Member, name: Name) {
    if exists n :: HoldsFull(set_, self, m, n)
    then HoldsFull(set_, self, m, name) && forall n :: HoldsFull(set_, self, m, n) ==> !Less(n, name)
    else HoldsBare(set_, self, m.id, name) && forall n :: HoldsBare(set_, self, m.id, n) ==> !Less(n, name)
  }

  /** What a set's verdict means: which reason a skip reports, with which member, seam and
      state, and when. The reasons exclude each other. */
  lemma VerdictMeans(g: Ref, refs: seq<Ref>, set_: Set, self: Name, held: map<Member, Name>, heldBare: map<nat, Name>)
    requires Holders(set_, self, held, heldBare)
    ensures var v, m := Judge(g, refs, MembersOf(set_, self), held, heldBare), Member(g.id, if g.rel.Some? then g.rel.value else "");
            var lost := g.rel == None || Doubled(refs, m);
            var mine, elsewhere := m in MembersOf(set_, self), HeldElsewhere(set_, self, m);
            && (v == Skipped(AmbiguousPath(g.id)) <==> lost)
            && (v == Already <==> !lost && mine)
            && (v.Skipped? && v.skip.OtherSeam? <==> !lost && !mine && elsewhere)
            && (v.Skipped? && v.skip.OtherSeam? ==> v.skip.member == m && HeldBy(set_, self, m, v.skip.seam))
            && (v == Skipped(NotPending(m, g.state)) <==> !lost && !mine && !elsewhere && g.state != Proposed)
            && (v == Added(m) <==> !lost && !mine && !elsewhere && g.state == Proposed)
  {
    hide HoldsFull, HoldsBare, Count, MembersOf, Less;
    if g.rel.Some? {
      var m := Member(g.id, g.rel.value);
      CountMeans(refs, m);
      if m in held {
        assert HoldsFull(set_, self, m, held[m]);
      }
      if m.id in heldBare {
        assert HoldsBare(set_, self, m.id, heldBare[m.id]);
      }
    }
  }

  // ---------- The call ----------

  datatype Command = Command(name: Name, task: string, base: string, dryRun: bool, explicit: bool)

  /** What git answers: the branch to detect, and the commit each name resolves to. */
  datatype Git = Git(detected: Option<string>, commits: map<string, string>)

  datatype Overlap = Overlap(path: string, seam: Name)

  datatype Grouping = Grouping(created: bool, changed: bool, added: seq<Member>, members: seq<Member>,
                               skipped: seq<Skip>, overlaps: seq<Overlap>, base: string, baseSHA: string)

  datatype Failure =
    | NeedsName | NeedsTask | TakesTask | OtherTask | NoSets | BaseMoved | NoBase | StackedBase | Unresolved

  datatype Outcome = Failed(why: Failure) | Grouped(group: Grouping)

  function TaskRefs(groups: seq<Ref>, task: string): seq<Ref> {
    if groups == [] then []
    else TaskRefs(groups[..|groups| - 1], task) + if groups[|groups| - 1].task == task then [groups[|groups| - 1]] else []
  }

  /** How many sets of the listing are the task's. */
  function TaskCount(groups: seq<Ref>, task: string): nat {
    if groups == [] then 0
    else TaskCount(groups[..|groups| - 1], task) + if groups[|groups| - 1].task == task then 1 else 0
  }

  /** The task's sets are all there, each as often as it is listed and in listing order:
      a set's place is how many of the task's are listed before it. */
  lemma TaskRefsAdd(groups: seq<Ref>, g: Ref, task: string)
    ensures TaskRefs(groups + [g], task) == TaskRefs(groups, task) + if g.task == task then [g] else []
    ensures TaskCount(groups + [g], task) == TaskCount(groups, task) + if g.task == task then 1 else 0
  {
    assert (groups + [g])[..|groups|] == groups;
  }

  lemma {:induction false} TaskRefsMean(groups: seq<Ref>, task: string)
    ensures |TaskRefs(groups, task)| == TaskCount(groups, task)
    ensures forall i :: 0 <= i < |groups| && groups[i].task == task ==>
              var k := TaskCount(groups[..i], task);
              k < |TaskRefs(groups, task)| && TaskRefs(groups, task)[k] == groups[i]
    ensures forall g :: g in TaskRefs(groups, task) <==> g in groups && g.task == task
  {
    if groups != [] {
      hide TaskRefs, TaskCount;
      var init, last := groups[..|groups| - 1], groups[|groups| - 1];
      TaskRefsMean(init, task);
      TaskRefsAdd(init, last, task);
      assert groups == init + [last];
      assert forall i :: 0 <= i < |groups| ==> groups[..i] == init[..i];
      assert init[..|init|] == init;
    }
  }

  method GroupTaskRefs(groups: seq<Ref>, task: string) returns (refs: seq<Ref>)
    ensures refs == TaskRefs(groups, task)
    ensures |refs| == TaskCount(groups, task)
    ensures forall i :: 0 <= i < |groups| && groups[i].task == task ==>
              var k := TaskCount(groups[..i], task); k < |refs| && refs[k] == groups[i]
    ensures forall g :: g in refs <==> g in groups && g.task == task
  {
    hide TaskCount;
    TaskRefsMean(groups, task);
    refs := [];
    for k := 0 to |groups|
      invariant refs == TaskRefs(groups[..k], task)
    {
      assert groups[..k + 1][..k] == groups[..k];
      if groups[k].task == task {
        refs := refs + [groups[k]];
      }
    }
    assert groups[..|groups|] == groups;
  }

  function Validate(set_: Set, cmd: Command): Option<Failure> {
    if cmd.name == "" then Some(NeedsName)
    else if cmd.task == "" then Some(NeedsTask)
    else if cmd.explicit then Some(TakesTask)
    else if cmd.name in set_ && set_[cmd.name].task != "" && set_[cmd.name].task != cmd.task then Some(OtherTask)
    else None
  }

  datatype Base = Refused(why: Failure) | At(base: string, sha: string)

  function GroupBase(set_: Set, cmd: Command, git: Git): Base {
    if cmd.name in set_ then
      if cmd.base != "" && cmd.base != set_[cmd.name].base then Refused(BaseMoved)
      else At(set_[cmd.name].base, set_[cmd.name].baseSHA)
    else if cmd.base == "" && git.detected == None then Refused(NoBase)
    else
      var base := if cmd.base == "" then git.detected.value else cmd.base;
      if base in set_ then Refused(StackedBase)
      else if base !in git.commits then Refused(Unresolved)
      else At(base, git.commits[base])
  }

  /** Why a call is refused, if it is: nothing is stored then. */
  function Refusal(set_: Set, cmd: Command, groups: seq<Ref>, git: Git): Option<Failure> {
    if Validate(set_, cmd).Some? then Validate(set_, cmd)
    else if TaskRefs(groups, cmd.task) == [] then Some(NoSets)
    else
      match GroupBase(set_, cmd, git)
      case Refused(why) => Some(why)
      case At(_, _) => None
  }

  /** When a call is refused, and with which reason: the name, the task and the listing
      first, the base last. A new seam stands on the ref given, or else the detected one,
      which must not be a seam itself and must resolve to a commit. */
  lemma RefusalMeans(set_: Set, cmd: Command, groups: seq<Ref>, git: Git)
    ensures var r, known := Refusal(set_, cmd, groups, git), cmd.name in set_;
            var other := known && set_[cmd.name].task != "" && set_[cmd.name].task != cmd.task;
            var named := cmd.name != "" && cmd.task != "" && !cmd.explicit && !other;
            var listed := named && exists g :: g in groups && g.task == cmd.task;
            var base := if cmd.base != "" then Some(cmd.base) else git.detected;
            && (r == Some(NeedsName) <==> cmd.name == "")
            && (r == Some(NeedsTask) <==> cmd.name != "" && cmd.task == "")
            && (r == Some(TakesTask) <==> cmd.name != "" && cmd.task != "" && cmd.explicit)
            && (r == Some(OtherTask) <==> cmd.name != "" && cmd.task != "" && !cmd.explicit && other)
            && (r == Some(NoSets) <==> named && !listed)
            && (r == Some(BaseMoved) <==> listed && known && cmd.base != "" && cmd.base != set_[cmd.name].base)
            && (r == Some(NoBase) <==> listed && !known && base == None)
            && (r == Some(StackedBase) <==> listed && !known && base.Some? && base.value in set_)
            && (r == Some(Unresolved) <==> listed && !known && base.Some? && base.value !in set_ && base.value !in git.commits)
  {
    hide TaskRefs;
    TaskRefsMean(groups, cmd.task);
    var refs := TaskRefs(groups, cmd.task);
    if refs != [] {
      assert refs[0] in refs;
    }
  }

  ghost predicate Takes(set_: Set, self: Name, refs: seq<Ref>, g: Ref) {
    match MemberFor(g)
    case None => false
    case Some(m) =>
      && Count(refs, m) <= 1 && m !in MembersOf(set_, self)
      && !HeldElsewhere(set_, self, m) && g.state == Proposed
  }

  /** The members a call adds: the listed sets it takes, in listing order. */
  ghost function Adds(set_: Set, self: Name, listed: seq<Ref>, refs: seq<Ref>): seq<Member> {
    if listed == [] then []
    else
      var g := listed[|listed| - 1];
      Adds(set_, self, listed[..|listed| - 1], refs) + if Takes(set_, self, refs, g) then [MemberFor(g).value] else []
  }

  lemma JudgeTakes(set_: Set, self: Name, g: Ref, refs: seq<Ref>, held: map<Member, Name>, heldBare: map<nat, Name>)
    requires Holders(set_, self, held, heldBare)
    ensures Judge(g, refs, MembersOf(set_, self), held, heldBare).Added? <==> Takes(set_, self, refs, g)
    ensures Takes(set_, self, refs, g) ==> Judge(g, refs, MembersOf(set_, self), held, heldBare).m == MemberFor(g).value
  {
    hide HoldsFull, HoldsBare, Count, MembersOf, Less;
    if MemberFor(g).Some? {
      var m := MemberFor(g).value;
      assert m in held ==> HoldsFull(set_, self, m, held[m]);
      assert m.id in heldBare ==> HoldsBare(set_, self, m.id, heldBare[m.id]);
    }
  }

  lemma {:induction false} AddsAre(set_: Set, self: Name, k: nat, refs: seq<Ref>, held: map<Member, Name>, heldBare: map<nat, Name>)
    requires k <= |refs| && Holders(set_, self, held, heldBare)
    ensures AddedOf(Verdicts(refs, refs, MembersOf(set_, self), held, heldBare)[..k]) == Adds(set_, self, refs[..k], refs)
  {
    hide Holders, HoldsFull, HoldsBare, Count, MembersOf, Judge, Takes;
    if k > 0 {
      AddsAre(set_, self, k - 1, refs, held, heldBare);
      var v := Verdicts(refs, refs, MembersOf(set_, self), held, heldBare);
      assert v[..k][..k - 1] == v[..k - 1] && refs[..k][..k - 1] == refs[..k - 1];
      JudgeTakes(set_, self, refs[k - 1], refs, held, heldBare);
    }
  }

  /** `Intention.Add`: members that are not members yet, in order. */
  function AddAll(members: seq<Member>, more: seq<Member>): seq<Member> {
    if more == [] then members
    else
      var so := AddAll(members, more[..|more| - 1]);
      if more[|more| - 1] in so then so else so + [more[|more| - 1]]
  }

  method AddMembers(members: seq<Member>, more: seq<Member>) returns (r: seq<Member>)
    ensures r == AddAll(members, more)
  {
    r := members;
    for k := 0 to |more|
      invariant r == AddAll(members, more[..k])
    {
      assert more[..k + 1][..k] == more[..k];
      if more[k] in r {
        continue;
      }
      r := r + [more[k]];
    }
    assert more[..|more|] == more;
  }

  lemma {:induction false} AddAllFresh(members: seq<Member>, more: seq<Member>)
    requires Distinct(more) && forall i :: 0 <= i < |more| ==> more[i] !in members
    ensures AddAll(members, more) == members + more
  {
    if more != [] {
      var init, last := more[..|more| - 1], more[|more| - 1];
      AddAllFresh(members, init);
      assert last !in init;
      assert more == init + [last];
    }
  }

  /** The seam as the call stores it. */
  function Stored(set_: Set, cmd: Command, added: seq<Member>, base: string, sha: string): Seam {
    if cmd.name in set_ then
      var was := set_[cmd.name];
      was.(members := AddAll(was.members, added), task := if was.task == "" then cmd.task else was.task)
    else Seam(cmd.task, base, sha, added)
  }

  /** Everything a call does to the stored seams. */
  ghost function After(set_: Set, cmd: Command, groups: seq<Ref>, git: Git): Set {
    if Refusal(set_, cmd, groups, git).Some? || cmd.dryRun then set_
    else
      var refs := TaskRefs(groups, cmd.task);
      var at := GroupBase(set_, cmd, git);
      set_[cmd.name := Stored(set_, cmd, Adds(set_, cmd.name, refs, refs), at.base, at.sha)]
  }

  // ---------- seamOverlaps ----------

  predicate Touches(members: seq<Member>, path: string) {
    exists i :: 0 <= i < |members| && members[i].path == path
  }

  ghost predicate Overlaps(set_: Set, self: Name, members: seq<Member>, o: Overlap) {
    && o.seam in set_ && o.seam != self && o.path != "" && Touches(members, o.path)
    && Touches(set_[o.seam].members, o.path)
  }

  predicate Before(a: Overlap, b: Overlap) {
    if a.path != b.path then Less(a.path, b.path) else Less(a.seam, b.seam)
  }

  function InsertOverlap(s: seq<Overlap>, o: Overlap): seq<Overlap> {
    if s == [] || !Before(o, s[|s| - 1]) then s + [o]
    else InsertOverlap(s[..|s| - 1], o) + [s[|s| - 1]]
  }

  function SortOverlaps(s: seq<Overlap>): seq<Overlap> {
    if s == [] then [] else InsertOverlap(SortOverlaps(s[..|s| - 1]), s[|s| - 1])
  }

  predicate Ascending(s: seq<Overlap>) {
    forall i, j :: 0 <= i < j < |s| ==> Before(s[i], s[j])
  }

  lemma BeforeTrans(a: Overlap, b: Overlap, c: Overlap)
    requires Before(a, b) && Before(b, c)
    ensures Before(a, c)
  {
    if a.path == b.path && b.path == c.path {
      LessTrans(a.seam, b.seam, c.seam);
    } else if a.path != b.path && b.path != c.path {
      LessTrans(a.path, b.path, c.path);
      LessTotal(a.path, c.path);
    }
  }

  lemma BeforeTotal(a: Overlap, b: Overlap)
    requires a != b
    ensures Before(a, b) || Before(b, a)
  {
    LessTotal(a.path, b.path);
    LessTotal(a.seam, b.seam);
  }

  lemma {:induction false} InsertAscending(s: seq<Overlap>, o: Overlap)
    requires Ascending(s) && o !in s
    ensures Ascending(InsertOverlap(s, o)) && forall x :: x in InsertOverlap(s, o) <==> x in s || x == o
  {
    hide Before;
    if s != [] {
      var init, last := s[..|s| - 1], s[|s| - 1];
      assert s == init + [last];
      if Before(o, last) {
        InsertAscending(init, o);
        AscendingAdd(InsertOverlap(init, o), last);
      } else {
        BeforeTotal(o, last);
        forall i | 0 <= i < |s| ensures Before(s[i], o) {
          if i < |init| {
            BeforeTrans(s[i], last, o);
          }
        }
        AscendingAdd(s, o);
      }
    }
  }

  lemma AscendingAdd(s: seq<Overlap>, o: Overlap)
    requires Ascending(s) && forall x :: x in s ==> Before(x, o)
    ensures Ascending(s + [o])
  {
    hide Before;
    forall i | 0 <= i < |s| ensures Before(s[i], o) {
      assert s[i] in s;
    }
  }

  lemma {:induction false} SortAscending(s: seq<Overlap>)
    requires forall i, j :: 0 <= i < j < |s| ==> s[i] != s[j]
    ensures Ascending(SortOverlaps(s)) && forall x :: x in SortOverlaps(s) <==> x in s
  {
    hide InsertOverlap;
    if s != [] {
      var init, last := s[..|s| - 1], s[|s| - 1];
      assert s == init + [last];
      SortAscending(init);
      assert last !in init;
      InsertAscending(SortOverlaps(init), last);
    }
  }

  method SeamOverlaps(members: seq<Member>, set_: Set, self: Name) returns (out: seq<Overlap>)
    ensures forall o :: o in out <==> Overlaps(set_, self, members, o)
    ensures Ascending(out)
  {
    hide Before, Touches;
    out := [];
    var todo := set_.Keys;
    while todo != {}
      invariant todo <= set_.Keys
      invariant forall o :: o in out <==> o.seam !in todo && Overlaps(set_, self, members, o)
      invariant forall i, j :: 0 <= i < j < |out| ==> out[i] != out[j]
    {
      var name :| name in todo;
      if name != self {
        out := OverlapsWith(members, set_, self, name, out, todo);
      }
      todo := todo - {name};
    }
    SortAscending(out);
    out := SortOverlaps(out);
  }

  method OverlapsWith(members: seq<Member>, set_: Set, self: Name, name: Name, before: seq<Overlap>, ghost todo: set<Name>)
    returns (out: seq<Overlap>)
    requires name in set_ && name != self && name in todo
    requires forall o :: o in before <==> o.seam !in todo && Overlaps(set_, self, members, o)
    requires forall i, j :: 0 <= i < j < |before| ==> before[i] != before[j]
    ensures forall o :: o in out <==> o.seam !in todo - {name} && Overlaps(set_, self, members, o)
    ensures forall i, j :: 0 <= i < j < |out| ==> out[i] != out[j]
  {
    var theirs := set_[name].members;
    out := before;
    for k := 0 to |theirs|
      invariant forall o :: o in out <==>
                  o in before || (o.seam == name && o.path != "" && Touches(members, o.path) && Touches(theirs[..k], o.path))
      invariant forall i, j :: 0 <= i < j < |out| ==> out[i] != out[j]
    {
      var m := theirs[k];
      if m.path == "" || !Touches(members, m.path) {
        continue;
      }
      var o := Overlap(m.path, name);
      if o in out {
        continue;
      }
      out := out + [o];
    }
    assert theirs[..|theirs|] == theirs;
  }
}
