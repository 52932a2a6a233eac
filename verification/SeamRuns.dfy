/** What runs of `intent group` keep, and how members are found again. */
module SeamRuns {
  import opened Options
  import opened Seams

  // ---------- The call ----------

  ghost predicate NoneOfTask(groups: seq<Ref>, task: string) {
    forall g :: g in groups ==> g.task != task
  }

  /** Every member is that of a pending set of the listing, of this task. */
  ghost predicate OfTask(added: seq<Member>, groups: seq<Ref>, task: string) {
    forall m :: m in added ==> exists g :: g in groups && g.task == task && g.state == Proposed && MemberFor(g) == Some(m)
  }

  /** Added and skipped are the verdicts under the holders of the stored seams. */
  ghost predicate Judged(s: Set, self: Name, refs: seq<Ref>, added: seq<Member>, skipped: seq<Skip>) {
    exists held, heldBare :: Holders(s, self, held, heldBare) &&
      var v := Verdicts(refs, refs, MembersOf(s, self), held, heldBare);
      added == AddedOf(v) && skipped == SkippedOf(v)
  }

  /** The workspace store's seams, written back by each call. */
  class Store {
    var seams: Set

    constructor (seams: Set)
      ensures this.seams == seams
    {
      this.seams := seams;
    }

    method IntentGroup(cmd: Command, groups: seq<Ref>, git: Git) returns (r: Outcome)
      modifies this
      ensures seams == After(old(seams), cmd, groups, git)
      ensures r.Failed? <==> Refusal(old(seams), cmd, groups, git).Some?
      ensures r.Failed? ==> Refusal(old(seams), cmd, groups, git) == Some(r.why)
      ensures r == Failed(NoSets) <==> Validate(old(seams), cmd).None? && NoneOfTask(groups, cmd.task)
      ensures r.Grouped? ==> OfTask(r.group.added, groups, cmd.task)
      ensures r.Grouped? ==>
                var refs := TaskRefs(groups, cmd.task);
                && r.group.added == Adds(old(seams), cmd.name, refs, refs)
                && r.group.members == MembersOf(old(seams), cmd.name) + r.group.added
                && (r.group.changed <==> r.group.added != [])
                && (r.group.created <==> cmd.name !in old(seams))
                && Ascending(r.group.overlaps)
                && (forall o :: o in r.group.overlaps <==> Overlaps(old(seams), cmd.name, r.group.members, o))
                && GroupBase(old(seams), cmd, git) == At(r.group.base, r.group.baseSHA)
                && Judged(old(seams), cmd.name, refs, r.group.added, r.group.skipped)
    {
      hide Holders, Count, Judge, AddAll, Adds, AddedOf, SkippedOf, Ascending, Overlaps, NoneOfTask, OfTask, Judged;
      var bad := Validate(seams, cmd);
      if bad.Some? {
        return Failed(bad.value);
      }
      var refs := GroupTaskRefs(groups, cmd.task);
      NothingOfTask(groups, cmd.task);
      if refs == [] {
        return Failed(NoSets);
      }
      var held, heldBare := SeamHolders(seams, cmd.name);
      var count := MemberCounts(refs);
      var members := MembersOf(seams, cmd.name);
      var added, skipped := GroupAdded(refs, members, held, heldBare, count);
      CallJudges(seams, cmd.name, groups, cmd.task, held, heldBare);
      var overlaps := SeamOverlaps(members + added, seams, cmd.name);
      var at := GroupBase(seams, cmd, git);
      if at.Refused? {
        return Failed(at.why);
      }
      r := Grouped(Grouping(cmd.name !in seams, added != [], added, members + added, skipped, overlaps, at.base, at.sha));
      if cmd.dryRun {
        return;
      }
      if cmd.name in seams {
        var seam := seams[cmd.name];
        var all := AddMembers(seam.members, added);
        seam := seam.(members := all);
        if seam.task == "" {
          seam := seam.(task := cmd.task);
        }
        seams := seams[cmd.name := seam];
        return;
      }
      seams := seams[cmd.name := Seam(cmd.task, at.base, at.sha, added)];
    }
  }

  // ---------- What a call adds ----------

  lemma {:induction false} AddsMean(s: Set, self: Name, listed: seq<Ref>, refs: seq<Ref>, m: Member)
    ensures m in Adds(s, self, listed, refs) <==>
              exists g :: g in listed && Takes(s, self, refs, g) && MemberFor(g) == Some(m)
  {
    hide Count, HeldElsewhere;
    if listed != [] {
      var init, last := listed[..|listed| - 1], listed[|listed| - 1];
      AddsMean(s, self, init, refs, m);
      assert listed == init + [last];
      assert forall g :: g in listed <==> g in init || g == last;
    }
  }

  lemma {:induction false} AddsDistinct(s: Set, self: Name, k: nat, refs: seq<Ref>)
    requires k <= |refs|
    ensures Distinct(Adds(s, self, refs[..k], refs))
  {
    hide Count;
    if k > 0 {
      AddsDistinct(s, self, k - 1, refs);
      assert refs[..k][..k - 1] == refs[..k - 1];
      if Takes(s, self, refs, refs[k - 1]) {
        var m := MemberFor(refs[k - 1]).value;
        var init := refs[..k - 1];
        AddsMean(s, self, init, refs, m);
        if i :| 0 <= i < |init| && MemberFor(init[i]) == Some(m) {
          CountTwice(refs, m, i, k - 1);
        }
      }
    }
  }

  lemma NothingOfTask(groups: seq<Ref>, task: string)
    ensures TaskRefs(groups, task) == [] <==> NoneOfTask(groups, task)
  {
    hide TaskRefs, TaskCount;
    TaskRefsMean(groups, task);
    var refs := TaskRefs(groups, task);
    assert refs != [] ==> refs[0] in refs;
  }

  lemma CallJudges(s: Set, self: Name, groups: seq<Ref>, task: string, held: map<Member, Name>, heldBare: map<nat, Name>)
    requires Holders(s, self, held, heldBare)
    ensures var refs := TaskRefs(groups, task);
            var v := Verdicts(refs, refs, MembersOf(s, self), held, heldBare);
            && AddedOf(v) == Adds(s, self, refs, refs)
            && OfTask(AddedOf(v), groups, task) && Judged(s, self, refs, AddedOf(v), SkippedOf(v))
  {
    hide Adds, AddedOf, SkippedOf, Judge, Count, HeldElsewhere, Holders, TaskRefs, TaskCount, MembersOf;
    var refs := TaskRefs(groups, task);
    var v := Verdicts(refs, refs, MembersOf(s, self), held, heldBare);
    AddsAre(s, self, |refs|, refs, held, heldBare);
    assert v[..|refs|] == v && refs[..|refs|] == refs;
    TaskRefsMean(groups, task);
    forall m | m in AddedOf(v)
      ensures exists g :: g in groups && g.task == task && g.state == Proposed && MemberFor(g) == Some(m)
    {
      AddsMean(s, self, refs, refs, m);
    }
  }

  /** A stored seam is its old members, in place, then what the call added. */
  lemma StoredMembers(s: Set, cmd: Command, refs: seq<Ref>, base: string, sha: string)
    ensures var added := Adds(s, cmd.name, refs, refs);
            && Distinct(added) && (forall m :: m in added ==> m !in MembersOf(s, cmd.name))
            && Stored(s, cmd, added, base, sha).members == MembersOf(s, cmd.name) + added
  {
    hide Adds, AddAll;
    var added := Adds(s, cmd.name, refs, refs);
    assert refs[..|refs|] == refs;
    AddsDistinct(s, cmd.name, |refs|, refs);
    forall m | m in added ensures m !in MembersOf(s, cmd.name) {
      AddsMean(s, cmd.name, refs, refs, m);
    }
    if cmd.name in s {
      assert forall i :: 0 <= i < |added| ==> added[i] in added;
      AddAllFresh(s[cmd.name].members, added);
    }
  }

  // ---------- Runs ----------

  datatype Call = Call(cmd: Command, groups: seq<Ref>, git: Git)

  ghost function Next(s: Set, c: Call): Set {
    After(s, c.cmd, c.groups, c.git)
  }

  predicate Qualified(s: Set) {
    forall name :: name in s ==> forall i :: 0 <= i < |s[name].members| ==> s[name].members[i].path != ""
  }

  predicate Disjoint(s: Set) {
    forall a, b :: a in s && b in s && a != b ==> forall m :: m in s[a].members ==> m !in s[b].members
  }

  /** Workspace-relative paths are not empty. */
  predicate Placed(groups: seq<Ref>) {
    forall i :: 0 <= i < |groups| ==> groups[i].rel != Some("")
  }

  lemma {:induction false} TaskRefsPlaced(groups: seq<Ref>, task: string)
    requires Placed(groups)
    ensures Placed(TaskRefs(groups, task))
  {
    if groups != [] {
      TaskRefsPlaced(groups[..|groups| - 1], task);
    }
  }

  lemma AddedQualified(s: Set, self: Name, refs: seq<Ref>, m: Member)
    requires Placed(refs) && m in Adds(s, self, refs, refs)
    ensures m.path != "" && !HeldElsewhere(s, self, m)
  {
    hide HeldElsewhere, Count, Adds;
    AddsMean(s, self, refs, refs, m);
  }

  lemma NextDisjoint(s: Set, c: Call)
    requires Disjoint(s) && Placed(c.groups)
    ensures Disjoint(Next(s, c))
  {
    hide Adds, TaskRefs, Count, AddAll, HeldElsewhere, Stored;
    if Next(s, c) != s {
      var name, refs := c.cmd.name, TaskRefs(c.groups, c.cmd.task);
      var at := GroupBase(s, c.cmd, c.git);
      StoredMembers(s, c.cmd, refs, at.base, at.sha);
      TaskRefsPlaced(c.groups, c.cmd.task);
      forall m | m in Adds(s, name, refs, refs) ensures forall b :: b in s && b != name ==> m !in s[b].members {
        AddedQualified(s, name, refs, m);
        NotHeld(s, name, m);
      }
    }
  }

  lemma NextQualified(s: Set, c: Call)
    requires Qualified(s) && Placed(c.groups)
    ensures Qualified(Next(s, c))
  {
    hide Adds, TaskRefs, Count, AddAll, HeldElsewhere, Stored;
    if Next(s, c) != s {
      var name, refs := c.cmd.name, TaskRefs(c.groups, c.cmd.task);
      var at := GroupBase(s, c.cmd, c.git);
      StoredMembers(s, c.cmd, refs, at.base, at.sha);
      TaskRefsPlaced(c.groups, c.cmd.task);
      forall m | m in Adds(s, name, refs, refs) ensures m.path != "" {
        AddedQualified(s, name, refs, m);
      }
    }
  }

  lemma NotHeld(s: Set, self: Name, m: Member)
    requires !HeldElsewhere(s, self, m) && m.path != ""
    ensures forall b :: b in s && b != self ==> m !in s[b].members
  {
    forall b | b in s && b != self ensures m !in s[b].members {
      assert !HoldsFull(s, self, m, b);
    }
  }

  ghost predicate Run(ss: seq<Set>, cs: seq<Call>) {
    && |ss| == |cs| + 1 && Disjoint(ss[0])
    && forall i :: 0 <= i < |cs| ==> Placed(cs[i].groups) && ss[i + 1] == Next(ss[i], cs[i])
  }

  /** Over any run of calls from disjoint seams, bare members among them or not, they
      stay disjoint. */
  lemma {:induction false} SeamsStayDisjoint(ss: seq<Set>, cs: seq<Call>, i: nat)
    requires Run(ss, cs) && i < |ss|
    ensures Disjoint(ss[i])
  {
    hide Next;
    if i > 0 {
      SeamsStayDisjoint(ss, cs, i - 1);
      NextDisjoint(ss[i - 1], cs[i - 1]);
    }
  }

  /** A seam extends another: same base, its members a prefix, its task kept once set. */
  predicate Extends(a: Seam, b: Seam) {
    && b.base == a.base && b.baseSHA == a.baseSHA && a.members <= b.members
    && (a.task != "" ==> b.task == a.task)
  }

  lemma NextExtends(s: Set, c: Call, name: Name)
    requires name in s
    ensures name in Next(s, c) && Extends(s[name], Next(s, c)[name])
  {
    hide Adds, TaskRefs, AddAll;
    if Next(s, c) != s && name == c.cmd.name {
      var at := GroupBase(s, c.cmd, c.git);
      StoredMembers(s, c.cmd, TaskRefs(c.groups, c.cmd.task), at.base, at.sha);
    }
  }

  /** What a call stores: a new seam for the task, on its ref's commit as git resolves it;
      a known one keeps its base, its commit and its task, or gets the call's if it had
      none. No other seam is touched, and a dry run or a refused call stores nothing. */
  lemma CallStores(s: Set, c: Call)
    ensures c.cmd.dryRun || Refusal(s, c.cmd, c.groups, c.git).Some? ==> Next(s, c) == s
    ensures !c.cmd.dryRun && Refusal(s, c.cmd, c.groups, c.git).None? ==>
              var name, s' := c.cmd.name, Next(s, c);
              && s'.Keys == s.Keys + {name} && (forall n :: n in s && n != name ==> s'[n] == s[n])
              && s'[name].task == c.cmd.task
              && if name in s then s'[name].base == s[name].base && s'[name].baseSHA == s[name].baseSHA
                 else
                   && (if c.cmd.base != "" then s'[name].base == c.cmd.base else c.git.detected == Some(s'[name].base))
                   && s'[name].base in c.git.commits && s'[name].baseSHA == c.git.commits[s'[name].base]
  {
    hide Adds, TaskRefs, AddAll;
  }

  /** Members never leave a seam and a seam's base never moves, over any run. */
  lemma {:induction false} SeamsOnlyGrow(ss: seq<Set>, cs: seq<Call>, i: nat, j: nat, name: Name)
    requires Run(ss, cs) && i <= j < |ss| && name in ss[i]
    ensures name in ss[j] && ss[j][name].base == ss[i][name].base && ss[j][name].baseSHA == ss[i][name].baseSHA
    ensures ss[i][name].members <= ss[j][name].members
    ensures ss[i][name].task != "" ==> ss[j][name].task == ss[i][name].task
  {
    hide Next;
    if i < j {
      SeamsOnlyGrow(ss, cs, i, j - 1, name);
      NextExtends(ss[j - 1], cs[j - 1], name);
    }
  }

  /** No set is ever moved: one that a seam names keeps exactly that seam. */
  lemma SetsNeverMove(ss: seq<Set>, cs: seq<Call>, i: nat, j: nat, a: Name, b: Name, m: Member)
    requires Run(ss, cs) && i <= j < |ss| && a in ss[i] && m in ss[i][a].members
    requires b in ss[j] && m in ss[j][b].members
    ensures a == b
  {
    SeamsOnlyGrow(ss, cs, i, j, a);
    SeamsStayDisjoint(ss, cs, j);
    var k :| 0 <= k < |ss[i][a].members| && ss[i][a].members[k] == m;
    assert ss[j][a].members[k] == m;
  }

  lemma {:induction false} NothingTaken(s: Set, self: Name, listed: seq<Ref>, refs: seq<Ref>)
    requires forall i :: 0 <= i < |listed| ==> !Takes(s, self, refs, listed[i])
    ensures Adds(s, self, listed, refs) == []
  {
    hide Takes;
    if listed != [] {
      NothingTaken(s, self, listed[..|listed| - 1], refs);
    }
  }

  /** Repeating a call that was stored adds nothing, and is not refused. */
  lemma RepeatAddsNothing(s: Set, c: Call)
    requires Refusal(s, c.cmd, c.groups, c.git).None? && !c.cmd.dryRun
    ensures var s', refs := Next(s, c), TaskRefs(c.groups, c.cmd.task);
            && Refusal(s', c.cmd, c.groups, c.git).None?
            && Adds(s', c.cmd.name, refs, refs) == [] && Next(s', c) == s'
  {
    hide Adds, TaskRefs, Count, AddAll, HeldElsewhere, Stored;
    var s', refs, name := Next(s, c), TaskRefs(c.groups, c.cmd.task), c.cmd.name;
    var at := GroupBase(s, c.cmd, c.git);
    StoredMembers(s, c.cmd, refs, at.base, at.sha);
    StoredMeta(s, c.cmd, Adds(s, name, refs, refs), at.base, at.sha);
    forall i | 0 <= i < |refs| ensures !Takes(s', name, refs, refs[i]) {
      if MemberFor(refs[i]).Some? {
        var m := MemberFor(refs[i]).value;
        SameHolders(s, name, s'[name], m);
        if Takes(s, name, refs, refs[i]) {
          AddsMean(s, name, refs, refs, m);
        }
      }
    }
    NothingTaken(s', name, refs, refs);
    StoredAgain(s', c.cmd, at.base, at.sha);
  }

  lemma StoredMeta(s: Set, cmd: Command, added: seq<Member>, base: string, sha: string)
    requires Validate(s, cmd).None?
    ensures var t := Stored(s, cmd, added, base, sha);
            && t.task == cmd.task
            && t.base == (if cmd.name in s then s[cmd.name].base else base)
            && t.baseSHA == (if cmd.name in s then s[cmd.name].baseSHA else sha)
  {
  }

  lemma StoredAgain(s: Set, cmd: Command, base: string, sha: string)
    requires cmd.name in s && s[cmd.name].task == cmd.task
    ensures Stored(s, cmd, [], base, sha) == s[cmd.name]
  {
  }

  lemma SameHolders(s: Set, self: Name, seam: Seam, m: Member)
    ensures HeldElsewhere(s[self := seam], self, m) <==> HeldElsewhere(s, self, m)
  {
    var s' := s[self := seam];
    assert forall n :: HoldsFull(s', self, m, n) <==> HoldsFull(s, self, m, n);
    assert forall n :: HoldsBare(s', self, m.id, n) <==> HoldsBare(s, self, m.id, n);
  }

  // ---------- A set named twice ----------

  /** A seam names the set both by its bare id and by its path. */
  predicate Twice(members: seq<Member>, m: Member) {
    m.path != "" && m in members && Member(m.id, "") in members
  }

  /** A call that is stored makes its seam name a set twice exactly when the seam already
      holds the set's bare id and the call takes the set, which that does not prevent. */
  lemma NamedTwiceExactly(s: Set, c: Call, m: Member)
    requires Refusal(s, c.cmd, c.groups, c.git).None? && !c.cmd.dryRun && Placed(c.groups)
    requires m.path != "" && !Twice(MembersOf(s, c.cmd.name), m)
    ensures var refs := TaskRefs(c.groups, c.cmd.task);
            Twice(MembersOf(Next(s, c), c.cmd.name), m) <==>
              && Member(m.id, "") in MembersOf(s, c.cmd.name)
              && exists g :: g in refs && Takes(s, c.cmd.name, refs, g) && MemberFor(g) == Some(m)
  {
    hide Adds, TaskRefs, Count, AddAll, HeldElsewhere, Stored, Takes;
    var name, refs := c.cmd.name, TaskRefs(c.groups, c.cmd.task);
    var at := GroupBase(s, c.cmd, c.git);
    StoredMembers(s, c.cmd, refs, at.base, at.sha);
    TaskRefsPlaced(c.groups, c.cmd.task);
    AddsMean(s, name, refs, refs, m);
    forall x | x in Adds(s, name, refs, refs) ensures x.path != "" {
      AddedQualified(s, name, refs, x);
    }
  }

  /** So where every member was path-qualified to begin with, no run names a set twice. */
  lemma {:induction false} SetsNamedOnce(ss: seq<Set>, cs: seq<Call>, i: nat)
    requires Run(ss, cs) && i < |ss| && Qualified(ss[0])
    ensures Qualified(ss[i])
    ensures forall name, m :: name in ss[i] ==> !Twice(ss[i][name].members, m)
  {
    hide Next;
    if i > 0 {
      SetsNamedOnce(ss, cs, i - 1);
      NextQualified(ss[i - 1], cs[i - 1]);
    }
  }

  /** And one bare member is enough for it: a call adds the same set again, by its path. */
  lemma OwnBareMemberIsAddedAgain()
    ensures var s: Set := map["s" := Seam("t", "main", "1", [Member(7, "")])];
            var c := Call(Command("s", "t", "", false, false), [Ref(7, Some("a.go"), "t", Proposed)], Git(None, map[]));
            && Refusal(s, c.cmd, c.groups, c.git).None? && Disjoint(s)
            && "s" in Next(s, c) && Twice(Next(s, c)["s"].members, Member(7, "a.go"))
  {
    hide Adds, AddAll, Stored;
    var s: Set := map["s" := Seam("t", "main", "1", [Member(7, "")])];
    var g := Ref(7, Some("a.go"), "t", Proposed);
    var c := Call(Command("s", "t", "", false, false), [g], Git(None, map[]));
    assert [g][..0] == [];
    assert TaskRefs([g], "t") == [g];
    assert Count([g], Member(7, "a.go")) == 1;
    assert Takes(s, "s", [g], g) && g in [g];
    NamedTwiceExactly(s, c, Member(7, "a.go"));
  }

  // ---------- memberFinder and qualifyGroups ----------

  predicate Numbers(groups: seq<Ref>, id: nat, m: Member) {
    m.id == id && exists i :: 0 <= i < |groups| && MemberFor(groups[i]) == Some(m)
  }

  /** Exactly one live buffer numbers the id: the member it gives. */
  ghost predicate Sole(groups: seq<Ref>, id: nat, m: Member) {
    Numbers(groups, id, m) && forall n :: Numbers(groups, id, n) ==> n == m
  }

  lemma NumbersOneMore(groups: seq<Ref>, g: Ref)
    ensures forall id: nat, m :: Numbers(groups + [g], id, m) <==>
              Numbers(groups, id, m) || (m.id == id && MemberFor(g) == Some(m))
  {
    var t := groups + [g];
    assert t[|groups|] == g;
    forall id: nat, m ensures Numbers(t, id, m) <==> Numbers(groups, id, m) || (m.id == id && MemberFor(g) == Some(m)) {
      if i :| 0 <= i < |groups| && MemberFor(groups[i]) == Some(m) {
        assert MemberFor(t[i]) == Some(m);
      }
    }
  }

  /** The index both readers build: the first member seen for each id, and the ids a
      second, different member was seen for. */
  method IndexGroups(groups: seq<Ref>) returns (byID: map<nat, Member>, ambiguous: set<nat>)
    ensures Indexed(groups, byID, ambiguous)
  {
    hide Numbers;
    byID, ambiguous := map[], {};
    NobodyNumbers();
    for k := 0 to |groups|
      invariant Indexed(groups[..k], byID, ambiguous)
    {
      assert groups[..k + 1] == groups[..k] + [groups[k]];
      IndexedOneMore(groups[..k], groups[k], byID, ambiguous);
      var q := MemberFor(groups[k]);
      if q.None? {
        continue;
      }
      var m := q.value;
      if m.id in byID && byID[m.id] != m {
        ambiguous := ambiguous + {m.id};
        continue;
      }
      byID := byID[m.id := m];
    }
    assert groups[..|groups|] == groups;
  }

  /** `byID` has one member for every id that has any, and `ambiguous` the ids that have
      another. */
  ghost predicate Indexed(groups: seq<Ref>, byID: map<nat, Member>, ambiguous: set<nat>) {
    && (forall id :: id in byID ==> Numbers(groups, id, byID[id]))
    && (forall id: nat, m :: Numbers(groups, id, m) ==> id in byID && (m != byID[id] ==> id in ambiguous))
    && forall id :: id in ambiguous ==> id in byID && exists m :: Numbers(groups, id, m) && m != byID[id]
  }

  lemma IndexedOneMore(groups: seq<Ref>, g: Ref, byID: map<nat, Member>, ambiguous: set<nat>)
    requires Indexed(groups, byID, ambiguous)
    ensures MemberFor(g).None? ==> Indexed(groups + [g], byID, ambiguous)
    ensures MemberFor(g).Some? ==>
              var m := MemberFor(g).value;
              if m.id in byID && byID[m.id] != m then Indexed(groups + [g], byID, ambiguous + {m.id})
              else Indexed(groups + [g], byID[m.id := m], ambiguous)
  {
    hide Numbers;
    var more := groups + [g];
    NumbersOneMore(groups, g);
    forall id | id in ambiguous ensures exists m :: Numbers(more, id, m) && m != byID[id] {
      var m :| Numbers(groups, id, m) && m != byID[id];
      assert Numbers(more, id, m);
    }
    if MemberFor(g).Some? {
      assert Numbers(more, MemberFor(g).value.id, MemberFor(g).value);
    }
  }

  lemma NobodyNumbers()
    ensures forall id: nat, m :: !Numbers([], id, m)
  {
  }

  /** Bare ids become members only when each is numbered by exactly one live buffer. */
  method QualifyGroups(ids: seq<nat>, groups: seq<Ref>) returns (r: Option<seq<Member>>)
    ensures r.Some? ==> |r.value| == |ids| && forall i :: 0 <= i < |ids| ==> Sole(groups, ids[i], r.value[i])
    ensures r.None? ==> exists i :: 0 <= i < |ids| && forall m :: !Sole(groups, ids[i], m)
  {
    hide Numbers;
    var byID, ambiguous := IndexGroups(groups);
    var out: seq<Member> := [];
    for k := 0 to |ids|
      invariant |out| == k && forall i :: 0 <= i < k ==> Sole(groups, ids[i], out[i])
    {
      var id := ids[k];
      if id in ambiguous {
        return None;
      }
      if id !in byID {
        return None;
      }
      out := out + [byID[id]];
    }
    return Some(out);
  }

  method LiveMembers(groups: seq<Ref>) returns (live: set<Member>)
    ensures forall m :: m in live <==> Numbers(groups, m.id, m)
  {
    live := {};
    for k := 0 to |groups|
      invariant forall m :: m in live <==> Numbers(groups[..k], m.id, m)
    {
      NumbersOneMore(groups[..k], groups[k]);
      assert groups[..k + 1] == groups[..k] + [groups[k]];
      if MemberFor(groups[k]).Some? {
        live := live + {MemberFor(groups[k]).value};
      }
    }
    assert groups[..|groups|] == groups;
  }

  /** A stored member is found if its buffer still numbers it; a bare one only if exactly
      one live buffer numbers its id. */
  method FindMember(want: Member, groups: seq<Ref>) returns (r: Option<Member>)
    ensures want.path != "" ==> r == if Numbers(groups, want.id, want) then Some(want) else None
    ensures want.path == "" && r.Some? ==> Sole(groups, want.id, r.value)
    ensures want.path == "" && r.None? ==> forall m :: !Sole(groups, want.id, m)
  {
    hide Numbers;
    var byID, ambiguous := IndexGroups(groups);
    if want.path != "" {
      var live := LiveMembers(groups);
      return if want in live then Some(want) else None;
    }
    if want.id in ambiguous {
      return None;
    }
    if want.id !in byID {
      return None;
    }
    return Some(byID[want.id]);
  }
}
