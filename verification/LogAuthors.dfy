/** Who a restored change belongs to: the task each change set comes back under, and
    the author table a restart seeds. */
module LogAuthors {
  import opened Options
  import opened PieceTable
  import opened OpLog

  /** The task of the newest author row before record `i` for the op it holds. */
  function TaskBefore(l: seq<Record>, i: nat): string {
    if i >= |l| || !l[i].OpRec? then "" else
    var rows := FrontierOf(l[..i]).authors;
    if l[i].op.author in rows then rows[l[i].op.author].task else ""
  }

  predicate Opens(l: seq<Record>, i: nat, g: u64) {
    i < |l| && l[i].OpRec? && l[i].op.group == g && TaskBefore(l, i) != ""
  }

  /** The first op of `g` whose writer has a task, which need not be the op that opened
      the set: a set opened by a writer without one takes the task of a later member. */
  ghost predicate TasksFollow(l: seq<Record>, tasks: map<u64, string>) {
    && (forall i: nat, g :: Opens(l, i, g) ==> g in tasks)
    && (forall g :: g in tasks ==>
          exists i: nat :: FirstOpens(l, i, g) && tasks[g] == TaskBefore(l, i))
  }

  lemma OpensPrefix(l: seq<Record>, i: nat, g: u64)
    requires l != [] && i < |l| - 1
    ensures Opens(l, i, g) <==> Opens(l[..|l| - 1], i, g)
    ensures TaskBefore(l, i) == TaskBefore(l[..|l| - 1], i)
  {
    assert l[..|l| - 1][..i] == l[..i];
  }

  lemma AuthorTaskStep(f: Frame, t: Frontier, r: Record)
    requires ScanStep(f, r).Some?
    requires f.authorTask.Keys == t.authors.Keys && forall a :: a in f.authorTask ==> f.authorTask[a] == t.authors[a].task
    ensures var g, u := ScanStep(f, r).value, Read(t, r);
            g.authorTask.Keys == u.authors.Keys && forall a :: a in g.authorTask ==> g.authorTask[a] == u.authors[a].task
  {
  }

  lemma {:induction false} ScanAuthorTasks(f: Frame, l: seq<Record>)
    requires f.authorTask == map[] && Scan(f, l).Some?
    ensures var g := Scan(f, l).value;
            && g.authorTask.Keys == FrontierOf(l).authors.Keys
            && (forall a :: a in g.authorTask ==> g.authorTask[a] == FrontierOf(l).authors[a].task)
  {
    hide ScanStep, Read;
    if l != [] {
      var pre, r := l[..|l| - 1], l[|l| - 1];
      ScanAuthorTasks(f, pre);
      AuthorTaskStep(Scan(f, pre).value, FrontierOf(pre), r);
    }
  }

  /** Record `i` is the first that gives `g` a task. */
  ghost predicate FirstOpens(l: seq<Record>, i: nat, g: u64) {
    Opens(l, i, g) && forall j: nat :: j < i ==> !Opens(l, j, g)
  }

  lemma OpensShorter(l: seq<Record>, g: u64)
    requires l != []
    ensures var pre := l[..|l| - 1];
            && (forall i: nat :: i < |pre| ==> (Opens(l, i, g) <==> Opens(pre, i, g)))
            && (forall i: nat :: i < |pre| && Opens(l, i, g) ==> TaskBefore(l, i) == TaskBefore(pre, i))
  {
    forall i: nat | i < |l| - 1 ensures Opens(l, i, g) <==> Opens(l[..|l| - 1], i, g) {
      OpensPrefix(l, i, g);
    }
    forall i: nat | i < |l| - 1 && Opens(l, i, g) ensures TaskBefore(l, i) == TaskBefore(l[..|l| - 1], i) {
      OpensPrefix(l, i, g);
    }
  }

  lemma TasksStep(l: seq<Record>, before: map<u64, string>, now: map<u64, string>)
    requires l != [] && TasksFollow(l[..|l| - 1], before)
    requires var r := l[|l| - 1];
             now == if r.OpRec? && r.op.group !in before && TaskBefore(l, |l| - 1) != ""
                    then before[r.op.group := TaskBefore(l, |l| - 1)] else before
    ensures TasksFollow(l, now)
  {
    hide TaskBefore, Opens;
    var pre, n := l[..|l| - 1], |l| - 1;
    forall g | g in now ensures exists i: nat :: FirstOpens(l, i, g) && now[g] == TaskBefore(l, i) {
      OpensShorter(l, g);
      TasksStepOne(l, before, now, g);
    }
    forall i: nat, g | Opens(l, i, g) ensures g in now {
      OpensShorter(l, g);
      LastOpens(l, i, g);
    }
  }

  lemma LastOpens(l: seq<Record>, i: nat, g: u64)
    requires Opens(l, i, g)
    ensures i < |l| && l[i].OpRec? && l[i].op.group == g && TaskBefore(l, i) != ""
  {
  }

  lemma TasksStepOne(l: seq<Record>, before: map<u64, string>, now: map<u64, string>, g: u64)
    requires l != [] && TasksFollow(l[..|l| - 1], before) && g in now
    requires var r := l[|l| - 1];
             now == if r.OpRec? && r.op.group !in before && TaskBefore(l, |l| - 1) != ""
                    then before[r.op.group := TaskBefore(l, |l| - 1)] else before
    ensures exists i: nat :: FirstOpens(l, i, g) && now[g] == TaskBefore(l, i)
  {
    var pre, n := l[..|l| - 1], |l| - 1;
    OpensShorter(l, g);
    if g in before {
      var i: nat :| FirstOpens(pre, i, g) && before[g] == TaskBefore(pre, i);
      assert FirstOpens(l, i, g);
    } else {
      assert FirstOpens(l, n, g);
    }
  }

  lemma {:induction false} ScanTasks(base: Bytes, l: seq<Record>)
    requires Scan(FreshFrame(base), l).Some?
    ensures TasksFollow(l, Scan(FreshFrame(base), l).value.groupTask)
  {
    hide TasksFollow;
    if l == [] {
      NoTasks();
    } else {
      var pre, f0 := l[..|l| - 1], FreshFrame(base);
      ScanTasks(base, pre);
      ScanAuthorTasks(f0, pre);
      assert l[..|l| - 1] == pre;
      TasksStep(l, Scan(f0, pre).value.groupTask, Scan(f0, l).value.groupTask);
    }
  }

  lemma NoTasks()
    ensures TasksFollow([], map[])
  {
  }

  /** A restored change set carries the task of its first member whose writer's newest
      earlier row names one, and no other set carries a task. */
  lemma RestoredTasks(l: seq<Record>)
    requires Build(l).Some?
    ensures TasksFollow(l, Build(l).value.tasks)
  {
    ScanTasks(BaseOf(l).value.bytes, l);
  }

  // ---------- The first op of a set ----------

  /** Record `i` is an op of change set `g`, and the first one. */
  predicate IsMember(l: seq<Record>, i: nat, g: u64) {
    i < |l| && l[i].OpRec? && l[i].op.group == g
  }

  predicate IsFirst(l: seq<Record>, i: nat, g: u64) {
    IsMember(l, i, g) && forall j :: 0 <= j < i ==> !IsMember(l, j, g)
  }

  function GroupTask(s: Session, g: u64): string {
    if g in s.tasks then s.tasks[g] else ""
  }

  /** The task of the op that opened the set is the restored one if and only if that op's
      writer had a task at its record, or no later member's writer had one at its own. */
  lemma FirstOpDecides(l: seq<Record>, g: u64, i: nat)
    requires Build(l).Some? && IsFirst(l, i, g)
    ensures GroupTask(Build(l).value, g) == TaskBefore(l, i) <==>
              TaskBefore(l, i) != "" || forall j :: i < j < |l| && IsMember(l, j, g) ==> TaskBefore(l, j) == ""
  {
    hide TaskBefore, Build;
    RestoredTasks(l);
    var tasks := Build(l).value.tasks;
    forall j: nat ensures Opens(l, j, g) <==> IsMember(l, j, g) && TaskBefore(l, j) != "" {
    }
    if g in tasks {
      var k: nat :| FirstOpens(l, k, g) && tasks[g] == TaskBefore(l, k);
      assert IsMember(l, k, g) && i <= k;
    }
  }

  const FIRST := OneByteWrite(0, 1, 0, 1, 0, 7)
  const SECOND := OneByteWrite(1, 2, 1, 2, 0, 7)

  /** One set of two writes: its first writer has no task, its second has `"T"`. */
  function LateTaskLog(): seq<Record> {
    [Base([], []), StoreAppend(1, 0, [65]), OpRec(FIRST),
     StoreAppend(2, 0, [66]), Author(AuthorRow(2, "", "", 0, "T")), OpRec(SECOND)]
  }

  /** That log is restored with the task of the second write; its first write has none. */
  lemma LaterMemberNamesTask()
    ensures Build(LateTaskLog()).Some?
    ensures IsFirst(LateTaskLog(), 2, 7) && TaskBefore(LateTaskLog(), 2) == ""
    ensures GroupTask(Build(LateTaskLog()).value, 7) == "T"
  {
    hide CheckJournalRecs, FromJournalOp, Append, Scan, TaskBefore;
    LateTaskScan();
    NoRowYet(LateTaskLog());
    assert BaseOf(LateTaskLog()) == Some(LateTaskLog()[0]);
  }

  lemma LateTaskScan()
    ensures var f := Scan(FreshFrame([]), LateTaskLog());
            f.Some? && f.value.groupTask == map[7 := "T"] && SeqIsIndex(f.value.ops)
  {
    hide CheckJournalRecs, FromJournalOp, Append, Scan;
    var l, f0 := LateTaskLog(), FreshFrame([]);
    var t1, t2 := [[], [65], []], [[], [65], [66]];
    StoreSlots();
    OneByteWriteReads(0, 1, 0, 1, 0, 7);
    OneByteWriteReads(1, 2, 1, 2, 0, 7);
    OneByteWriteChecks(t1, 1, 0);
    OneByteWriteChecks(t2, 2, 0);
    var a, b := FromJournalOp(FIRST), FromJournalOp(SECOND);
    var f1 := f0.(texts := t1);
    var f2 := f1.(ops := [a]);
    var f3 := f2.(texts := t2);
    var f4 := f3.(authorTask := map[2 := "T"]);
    var f5 := f4.(ops := [a, b], groupTask := map[7 := "T"]);
    assert [] + [a] == [a] && [a] + [b] == [a, b];
    ScanNothing(f0, l);
    ScanTo(f0, l, 0, f0, f0);
    ScanTo(f0, l, 1, f0, f1);
    ScanTo(f0, l, 2, f1, f2);
    ScanTo(f0, l, 3, f2, f3);
    ScanTo(f0, l, 4, f3, f4);
    ScanTo(f0, l, 5, f4, f5);
    assert l[..6] == l;
  }

  lemma StoreSlots()
    ensures NewTexts([]) == [[], [], []]
    ensures Append([[], [], []], 1, [65]) == [[], [65], []]
    ensures Append([[], [65], []], 2, [66]) == [[], [65], [66]]
  {
    assert [] + [65] == [65] && [] + [66] == [66];
  }

  lemma NoRowYet(l: seq<Record>)
    requires l == LateTaskLog()
    ensures TaskBefore(l, 2) == ""
  {
    var pre := l[..2];
    assert pre[..1] == [l[0]] && [l[0]][..0] == [];
    assert FrontierOf([l[0]]).authors == map[];
    assert FrontierOf(pre) == Read(FrontierOf([l[0]]), l[1]);
  }

  // ---------- The author table ----------

  /** The newest non-empty task recorded for `id`: a row without one never erases it. */
  function LastTask(rows: seq<AuthorRow>, id: u8): string {
    if rows == [] then ""
    else
      var r := rows[|rows| - 1];
      if r.id == id && r.task != "" then r.task else LastTask(rows[..|rows| - 1], id)
  }

  function LastRow(rows: seq<AuthorRow>, id: u8): (r: Option<AuthorRow>)
    ensures r.Some? ==> r.value.id == id
  {
    if rows == [] then None
    else if rows[|rows| - 1].id == id then Some(rows[|rows| - 1])
    else LastRow(rows[..|rows| - 1], id)
  }

  /** The ids with a row, in order of first appearance. */
  function IdsSeen(rows: seq<AuthorRow>): seq<u8> {
    if rows == [] then []
    else
      var ids := IdsSeen(rows[..|rows| - 1]);
      var id := rows[|rows| - 1].id;
      if id in ids then ids else ids + [id]
  }

  lemma {:induction false} IdsSeenOnce(rows: seq<AuthorRow>)
    ensures var ids := IdsSeen(rows);
            && (forall i, j :: 0 <= i < j < |ids| ==> ids[i] != ids[j])
            && (forall id: u8 :: id in ids <==> LastRow(rows, id).Some?)
            && (forall k :: 0 <= k < |rows| ==> rows[k].id in ids)
  {
    if rows != [] {
      var pre := rows[..|rows| - 1];
      IdsSeenOnce(pre);
      assert forall k :: 0 <= k < |pre| ==> rows[k] == pre[k];
    }
  }

  lemma SeededOnce(rows: seq<AuthorRow>, seeded: seq<AuthorRow>)
    requires |seeded| == |IdsSeen(rows)|
    requires forall i :: 0 <= i < |seeded| ==> seeded[i].id == IdsSeen(rows)[i]
    ensures forall i, j :: 0 <= i < j < |seeded| ==> seeded[i].id != seeded[j].id
    ensures forall id: u8 :: LastRow(rows, id).Some? <==> exists i :: 0 <= i < |seeded| && seeded[i].id == id
  {
    hide IdsSeen, LastRow;
    IdsSeenOnce(rows);
    var ids := IdsSeen(rows);
    forall id: u8 ensures LastRow(rows, id).Some? <==> exists i :: 0 <= i < |seeded| && seeded[i].id == id {
      if LastRow(rows, id).Some? {
        var i :| 0 <= i < |ids| && ids[i] == id;
        assert seeded[i].id == id;
      }
      if i :| 0 <= i < |seeded| && seeded[i].id == id {
        assert ids[i] in ids;
      }
    }
  }

  /** What the loop has gathered from the rows read so far. */
  ghost predicate Noted(rows: seq<AuthorRow>, latest: map<u8, AuthorRow>, order: seq<u8>) {
    && order == IdsSeen(rows)
    && (forall id: u8 :: id in order <==> id in latest)
    && (forall id: u8 :: id in latest <==> LastRow(rows, id).Some?)
    && (forall id: u8 :: id in latest ==> latest[id] == LastRow(rows, id).value.(task := LastTask(rows, id)))
    && forall id: u8 :: id !in latest ==> LastTask(rows, id) == ""
  }

  lemma RowAdd(rows: seq<AuthorRow>, p: AuthorRow, id: u8)
    ensures LastRow(rows + [p], id) == if p.id == id then Some(p) else LastRow(rows, id)
    ensures LastTask(rows + [p], id) == if p.id == id && p.task != "" then p.task else LastTask(rows, id)
    ensures IdsSeen(rows + [p]) == if p.id in IdsSeen(rows) then IdsSeen(rows) else IdsSeen(rows) + [p.id]
  {
    assert (rows + [p])[..|rows|] == rows;
  }

  lemma NotedAdd(rows: seq<AuthorRow>, p: AuthorRow, latest: map<u8, AuthorRow>, order: seq<u8>)
    requires Noted(rows, latest, order)
    ensures var kept := if p.id in latest && p.task == "" then p.(task := latest[p.id].task) else p;
            Noted(rows + [p], latest[p.id := kept], if p.id in latest then order else order + [p.id])
  {
    hide LastRow, LastTask, IdsSeen;
    forall id: u8
      ensures LastRow(rows + [p], id) == if p.id == id then Some(p) else LastRow(rows, id)
      ensures LastTask(rows + [p], id) == if p.id == id && p.task != "" then p.task else LastTask(rows, id)
    {
      RowAdd(rows, p, id);
    }
    RowAdd(rows, p, p.id);
  }

  /** Seeds each id once, with its newest row and the newest task it ever named. */
  method SeedParticipants(rows: seq<AuthorRow>) returns (seeded: seq<AuthorRow>)
    ensures |seeded| == |IdsSeen(rows)|
    ensures forall i, j :: 0 <= i < j < |seeded| ==> seeded[i].id != seeded[j].id
    ensures forall id: u8 :: LastRow(rows, id).Some? <==> exists i :: 0 <= i < |seeded| && seeded[i].id == id
    ensures forall i :: 0 <= i < |seeded| ==>
              var id := IdsSeen(rows)[i];
              LastRow(rows, id).Some? && seeded[i] == LastRow(rows, id).value.(task := LastTask(rows, id))
  {
    hide LastRow, LastTask, IdsSeen;
    var latest: map<u8, AuthorRow> := map[];
    var order: seq<u8> := [];
    NothingNoted();
    for k := 0 to |rows|
      invariant Noted(rows[..k], latest, order)
    {
      assert rows[..k + 1] == rows[..k] + [rows[k]];
      NotedAdd(rows[..k], rows[k], latest, order);
      var p := rows[k];
      if p.id in latest {
        if p.task == "" {
          p := p.(task := latest[p.id].task);
        }
      } else {
        order := order + [p.id];
      }
      latest := latest[p.id := p];
    }
    assert rows[..|rows|] == rows;
    seeded := [];
    for k := 0 to |order|
      invariant |seeded| == k && forall i :: 0 <= i < k ==> order[i] in latest && seeded[i] == latest[order[i]]
    {
      assert order[k] in order;
      seeded := seeded + [latest[order[k]]];
    }
    SeededOnce(rows, seeded);
  }

  lemma NothingNoted()
    ensures Noted([], map[], [])
  {
  }
}
