/** Code lenses: the store of answers, their install, and the draw that drops stale ones. */
module Lenses {
  import opened Options

  type Path = string

  const MAX_RESOLVES := 32

  datatype Lens = Lens(line: nat, command: Option<string>, data: string)

  /** One line's inline run. */
  datatype Hint = Hint(line: nat, text: string)

  /** ASCII white space. */
  const SPACES := " \t\n\U{B}\U{C}\r"

  predicate IsSpace(c: char) {
    c == ' ' || '\t' <= c <= '\r'
  }

  function TrimLeft(s: string): string {
    if s != "" && IsSpace(s[0]) then TrimLeft(s[1..]) else s
  }

  function TrimRight(s: string): string {
    if s != "" && IsSpace(s[|s| - 1]) then TrimRight(s[..|s| - 1]) else s
  }

  function LensText(l: Lens): string {
    match l.command
    case Some(title) => TrimRight(TrimLeft(title))
    case None => if l.data == "" then "" else "code lens"
  }

  // ---------- lensLineHints ----------

  /** The lines with a title, by first appearance. */
  function Order(lenses: seq<Lens>): seq<nat> {
    if lenses == [] then []
    else
      var before, last := Order(lenses[..|lenses| - 1]), lenses[|lenses| - 1];
      if LensText(last) == "" || last.line in before then before else before + [last.line]
  }

  function Titles(lenses: seq<Lens>, line: nat): seq<string> {
    if lenses == [] then []
    else
      var last := lenses[|lenses| - 1];
      Titles(lenses[..|lenses| - 1], line) + if last.line == line && LensText(last) != "" then [LensText(last)] else []
  }

  function Join(parts: seq<string>): string {
    if parts == [] then "" else if |parts| == 1 then parts[0] else Join(parts[..|parts| - 1]) + "    " + parts[|parts| - 1]
  }

  function LineHints(lenses: seq<Lens>): seq<Hint> {
    var order := Order(lenses);
    seq(|order|, i requires 0 <= i < |order| => Hint(order[i], Join(Titles(lenses, order[i]))))
  }

  method LensLineHints(lenses: seq<Lens>) returns (out: seq<Hint>)
    ensures out == LineHints(lenses)
  {
    hide LensText, Order, Titles, Gathered;
    NothingGathered();
    var byLine: map<nat, seq<string>>, order: seq<nat> := map[], [];
    for k := 0 to |lenses|
      invariant order == Order(lenses[..k])
      invariant Gathered(lenses[..k], byLine)
    {
      GatherOne(lenses[..k], lenses[k], byLine);
      assert lenses[..k + 1] == lenses[..k] + [lenses[k]];
      var title, line := LensText(lenses[k]), lenses[k].line;
      if title == "" {
        continue;
      }
      if line !in byLine {
        order := order + [line];
      }
      byLine := byLine[line := (if line in byLine then byLine[line] else []) + [title]];
    }
    assert lenses[..|lenses|] == lenses;
    GatheredAll(lenses, byLine);
    out := [];
    for k := 0 to |order|
      invariant |out| == k && forall i :: 0 <= i < k ==> out[i] == Hint(order[i], Join(Titles(lenses, order[i])))
    {
      assert order[k] in order;
      out := out + [Hint(order[k], Join(byLine[order[k]]))];
    }
  }

  /** The titles collected so far, by line. */
  ghost predicate Gathered(lenses: seq<Lens>, byLine: map<nat, seq<string>>) {
    && (forall line :: line in byLine <==> line in Order(lenses))
    && forall line: nat :: Titles(lenses, line) == if line in byLine then byLine[line] else []
  }

  lemma NothingGathered()
    ensures Order([]) == [] && Gathered([], map[])
  {
  }

  lemma GatheredAll(lenses: seq<Lens>, byLine: map<nat, seq<string>>)
    requires Gathered(lenses, byLine)
    ensures forall line :: line in Order(lenses) ==> line in byLine && byLine[line] == Titles(lenses, line)
  {
  }

  lemma GatherOne(lenses: seq<Lens>, l: Lens, byLine: map<nat, seq<string>>)
    requires Gathered(lenses, byLine)
    ensures var more := lenses + [l];
            if LensText(l) == "" then Order(more) == Order(lenses) && Gathered(more, byLine)
            else
              && Order(more) == (if l.line in byLine then Order(lenses) else Order(lenses) + [l.line])
              && Gathered(more, byLine[l.line := (if l.line in byLine then byLine[l.line] else []) + [LensText(l)]])
  {
    hide LensText;
    assert (lenses + [l])[..|lenses|] == lenses;
  }

  lemma {:induction false} OrderMeans(lenses: seq<Lens>, line: nat)
    ensures line in Order(lenses) <==> exists l :: l in lenses && l.line == line && LensText(l) != ""
    ensures forall i, j :: 0 <= i < j < |Order(lenses)| ==> Order(lenses)[i] != Order(lenses)[j]
  {
    hide LensText;
    if lenses != [] {
      var init, last := lenses[..|lenses| - 1], lenses[|lenses| - 1];
      OrderMeans(init, line);
      assert lenses == init + [last];
      assert forall l :: l in lenses <==> l in init || l == last;
    }
  }

  /** A line has one run, and has it exactly when a lens on it has a title to show. */
  lemma OneHintPerLine(lenses: seq<Lens>, line: nat)
    ensures (exists i :: 0 <= i < |LineHints(lenses)| && LineHints(lenses)[i].line == line) <==>
              exists l :: l in lenses && l.line == line && LensText(l) != ""
    ensures forall i, j :: 0 <= i < j < |LineHints(lenses)| ==> LineHints(lenses)[i].line != LineHints(lenses)[j].line
  {
    hide LensText;
    OrderMeans(lenses, line);
    var order, hints := Order(lenses), LineHints(lenses);
    if line in order {
      var i :| 0 <= i < |order| && order[i] == line;
      assert hints[i].line == line;
    }
  }

  /** What a lens shows: its command's title without the white space around it, nothing if
      that leaves nothing, and a stand-in for a lens still to be resolved. */
  lemma LensTextMeans(l: Lens)
    ensures l.command == None ==> LensText(l) == if l.data != "" then "code lens" else ""
    ensures l.command.Some? ==>
              var title, text := l.command.value, LensText(l);
              && (exists a: nat, b: nat :: a <= b <= |title| && text == title[a..b]
                    && (forall i :: 0 <= i < a || b <= i < |title| ==> title[i] in SPACES))
              && (text != "" ==> text[0] !in SPACES && text[|text| - 1] !in SPACES)
  {
    if l.command.Some? {
      var title := l.command.value;
      var a := TrimmedLeft(title);
      var left := TrimLeft(title);
      var b := TrimmedRight(left);
      assert LensText(l) == title[a..a + b];
    }
  }

  lemma Spaces(c: char)
    ensures IsSpace(c) <==> c in SPACES
  {
  }

  lemma {:induction false} TrimmedLeft(s: string) returns (a: nat)
    ensures a <= |s| && TrimLeft(s) == s[a..]
    ensures forall i :: 0 <= i < a ==> s[i] in SPACES
    ensures a < |s| ==> s[a] !in SPACES
  {
    a := 0;
    if s != "" {
      Spaces(s[0]);
      if IsSpace(s[0]) {
        a := TrimmedLeft(s[1..]);
        a := a + 1;
      }
    }
  }

  lemma {:induction false} TrimmedRight(s: string) returns (b: nat)
    ensures b <= |s| && TrimRight(s) == s[..b]
    ensures forall i :: b <= i < |s| ==> s[i] in SPACES
    ensures b > 0 ==> s[b - 1] !in SPACES
  {
    b := |s|;
    if s != "" {
      Spaces(s[|s| - 1]);
      if IsSpace(s[|s| - 1]) {
        b := TrimmedRight(s[..|s| - 1]);
      }
    }
  }

  predicate ShowsOn(l: Lens, line: nat) {
    l.line == line && LensText(l) != ""
  }

  /** How many of the lenses show something on the line. */
  function ShownOn(lenses: seq<Lens>, line: nat): nat {
    if lenses == [] then 0
    else ShownOn(lenses[..|lenses| - 1], line) + if ShowsOn(lenses[|lenses| - 1], line) then 1 else 0
  }

  /** A line's titles are those of its lenses, all of them and in server order: a lens's
      place is how many on its line come before it. */
  lemma {:induction false} TitlesMean(lenses: seq<Lens>, line: nat)
    ensures |Titles(lenses, line)| == ShownOn(lenses, line)
    ensures forall i :: 0 <= i < |lenses| && ShowsOn(lenses[i], line) ==>
              var k := ShownOn(lenses[..i], line);
              k < |Titles(lenses, line)| && Titles(lenses, line)[k] == LensText(lenses[i])
  {
    hide LensText;
    if lenses != [] {
      var init := lenses[..|lenses| - 1];
      TitlesMean(init, line);
      assert forall i :: 0 <= i < |lenses| ==> lenses[..i] == init[..i];
    }
  }

  /** Where a title starts in its line's run: the titles before it, four spaces after each. */
  function Offset(parts: seq<string>, i: nat): nat
    requires i <= |parts|
  {
    if i == 0 then 0 else Offset(parts, i - 1) + |parts[i - 1]| + 4
  }

  lemma {:induction false} OffsetSame(a: seq<string>, b: seq<string>, i: nat)
    requires i <= |a| && i <= |b| && a[..i] == b[..i]
    ensures Offset(a, i) == Offset(b, i)
  {
    if i > 0 {
      assert a[..i - 1] == a[..i][..i - 1] && b[..i - 1] == b[..i][..i - 1];
      assert a[i - 1] == a[..i][i - 1] && b[i - 1] == b[..i][i - 1];
      OffsetSame(a, b, i - 1);
    }
  }

  /** The run is its titles, each at its offset with four spaces before the next, and
      nothing more. */
  lemma {:induction false} JoinMeans(parts: seq<string>, i: nat)
    requires i < |parts|
    ensures |Join(parts)| + 4 == Offset(parts, |parts|) && Offset(parts, i) + |parts[i]| <= |Join(parts)|
    ensures Join(parts)[Offset(parts, i)..Offset(parts, i) + |parts[i]|] == parts[i]
    ensures i > 0 ==> 4 <= Offset(parts, i) && Join(parts)[Offset(parts, i) - 4..Offset(parts, i)] == "    "
  {
    var n := |parts| - 1;
    var init := parts[..n];
    if n > 0 {
      JoinMeans(init, if i < n then i else 0);
      OffsetSame(parts, init, n);
      if i < n {
        OffsetSame(parts, init, i);
        assert Join(parts)[..|Join(init)|] == Join(init);
        JoinPrefix(Join(parts), Join(init), Offset(parts, i), Offset(parts, i) + |parts[i]|);
        if i > 0 {
          JoinPrefix(Join(parts), Join(init), Offset(parts, i) - 4, Offset(parts, i));
        }
      }
    }
  }

  lemma JoinPrefix(s: string, t: string, a: nat, b: nat)
    requires |t| <= |s| && s[..|t|] == t && a <= b <= |t|
    ensures s[a..b] == t[a..b]
  {
    assert s == t + s[|t|..];
  }

  /** The first lens that shows something on a line. */
  function FirstOn(lenses: seq<Lens>, line: nat): (r: nat)
    ensures r <= |lenses| && (r < |lenses| ==> ShowsOn(lenses[r], line))
    ensures forall i :: 0 <= i < r ==> !ShowsOn(lenses[i], line)
  {
    if lenses == [] then 0
    else
      var r := FirstOn(lenses[..|lenses| - 1], line);
      if r < |lenses| - 1 then r else if ShowsOn(lenses[r], line) then r else |lenses|
  }

  /** The runs are in the order in which their lines first show something. */
  lemma {:induction false} OrderByFirst(lenses: seq<Lens>, i: nat, j: nat)
    requires i < j < |Order(lenses)|
    ensures FirstOn(lenses, Order(lenses)[i]) < FirstOn(lenses, Order(lenses)[j]) < |lenses|
  {
    hide LensText;
    var init, last := lenses[..|lenses| - 1], lenses[|lenses| - 1];
    var order := Order(init);
    OrderMeans(init, order[i]);
    FirstExists(init, order[i]);
    if j < |order| {
      OrderByFirst(init, i, j);
    } else {
      assert last.line !in order;
      OrderMeans(init, last.line);
      FirstIsListed(init, last.line);
    }
  }

  lemma FirstExists(lenses: seq<Lens>, line: nat)
    requires exists l :: l in lenses && l.line == line && LensText(l) != ""
    ensures FirstOn(lenses, line) < |lenses|
  {
    hide LensText;
    var l :| l in lenses && l.line == line && LensText(l) != "";
    var k :| 0 <= k < |lenses| && lenses[k] == l;
    assert ShowsOn(lenses[k], line);
  }

  lemma FirstIsListed(lenses: seq<Lens>, line: nat)
    ensures FirstOn(lenses, line) < |lenses| ==> exists l :: l in lenses && l.line == line && LensText(l) != ""
  {
    hide LensText;
    var k := FirstOn(lenses, line);
    assert k < |lenses| ==> lenses[k] in lenses;
  }

  // ---------- Finding and replacing the lens on a line ----------

  function LensAtLine(lenses: seq<Lens>, line: nat): Option<Lens> {
    if lenses == [] then None
    else if lenses[0].line == line then Some(lenses[0])
    else LensAtLine(lenses[1..], line)
  }

  function ReplaceLensAtLine(lenses: seq<Lens>, line: nat, resolved: Lens): seq<Lens> {
    if lenses == [] then []
    else if lenses[0].line == line then [resolved] + lenses[1..]
    else [lenses[0]] + ReplaceLensAtLine(lenses[1..], line, resolved)
  }

  /** The resolved lens is the one its line's lookup finds, in the place of the one it
      resolves; every other line's lookup finds what it found. */
  lemma {:induction false} ReplacedIsFound(lenses: seq<Lens>, line: nat, resolved: Lens, other: nat)
    requires resolved.line == line && other != line
    ensures |ReplaceLensAtLine(lenses, line, resolved)| == |lenses|
    ensures LensAtLine(ReplaceLensAtLine(lenses, line, resolved), line) ==
              if LensAtLine(lenses, line).Some? then Some(resolved) else None
    ensures LensAtLine(ReplaceLensAtLine(lenses, line, resolved), other) == LensAtLine(lenses, other)
  {
    if lenses != [] {
      ReplacedIsFound(lenses[1..], line, resolved, other);
      if lenses[0].line == line {
        assert ([resolved] + lenses[1..])[1..] == lenses[1..];
      } else {
        var rest := ReplaceLensAtLine(lenses[1..], line, resolved);
        assert ([lenses[0]] + rest)[1..] == rest;
      }
    }
  }
}
