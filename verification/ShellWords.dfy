/** The mail plugin's reading of a command line: which raj key the command acts as. */
module ShellWords {
  import opened Options

  predicate Breaks(c: char) {
    c == ' ' || c == '\t' || c == '\n' || c == ';' || c == '|' || c == '&' || c == '(' || c == ')'
  }

  /** A word being read, and the command text still ahead. */
  datatype Reading = Reading(word: string, rest: string)

  function SkipBreaks(s: string): (r: string)
    ensures |r| <= |s| && (r != "" ==> !Breaks(r[0]))
  {
    if s != "" && Breaks(s[0]) then SkipBreaks(s[1..]) else s
  }

  /** After an opening single quote, up to and past the closing one. */
  function ReadSingle(s: string, word: string): (r: Reading)
    ensures |r.rest| <= |s|
    decreases |s|
  {
    if s == "" then Reading(word, s)
    else if s[0] == '\'' then Reading(word, s[1..])
    else ReadSingle(s[1..], word + [s[0]])
  }

  predicate Escapable(c: char) {
    c == '"' || c == '$' || c == '`' || c == '\\'
  }

  function ReadDouble(s: string, word: string): (r: Reading)
    ensures |r.rest| <= |s|
    decreases |s|
  {
    if s == "" then Reading(word, s)
    else if s[0] == '"' then Reading(word, s[1..])
    else if s[0] == '\\' && |s| > 1 && Escapable(s[1]) then ReadDouble(s[2..], word + [s[1]])
    else ReadDouble(s[1..], word + [s[0]])
  }

  function ReadWord(s: string, word: string): (r: Reading)
    ensures |r.rest| <= |s| && (s != "" && !Breaks(s[0]) ==> |r.rest| < |s|)
    decreases |s|
  {
    if s == "" || Breaks(s[0]) then Reading(word, s)
    else if s[0] == '\'' then var r := ReadSingle(s[1..], word); ReadWord(r.rest, r.word)
    else if s[0] == '"' then var r := ReadDouble(s[1..], word); ReadWord(r.rest, r.word)
    else if s[0] == '\\' && |s| > 1 then ReadWord(s[2..], word + [s[1]])
    else ReadWord(s[1..], word + [s[0]])
  }

  /** The top-level words; a word that comes out empty is not one. */
  function Words(s: string): seq<string>
    decreases |s|
  {
    var t := SkipBreaks(s);
    if t == "" then []
    else
      var r := ReadWord(t, "");
      (if r.word == "" then [] else [r.word]) + Words(r.rest)
  }

  predicate NameStart(c: char) {
    'A' <= c <= 'Z' || 'a' <= c <= 'z' || c == '_'
  }

  predicate IsName(s: string) {
    s != "" && NameStart(s[0]) && forall i :: 0 <= i < |s| ==> NameStart(s[i]) || '0' <= s[i] <= '9'
  }

  predicate IsKey(s: string) {
    |s| >= 10 && s[..4] == "raj-" && forall i :: 4 <= i < |s| ==> '0' <= s[i] <= '9' || 'a' <= s[i] <= 'f'
  }

  function IndexOf(s: string, c: char): (i: int)
    ensures -1 <= i < |s|
    ensures i >= 0 ==> s[i] == c && c !in s[..i]
    ensures i < 0 ==> c !in s
  {
    if s == "" then -1
    else if s[0] == c then 0
    else var i := IndexOf(s[1..], c); if i < 0 then -1 else i + 1
  }

  /** The name and key a word assigns, when it is `NAME=raj-…`. */
  function Assigned(word: string): Option<(string, string)> {
    var eq := IndexOf(word, '=');
    if eq > 0 && IsName(word[..eq]) && IsKey(word[eq + 1..]) then Some((word[..eq], word[eq + 1..])) else None
  }

  function Assigns(words: seq<string>): map<string, string> {
    if words == [] then map[]
    else
      var m := Assigns(words[..|words| - 1]);
      match Assigned(words[|words| - 1])
      case Some(a) => m[a.0 := a.1]
      case None => m
  }

  /** The plugin's tokeniser, index and accumulators as it moves them. */
  method Tokenise(cmd: string) returns (words: seq<string>, assigns: map<string, string>)
    ensures words == Words(cmd)
    ensures assigns == Assigns(words)
  {
    hide ReadWord, ReadSingle, ReadDouble, Assigned, Assigns, Breaks;
    NoAssigns();
    words, assigns := [], map[];
    var n, i := |cmd|, 0;
    while i < n
      invariant 0 <= i <= n
      invariant words + Words(cmd[i..]) == Words(cmd)
      invariant assigns == Assigns(words)
    {
      ghost var from := i;
      while i < n && Breaks(cmd[i])
        invariant from <= i <= n
        invariant SkipBreaks(cmd[i..]) == SkipBreaks(cmd[from..])
      {
        assert cmd[i..][1..] == cmd[i + 1..];
        i := i + 1;
      }
      if i >= n {
        assert Words(cmd[from..]) == [];
        break;
      }
      assert SkipBreaks(cmd[from..]) == cmd[i..];
      var word;
      word, i := TokeniseWord(cmd, i);
      assert Words(cmd[from..]) == (if word == "" then [] else [word]) + Words(cmd[i..]);
      if word == "" {
        continue;
      }
      AssignsOneMore(words, word);
      assigns := NoteAssign(assigns, word);
      words := words + [word];
    }
  }

  lemma NoAssigns()
    ensures Assigns([]) == map[]
  {
  }

  /** What one word adds to the assignments. */
  method NoteAssign(assigns: map<string, string>, word: string) returns (r: map<string, string>)
    ensures r == match Assigned(word) case Some(a) => assigns[a.0 := a.1] case None => assigns
  {
    hide IsName, IsKey;
    r := assigns;
    var eq := IndexOf(word, '=');
    if eq > 0 {
      var name, val := word[..eq], word[eq + 1..];
      if IsName(name) && IsKey(val) {
        r := r[name := val];
      }
    }
  }

  method TokeniseWord(cmd: string, start: nat) returns (word: string, i: nat)
    requires start < |cmd| && !Breaks(cmd[start])
    ensures start < i <= |cmd|
    ensures ReadWord(cmd[start..], "") == Reading(word, cmd[i..])
  {
    hide ReadWord, ReadSingle, ReadDouble, Breaks;
    var n := |cmd|;
    i := start;
    word := "";
    while i < n && !Breaks(cmd[i])
      invariant start <= i <= n
      invariant i == start ==> word == ""
      invariant ReadWord(cmd[i..], word) == ReadWord(cmd[start..], "")
      decreases n - i
    {
      var c := cmd[i];
      ReadWordStep(cmd, i, word);
      if c == '\'' {
        word, i := TokeniseSingle(cmd, i + 1, word);
      } else if c == '"' {
        word, i := TokeniseDouble(cmd, i + 1, word);
      } else if c == '\\' {
        if i + 1 < n {
          word := word + [cmd[i + 1]];
          i := i + 2;
        } else {
          word := word + [c];
          i := i + 1;
        }
      } else {
        word := word + [c];
        i := i + 1;
      }
    }
    ReadWordStops(cmd, i, word);
  }

  lemma ReadWordStep(cmd: string, i: nat, word: string)
    requires i < |cmd| && !Breaks(cmd[i])
    ensures cmd[i] == '\'' ==>
              var r := ReadSingle(cmd[i + 1..], word); ReadWord(cmd[i..], word) == ReadWord(r.rest, r.word)
    ensures cmd[i] == '"' ==>
              var r := ReadDouble(cmd[i + 1..], word); ReadWord(cmd[i..], word) == ReadWord(r.rest, r.word)
    ensures cmd[i] == '\\' && i + 1 < |cmd| ==> ReadWord(cmd[i..], word) == ReadWord(cmd[i + 2..], word + [cmd[i + 1]])
    ensures cmd[i] != '\'' && cmd[i] != '"' && (cmd[i] == '\\' ==> i + 1 == |cmd|) ==>
              ReadWord(cmd[i..], word) == ReadWord(cmd[i + 1..], word + [cmd[i]])
  {
    hide ReadSingle, ReadDouble, Breaks;
    assert cmd[i..][1..] == cmd[i + 1..];
    assert i + 1 < |cmd| ==> cmd[i..][2..] == cmd[i + 2..];
  }

  lemma ReadWordStops(cmd: string, i: nat, word: string)
    requires i <= |cmd| && (i < |cmd| ==> Breaks(cmd[i]))
    ensures ReadWord(cmd[i..], word) == Reading(word, cmd[i..])
  {
  }

  /** The inner loop over a single-quoted stretch, from behind its opening quote. */
  method TokeniseSingle(cmd: string, from: nat, acc: string) returns (word: string, i: nat)
    requires from <= |cmd|
    ensures from <= i <= |cmd|
    ensures ReadSingle(cmd[from..], acc) == Reading(word, cmd[i..])
  {
    var n := |cmd|;
    word, i := acc, from;
    while i < n && cmd[i] != '\''
      invariant from <= i <= n
      invariant ReadSingle(cmd[i..], word) == ReadSingle(cmd[from..], acc)
    {
      assert cmd[i..][1..] == cmd[i + 1..];
      word := word + [cmd[i]];
      i := i + 1;
    }
    if i < n {
      assert cmd[i..][1..] == cmd[i + 1..];
      i := i + 1;
    }
  }

  /** The inner loop over a double-quoted stretch. */
  method TokeniseDouble(cmd: string, from: nat, acc: string) returns (word: string, i: nat)
    requires from <= |cmd|
    ensures from <= i <= |cmd|
    ensures ReadDouble(cmd[from..], acc) == Reading(word, cmd[i..])
  {
    hide Escapable;
    var n := |cmd|;
    word, i := acc, from;
    while i < n && cmd[i] != '"'
      invariant from <= i <= n
      invariant ReadDouble(cmd[i..], word) == ReadDouble(cmd[from..], acc)
    {
      assert cmd[i..][1..] == cmd[i + 1..];
      if cmd[i] == '\\' && i + 1 < n && Escapable(cmd[i + 1]) {
        assert cmd[i..][2..] == cmd[i + 2..];
        word := word + [cmd[i + 1]];
        i := i + 2;
      } else {
        word := word + [cmd[i]];
        i := i + 1;
      }
    }
    if i < n {
      assert cmd[i..][1..] == cmd[i + 1..];
      i := i + 1;
    }
  }

  // ---------- Round trip ----------

  /** The inside of a single-quoted word: a quote leaves the quotes, escaped. */
  function QuoteChars(w: string): string {
    if w == "" then ""
    else (if w[0] == '\'' then "'\\''" else [w[0]]) + QuoteChars(w[1..])
  }

  function Quote(w: string): string {
    "'" + QuoteChars(w) + "'"
  }

  function Join(words: seq<string>): string {
    if words == [] then "" else Quote(words[0]) + " " + Join(words[1..])
  }

  /** Reading on inside the quotes of a quoted word takes in the word and stops at the
      break behind it. */
  lemma {:induction false} ReadQuoteChars(w: string, acc: string, rest: string)
    requires rest != "" && Breaks(rest[0])
    ensures var r := ReadSingle(QuoteChars(w) + "'" + rest, acc);
            ReadWord(r.rest, r.word) == Reading(acc + w, rest)
    decreases |w|
  {
    hide ReadWord, Breaks, ReadSingle;
    var s := QuoteChars(w) + "'" + rest;
    if w == "" {
      assert s == "'" + rest;
      assert acc + w == acc;
      ClosesQuote(rest, acc);
      StopsAtBreak(rest, acc);
    } else {
      var more := QuoteChars(w[1..]) + "'" + rest;
      ReadQuoteChars(w[1..], acc + [w[0]], rest);
      assert acc + [w[0]] + w[1..] == acc + w;
      if w[0] == '\'' {
        assert s == "'\\''" + more;
        ReadEscapedQuote(more, acc);
      } else {
        assert s == [w[0]] + more;
        ReadsOn(w[0], more, acc);
      }
    }
  }

  lemma ClosesQuote(rest: string, acc: string)
    ensures ReadSingle("'" + rest, acc) == Reading(acc, rest)
  {
    assert ("'" + rest)[1..] == rest;
  }

  lemma ReadsOn(c: char, more: string, acc: string)
    requires c != '\''
    ensures ReadSingle([c] + more, acc) == ReadSingle(more, acc + [c])
  {
    assert ([c] + more)[1..] == more;
  }

  lemma StopsAtBreak(rest: string, acc: string)
    requires rest != "" && Breaks(rest[0])
    ensures ReadWord(rest, acc) == Reading(acc, rest)
  {
  }

  lemma ReadEscapedQuote(more: string, acc: string)
    ensures var r := ReadSingle("'\\''" + more, acc);
            var again := ReadSingle(more, acc + "'");
            ReadWord(r.rest, r.word) == ReadWord(again.rest, again.word)
  {
    var s := "'\\''" + more;
    var t := "\\''" + more;
    assert s[1..] == t && t[2..] == "'" + more && t[2..][1..] == more;
    assert t[0] == '\\' && t[1] == '\'' && |t| > 1;
    assert ReadWord(t, acc) == ReadWord(t[2..], acc + "'");
  }

  lemma ReadQuoted(w: string, rest: string)
    requires rest != "" && Breaks(rest[0])
    ensures ReadWord(Quote(w) + rest, "") == Reading(w, rest)
  {
    var s := Quote(w) + rest;
    assert s[1..] == QuoteChars(w) + "'" + rest;
    ReadQuoteChars(w, "", rest);
    assert "" + w == w;
  }

  function NonEmpty(words: seq<string>): seq<string> {
    if words == [] then []
    else (if words[0] == "" then [] else [words[0]]) + NonEmpty(words[1..])
  }

  /** Quote every word, join with spaces, tokenise: the non-empty words come back, in
      order and byte for byte, whatever they hold. */
  lemma {:induction false} TokeniseQuoted(words: seq<string>)
    ensures Words(Join(words)) == NonEmpty(words)
  {
    if words != [] {
      var w, rest := words[0], " " + Join(words[1..]);
      var s := Join(words);
      assert s == Quote(w) + rest;
      assert s[0] == '\'' && SkipBreaks(s) == s;
      ReadQuoted(w, rest);
      assert rest[1..] == Join(words[1..]);
      BreakIgnored(rest);
      TokeniseQuoted(words[1..]);
    }
  }

  lemma BreakIgnored(s: string)
    requires s != "" && Breaks(s[0])
    ensures Words(s) == Words(s[1..])
  {
    assert SkipBreaks(s) == SkipBreaks(s[1..]);
  }

  lemma {:induction false} NonEmptyKeeps(words: seq<string>)
    ensures |NonEmpty(words)| <= |words|
    ensures NonEmpty(words) == words <==> "" !in words
  {
    if words != [] {
      NonEmptyKeeps(words[1..]);
      assert words == [words[0]] + words[1..];
      if words[0] != "" && NonEmpty(words) == words {
        assert NonEmpty(words)[1..] == NonEmpty(words[1..]);
      }
    }
  }

  /** The round trip is exact for exactly the lists without an empty word. */
  lemma QuotingRoundTrips(words: seq<string>)
    ensures Words(Join(words)) == words <==> "" !in words
  {
    TokeniseQuoted(words);
    NonEmptyKeeps(words);
  }

  // ---------- Names and keys ----------

  predicate IsLetter(c: char) {
    var n := c as int; 65 <= n <= 90 || 97 <= n <= 122 || n == 95
  }

  predicate IsDigit(c: char) {
    var n := c as int; 48 <= n <= 57
  }

  predicate IsHex(c: char) {
    var n := c as int; 48 <= n <= 57 || 97 <= n <= 102
  }

  /** A variable's name is a letter or underscore and then letters, digits, underscores, by
      their ASCII codes. */
  lemma NameMeans(s: string)
    ensures IsName(s) <==> s != "" && IsLetter(s[0]) && forall c :: c in s ==> IsLetter(c) || IsDigit(c)
  {
    assert forall i :: 0 <= i < |s| ==> s[i] in s;
  }

  /** A key is `raj-` and at least six lower-case hexadecimal digits. */
  lemma KeyMeans(s: string)
    ensures IsKey(s) <==> "raj-" <= s && |s| >= 10 && forall c :: c in s[4..] ==> IsHex(c)
  {
    if |s| >= 4 {
      assert forall i :: 4 <= i < |s| ==> s[i] == s[4..][i - 4] && s[i] in s[4..];
      assert forall c :: c in s[4..] ==> exists i :: 4 <= i < |s| && s[i] == c;
    }
  }

  // ---------- Every way to write a word ----------

  /** A stretch of a word as a command line may hold it. In double quotes `esc` says which
      characters are behind a backslash. */
  datatype Part =
    | Bare(text: string)
    | Single(text: string)
    | Double(text: string, esc: seq<bool>)
    | Escaped(text: string)

  /** A word and the white space or operators behind it. */
  datatype Word = Word(parts: seq<Part>, gap: string)

  const BREAKS := " \t\n;|&()"
  const ESCAPABLE := "\"$`\\"

  predicate DoubleAt(t: string, esc: seq<bool>, i: nat)
    requires |esc| == |t| && i < |t|
  {
    if esc[i] then t[i] in ESCAPABLE
    else t[i] != '"' && (t[i] == '\\' ==> i + 1 < |t| && !esc[i + 1] && t[i + 1] !in ESCAPABLE)
  }

  /** What each form can hold: bare text no break, quote or backslash, single quotes no
      single quote. In double quotes only four characters can be escaped, the quote must
      be, and a backslash must be unless what follows it could not be. */
  predicate Fits(p: Part) {
    match p
    case Bare(t) => forall i :: 0 <= i < |t| ==> t[i] !in BREAKS && t[i] !in "'\"\\"
    case Single(t) => '\'' !in t
    case Double(t, esc) => |esc| == |t| && forall i :: 0 <= i < |t| ==> DoubleAt(t, esc, i)
    case Escaped(_) => true
  }

  function DoubleChars(t: string, esc: seq<bool>): string
    requires |esc| == |t|
  {
    if t == "" then "" else (if esc[0] then "\\" + [t[0]] else [t[0]]) + DoubleChars(t[1..], esc[1..])
  }

  function EscapedChars(t: string): string {
    if t == "" then "" else "\\" + [t[0]] + EscapedChars(t[1..])
  }

  function Written(p: Part): string
    requires Fits(p)
  {
    match p
    case Bare(t) => t
    case Single(t) => "'" + t + "'"
    case Double(t, esc) => "\"" + DoubleChars(t, esc) + "\""
    case Escaped(t) => EscapedChars(t)
  }

  lemma BreaksAre(c: char)
    ensures Breaks(c) <==> c in BREAKS
    ensures Escapable(c) <==> c in ESCAPABLE
  {
  }

  lemma {:induction false} ReadBare(t: string, rest: string, acc: string)
    requires Fits(Bare(t))
    ensures ReadWord(t + rest, acc) == ReadWord(rest, acc + t)
  {
    if t == "" {
      assert t + rest == rest && acc + t == acc;
    } else {
      BreaksAre(t[0]);
      assert t[0] in t && (t + rest)[1..] == t[1..] + rest;
      ReadBare(t[1..], rest, acc + [t[0]]);
      assert acc + [t[0]] + t[1..] == acc + t;
    }
  }

  lemma {:induction false} ReadInSingle(t: string, rest: string, acc: string)
    requires '\'' !in t
    ensures ReadSingle(t + "'" + rest, acc) == Reading(acc + t, rest)
  {
    hide ReadSingle;
    if t == "" {
      assert t + "'" + rest == "'" + rest && acc + t == acc;
      ClosesQuote(rest, acc);
    } else {
      assert t + "'" + rest == [t[0]] + (t[1..] + "'" + rest);
      ReadsOn(t[0], t[1..] + "'" + rest, acc);
      ReadInSingle(t[1..], rest, acc + [t[0]]);
      assert acc + [t[0]] + t[1..] == acc + t;
    }
  }

  lemma DoubleRest(t: string, esc: seq<bool>)
    requires t != "" && Fits(Double(t, esc))
    ensures Fits(Double(t[1..], esc[1..]))
    ensures esc[0] ==> Escapable(t[0])
    ensures !esc[0] ==> t[0] != '"'
    ensures !esc[0] && t[0] == '\\' ==> |t| > 1 && !esc[1] && !Escapable(t[1])
  {
    assert DoubleAt(t, esc, 0);
    BreaksAre(t[0]);
    if |t| > 1 {
      BreaksAre(t[1]);
    }
    var u, e := t[1..], esc[1..];
    forall i | 0 <= i < |u| ensures DoubleAt(u, e, i) {
      assert DoubleAt(t, esc, i + 1);
    }
  }

  lemma DoubleStep(c: char, more: string, acc: string)
    ensures Escapable(c) ==> ReadDouble("\\" + [c] + more, acc) == ReadDouble(more, acc + [c])
    ensures c != '"' && (c == '\\' ==> more != "" && !Escapable(more[0])) ==>
              ReadDouble([c] + more, acc) == ReadDouble(more, acc + [c])
  {
    assert ("\\" + [c] + more)[2..] == more && ([c] + more)[1..] == more;
  }

  lemma DoubleHead(t: string, esc: seq<bool>)
    requires t != "" && |esc| == |t| && !esc[0]
    ensures DoubleChars(t, esc) != "" && DoubleChars(t, esc)[0] == t[0]
  {
  }

  lemma DoubleUnfold(t: string, esc: seq<bool>)
    requires t != "" && |esc| == |t|
    ensures DoubleChars(t, esc) == (if esc[0] then "\\" + [t[0]] else [t[0]]) + DoubleChars(t[1..], esc[1..])
  {
  }

  lemma DoubleCons(t: string, esc: seq<bool>, end: string)
    requires t != "" && |esc| == |t|
    ensures var more := DoubleChars(t[1..], esc[1..]) + end;
            && DoubleChars(t, esc) + end == (if esc[0] then "\\" + [t[0]] + more else [t[0]] + more)
            && (|t| > 1 && !esc[1] ==> more != "" && more[0] == t[1])
  {
    hide DoubleChars;
    var c, more := if esc[0] then "\\" + [t[0]] else [t[0]], DoubleChars(t[1..], esc[1..]);
    DoubleUnfold(t, esc);
    assert c + more + end == c + (more + end);
    if |t| > 1 && !esc[1] {
      DoubleHead(t[1..], esc[1..]);
    }
  }

  lemma {:induction false} ReadInDouble(t: string, esc: seq<bool>, rest: string, acc: string)
    requires Fits(Double(t, esc))
    ensures ReadDouble(DoubleChars(t, esc) + ("\"" + rest), acc) == Reading(acc + t, rest)
  {
    hide Fits, Escapable, ReadDouble, DoubleChars;
    var end := "\"" + rest;
    DoubleSized(t, esc);
    if t == "" {
      DoubleEnds(rest, acc);
      assert acc + t == acc;
    } else {
      DoubleRest(t, esc);
      DoubleSized(t[1..], esc[1..]);
      DoubleCons(t, esc, end);
      DoubleStep(t[0], DoubleChars(t[1..], esc[1..]) + end, acc);
      ReadInDouble(t[1..], esc[1..], rest, acc + [t[0]]);
      assert acc + [t[0]] + t[1..] == acc + t;
    }
  }

  lemma DoubleEnds(rest: string, acc: string)
    ensures ReadDouble(DoubleChars("", []) + ("\"" + rest), acc) == Reading(acc, rest)
  {
    assert DoubleChars("", []) + ("\"" + rest) == "\"" + rest && ("\"" + rest)[1..] == rest;
  }

  lemma DoubleSized(t: string, esc: seq<bool>)
    requires Fits(Double(t, esc))
    ensures |esc| == |t|
  {
  }

  lemma EscapedStep(c: char, more: string, acc: string)
    ensures ReadWord("\\" + [c] + more, acc) == ReadWord(more, acc + [c])
  {
    var s := "\\" + [c] + more;
    assert s[2..] == more && s[0] == '\\' && s[1] == c;
  }

  lemma EscapedCons(t: string, rest: string)
    requires t != ""
    ensures EscapedChars(t) + rest == "\\" + [t[0]] + (EscapedChars(t[1..]) + rest)
  {
  }

  lemma {:induction false} ReadEscaped(t: string, rest: string, acc: string)
    ensures ReadWord(EscapedChars(t) + rest, acc) == ReadWord(rest, acc + t)
  {
    hide ReadWord;
    if t == "" {
      assert EscapedChars(t) + rest == rest && acc + t == acc;
    } else {
      hide EscapedChars;
      EscapedCons(t, rest);
      EscapedStep(t[0], EscapedChars(t[1..]) + rest, acc);
      ReadEscaped(t[1..], rest, acc + [t[0]]);
      assert acc + [t[0]] + t[1..] == acc + t;
    }
  }

  lemma OpensQuote(rest: string, acc: string)
    ensures var r := ReadSingle(rest, acc); ReadWord("'" + rest, acc) == ReadWord(r.rest, r.word)
    ensures var r := ReadDouble(rest, acc); ReadWord("\"" + rest, acc) == ReadWord(r.rest, r.word)
  {
    hide ReadSingle, ReadDouble;
    assert ("'" + rest)[1..] == rest && ("\"" + rest)[1..] == rest;
  }

  /** A part adds exactly its text to the word being read, whatever comes behind it. */
  lemma ReadPart(p: Part, rest: string, acc: string)
    requires Fits(p)
    ensures ReadWord(Written(p) + rest, acc) == ReadWord(rest, acc + p.text)
  {
    hide ReadWord, ReadSingle, ReadDouble, DoubleChars, EscapedChars;
    match p
    case Bare(t) => ReadBare(t, rest, acc);
    case Single(t) =>
      assert Written(p) + rest == "'" + (t + "'" + rest);
      OpensQuote(t + "'" + rest, acc);
      ReadInSingle(t, rest, acc);
    case Double(t, esc) =>
      assert Written(p) + rest == "\"" + (DoubleChars(t, esc) + ("\"" + rest));
      OpensQuote(DoubleChars(t, esc) + ("\"" + rest), acc);
      ReadInDouble(t, esc, rest, acc);
    case Escaped(t) => ReadEscaped(t, rest, acc);
  }

  function TextOf(parts: seq<Part>): string {
    if parts == [] then "" else parts[0].text + TextOf(parts[1..])
  }

  function Spelled(parts: seq<Part>): string
    requires forall p :: p in parts ==> Fits(p)
  {
    if parts == [] then "" else Written(parts[0]) + Spelled(parts[1..])
  }

  lemma {:induction false} ReadSpelled(parts: seq<Part>, rest: string, acc: string)
    requires forall p :: p in parts ==> Fits(p)
    requires rest == "" || rest[0] in BREAKS
    ensures ReadWord(Spelled(parts) + rest, acc) == Reading(acc + TextOf(parts), rest)
  {
    hide Written, Fits;
    if parts == [] {
      assert Spelled(parts) + rest == rest && acc + TextOf(parts) == acc;
      if rest != "" {
        BreaksAre(rest[0]);
      }
    } else {
      hide ReadWord;
      var p, more := parts[0], Spelled(parts[1..]) + rest;
      assert Spelled(parts) + rest == Written(p) + more;
      ReadPart(p, more, acc);
      ReadSpelled(parts[1..], rest, acc + p.text);
      assert acc + p.text + TextOf(parts[1..]) == acc + TextOf(parts);
    }
  }

  /** What is written begins with no break, and nothing is written only for no text. */
  lemma {:induction false} SpelledStarts(parts: seq<Part>)
    requires forall p :: p in parts ==> Fits(p)
    ensures Spelled(parts) != "" ==> !Breaks(Spelled(parts)[0])
    ensures Spelled(parts) == "" ==> TextOf(parts) == ""
  {
    if parts != [] {
      SpelledStarts(parts[1..]);
      var p := parts[0];
      if Written(p) != "" {
        BreaksAre(Written(p)[0]);
        assert Spelled(parts)[0] == Written(p)[0];
      } else {
        assert p.text == "";
      }
    }
  }

  predicate Spells(ws: seq<Word>) {
    forall i :: 0 <= i < |ws| ==>
      && (forall p :: p in ws[i].parts ==> Fits(p))
      && (forall c :: c in ws[i].gap ==> c in BREAKS)
      && (ws[i].gap == "" ==> i == |ws| - 1)
  }

  function Line(ws: seq<Word>): string
    requires Spells(ws)
  {
    if ws == [] then "" else Spelled(ws[0].parts) + ws[0].gap + Line(ws[1..])
  }

  function Texts(ws: seq<Word>): seq<string> {
    if ws == [] then [] else [TextOf(ws[0].parts)] + Texts(ws[1..])
  }

  lemma {:induction false} GapIgnored(gap: string, s: string)
    requires forall c :: c in gap ==> c in BREAKS
    ensures Words(gap + s) == Words(s)
  {
    if gap == "" {
      assert gap + s == s;
    } else {
      hide Words;
      BreaksAre(gap[0]);
      BreakIgnored(gap + s);
      assert (gap + s)[1..] == gap[1..] + s;
      assert forall c :: c in gap[1..] ==> c in gap;
      GapIgnored(gap[1..], s);
    }
  }

  lemma WordsStep(s: string, r: Reading)
    requires s != "" && !Breaks(s[0]) && ReadWord(s, "") == r
    ensures Words(s) == (if r.word == "" then [] else [r.word]) + Words(r.rest)
  {
    hide ReadWord;
    assert SkipBreaks(s) == s;
  }

  lemma WordRead(w: Word, rest: string)
    requires (forall p :: p in w.parts ==> Fits(p)) && (forall c :: c in w.gap ==> c in BREAKS)
    requires w.gap == "" ==> rest == ""
    ensures Words(Spelled(w.parts) + w.gap + rest) == (if TextOf(w.parts) == "" then [] else [TextOf(w.parts)]) + Words(rest)
  {
    hide Fits, ReadWord, Words, Spelled, Breaks, TextOf;
    var text, tail := TextOf(w.parts), w.gap + rest;
    var s := Spelled(w.parts) + tail;
    assert Spelled(w.parts) + w.gap + rest == s;
    GapIgnored(w.gap, rest);
    SpelledStarts(w.parts);
    if Spelled(w.parts) == "" {
      assert s == tail;
    } else {
      assert s[0] == Spelled(w.parts)[0];
      assert tail != "" ==> tail[0] in w.gap;
      ReadSpelled(w.parts, tail, "");
      assert "" + text == text;
      WordsStep(s, Reading(text, tail));
    }
  }

  /** However each word of a command line is written, bare, in either quotes, behind
      backslashes or in any mix of them, and whatever breaks stand between, tokenising
      gives the words' texts back, in order and byte for byte, the empty ones dropped. */
  lemma {:induction false} TokeniseSpelled(ws: seq<Word>)
    requires Spells(ws)
    ensures Words(Line(ws)) == NonEmpty(Texts(ws))
  {
    hide Words, Spelled, Fits;
    if ws == [] {
      NoWords();
    } else {
      var rest := ws[1..];
      assert Spells(rest) by {
        assert forall i :: 0 <= i < |rest| ==> rest[i] == ws[i + 1];
      }
      assert ws[0].gap == "" ==> rest == [];
      WordRead(ws[0], Line(rest));
      TokeniseSpelled(rest);
      assert Texts(ws)[1..] == Texts(rest);
    }
  }

  lemma NoWords()
    ensures Words("") == []
  {
  }

  // ---------- usedKey ----------

  predicate IsBareFlag(w: string) {
    w == "--as" || w == "-as"
  }

  /** The value of a flag given as `--as=…`. */
  function EqualsValue(w: string): Option<string> {
    if |w| >= 5 && w[..5] == "--as=" then Some(w[5..])
    else if |w| >= 4 && w[..4] == "-as=" then Some(w[4..])
    else None
  }

  function FlagValue(words: seq<string>, i: nat): Option<string>
    requires i < |words|
  {
    var w := words[i];
    if IsBareFlag(w) then (if i + 1 < |words| then Some(words[i + 1]) else None)
    else EqualsValue(w)
  }

  /** The variable a value names: a dollar sign, a name, and either brace optional. */
  function Variable(val: string): Option<string> {
    if val == "" || val[0] != '$' then None
    else
      var open := if |val| > 1 && val[1] == '{' then 2 else 1;
      var close := if |val| > open && val[|val| - 1] == '}' then |val| - 1 else |val|;
      if open <= close && IsName(val[open..close]) then Some(val[open..close]) else None
  }

  function ValueKey(val: string, assigns: map<string, string>): Option<string> {
    if IsKey(val) then Some(val)
    else
      match Variable(val)
      case Some(v) => if v in assigns then Some(assigns[v]) else None
      case None => None
  }

  /** The last flag among the first `n` words whose value resolves wins. */
  function UsedAmong(words: seq<string>, assigns: map<string, string>, n: nat): Option<string>
    requires n <= |words|
  {
    if n == 0 then None
    else
      var earlier := UsedAmong(words, assigns, n - 1);
      match FlagValue(words, n - 1)
      case None => earlier
      case Some(val) =>
        match ValueKey(val, assigns)
        case Some(k) => Some(k)
        case None => earlier
  }

  function KeyOf(words: seq<string>): Option<string> {
    UsedAmong(words, Assigns(words), |words|)
  }

  method UsedKey(cmd: string) returns (found: Option<string>)
    ensures found == KeyOf(Words(cmd))
  {
    hide IsKey, Variable, FlagValue, Words, Assigns;
    var words, assigns := Tokenise(cmd);
    found := None;
    for i := 0 to |words|
      invariant found == UsedAmong(words, assigns, i)
    {
      var val := FlagValue(words, i);
      if val.None? {
        continue;
      }
      if IsKey(val.value) {
        found := val;
        continue;
      }
      var v := Variable(val.value);
      if v.Some? && v.value in assigns {
        found := Some(assigns[v.value]);
      }
    }
  }

  /** A word that is neither an as-flag nor an assignment of a key. */
  predicate Inert(w: string) {
    !IsBareFlag(w) && EqualsValue(w) == None && Assigned(w) == None
  }

  lemma AssignsOneMore(words: seq<string>, w: string)
    ensures Assigns(words + [w]) == match Assigned(w)
                                    case Some(a) => Assigns(words)[a.0 := a.1]
                                    case None => Assigns(words)
  {
    hide Assigned;
    assert (words + [w])[..|words|] == words;
  }

  lemma {:induction false} AssignsReplaced(pre: seq<string>, w: string, w': string, post: seq<string>)
    requires Assigned(w) == None && Assigned(w') == None
    ensures Assigns(pre + [w] + post) == Assigns(pre + [w'] + post)
  {
    hide Assigned, Assigns;
    if post == [] {
      assert pre + [w] + post == pre + [w] && pre + [w'] + post == pre + [w'];
      AssignsOneMore(pre, w);
      AssignsOneMore(pre, w');
    } else {
      var init, last := post[..|post| - 1], post[|post| - 1];
      assert pre + [w] + post == pre + [w] + init + [last];
      assert pre + [w'] + post == pre + [w'] + init + [last];
      AssignsReplaced(pre, w, w', init);
      AssignsOneMore(pre + [w] + init, last);
      AssignsOneMore(pre + [w'] + init, last);
    }
  }

  lemma FlagSame(a: seq<string>, b: seq<string>, k: nat, i: nat)
    requires |a| == |b| && k < |a| && i < |a|
    requires forall i :: 0 <= i < |a| && i != k ==> a[i] == b[i]
    requires Inert(a[k]) && Inert(b[k]) && (k > 0 ==> !IsBareFlag(a[k - 1]))
    ensures FlagValue(a, i) == FlagValue(b, i)
  {
    hide IsBareFlag, EqualsValue, Assigned;
  }

  lemma {:induction false} UsedReplaced(a: seq<string>, b: seq<string>, assigns: map<string, string>, k: nat, n: nat)
    requires |a| == |b| && k < |a| && n <= |a|
    requires forall i :: 0 <= i < |a| && i != k ==> a[i] == b[i]
    requires Inert(a[k]) && Inert(b[k]) && (k > 0 ==> !IsBareFlag(a[k - 1]))
    ensures UsedAmong(a, assigns, n) == UsedAmong(b, assigns, n)
  {
    hide FlagValue, ValueKey, Inert, IsBareFlag;
    if n > 0 {
      UsedReplaced(a, b, assigns, k, n - 1);
      FlagSame(a, b, k, n - 1);
    }
  }

  /** An argument that is not an as-flag, not the value of one and not an assignment of
      a key does not count: whatever keys and flags its text mentions, quoted, the
      command acts as the same key. */
  lemma MentionedKeysDoNotBind(pre: seq<string>, w: string, w': string, post: seq<string>)
    requires "" !in pre + [w] + post && "" !in pre + [w'] + post
    requires Inert(w) && Inert(w') && (pre != [] ==> !IsBareFlag(pre[|pre| - 1]))
    ensures KeyOf(Words(Join(pre + [w] + post))) == KeyOf(Words(Join(pre + [w'] + post)))
  {
    hide Words, Join, Assigns, UsedAmong, Inert;
    var a, b := pre + [w] + post, pre + [w'] + post;
    QuotingRoundTrips(a);
    QuotingRoundTrips(b);
    InertAssigns(w);
    InertAssigns(w');
    AssignsReplaced(pre, w, w', post);
    UsedReplaced(a, b, Assigns(a), |pre|, |a|);
  }

  lemma InertAssigns(w: string)
    requires Inert(w)
    ensures Assigned(w) == None
  {
  }

  /** The last flag of a command decides, in each of its four spellings, with a key given
      outright or through a variable the command assigns, braced or not. */
  lemma LastFlagDecides(words: seq<string>, val: string, key: string)
    requires ValueKey(val, Assigns(words + [val])) == Some(key) && val != "" && val[0] != '-'
    ensures Assigned(val) == None ==>
              && KeyOf(words + ["--as", val]) == Some(key) && KeyOf(words + ["-as", val]) == Some(key)
              && KeyOf(words + ["--as=" + val]) == Some(key) && KeyOf(words + ["-as=" + val]) == Some(key)
  {
    hide ValueKey, Assigned, Assigns;
    if Assigned(val) == None {
      FlagSpellings(val);
      forall f | f == "--as=" + val || f == "-as=" + val ensures KeyOf(words + [f]) == Some(key) {
        FlagAssignsNothing(f);
        AssignsOneMore(words, f);
        AssignsOneMore(words, val);
      }
      forall f | f == "--as" || f == "-as" ensures KeyOf(words + [f, val]) == Some(key) {
        FlagAssignsNothing(f);
        assert words + [f, val] == words + [f] + [val];
        AssignsOneMore(words, f);
        AssignsOneMore(words + [f], val);
        AssignsOneMore(words, val);
        BareFlagDecides(words, f, val, Assigns(words + [f, val]));
      }
    }
  }

  lemma BareFlagDecides(words: seq<string>, f: string, val: string, m: map<string, string>)
    requires IsBareFlag(f) && !IsBareFlag(val) && EqualsValue(val) == None
    ensures ValueKey(val, m) != None ==> UsedAmong(words + [f, val], m, |words| + 2) == ValueKey(val, m)
  {
    hide ValueKey, IsBareFlag, EqualsValue;
    var all := words + [f, val];
    assert all[|words|] == f && all[|words| + 1] == val;
    assert FlagValue(all, |words|) == Some(val) && FlagValue(all, |words| + 1) == None;
    assert UsedAmong(all, m, |words| + 2) == UsedAmong(all, m, |words| + 1);
  }

  lemma FlagSpellings(val: string)
    ensures EqualsValue("--as=" + val) == Some(val) && EqualsValue("-as=" + val) == Some(val)
    ensures !IsBareFlag("--as=" + val) && !IsBareFlag("-as=" + val)
    ensures val != "" && val[0] != '-' ==> !IsBareFlag(val) && EqualsValue(val) == None
  {
    var two, one := "--as=" + val, "-as=" + val;
    assert two[..5] == "--as=" && two[5..] == val;
    assert one[..4] == "-as=" && one[4..] == val;
    assert one[1] == 'a' && two[1] == '-';
  }

  /** A dollar sign and a name, with or without braces, is that variable. */
  lemma VariableSpellings(name: string)
    requires IsName(name)
    ensures Variable("$" + name) == Some(name) && Variable("${" + name + "}") == Some(name)
  {
    var plain, braced := "$" + name, "${" + name + "}";
    assert plain[1..] == name && plain[1] == name[0] && plain[|plain| - 1] == name[|name| - 1];
    assert plain[1..|plain|] == name;
    assert braced[2..|braced| - 1] == name;
  }

  // ---------- When a mentioned assignment does bind ----------

  /** The flag that decides: the last among the first `n` words whose value resolves. */
  function Decider(words: seq<string>, assigns: map<string, string>, n: nat): (d: Option<nat>)
    requires n <= |words|
    ensures d.Some? ==> d.value < n && FlagValue(words, d.value).Some?
  {
    if n == 0 then None
    else if FlagValue(words, n - 1).Some? && ValueKey(FlagValue(words, n - 1).value, assigns).Some? then Some(n - 1)
    else Decider(words, assigns, n - 1)
  }

  /** The flag at `i` takes its value from the variable `name`. */
  predicate FlagNames(words: seq<string>, i: nat, name: string)
    requires i < |words|
  {
    match FlagValue(words, i)
    case Some(val) => !IsKey(val) && Variable(val) == Some(name)
    case None => false
  }

  /** The key the command acts as when only the flags up to `d` count: the value of that
      flag, or what the flags before it decide if it does not resolve. */
  function UpTo(words: seq<string>, assigns: map<string, string>, d: nat): Option<string>
    requires d < |words| && FlagValue(words, d).Some?
  {
    match ValueKey(FlagValue(words, d).value, assigns)
    case Some(k) => Some(k)
    case None => UsedAmong(words, assigns, d)
  }

  /** One more assignment changes the key exactly through the flag that then decides. */
  lemma {:induction false} AssignmentShows(words: seq<string>, m: map<string, string>, name: string, key: string, n: nat)
    requires n <= |words|
    ensures var d := Decider(words, m[name := key], n);
            UsedAmong(words, m, n) != UsedAmong(words, m[name := key], n) <==>
              d.Some? && FlagNames(words, d.value, name) && UpTo(words, m, d.value) != Some(key)
    ensures Decider(words, m[name := key], n).None? ==> UsedAmong(words, m[name := key], n) == None
  {
    hide FlagValue, IsKey, Variable;
    if n > 0 {
      AssignmentShows(words, m, name, key, n - 1);
    }
  }

  predicate AssignedIn(words: seq<string>, name: string) {
    exists i :: 0 <= i < |words| && Assigned(words[i]).Some? && Assigned(words[i]).value.0 == name
  }

  lemma AssignedInMore(words: seq<string>, w: string, name: string)
    ensures AssignedIn(words + [w], name) <==> AssignedIn(words, name) || (Assigned(w).Some? && Assigned(w).value.0 == name)
  {
    hide Assigned;
    var more := words + [w];
    assert more[|words|] == w;
    if i :| 0 <= i < |words| && Assigned(words[i]).Some? && Assigned(words[i]).value.0 == name {
      assert more[i] == words[i];
    }
  }

  /** A word that assigns nothing adds nothing; one that does is overruled by a later
      assignment of the same variable. */
  lemma {:induction false} AssignsAdded(pre: seq<string>, w: string, post: seq<string>)
    ensures Assigns(pre + [w] + post) ==
              match Assigned(w)
              case Some(a) => if AssignedIn(post, a.0) then Assigns(pre + post) else Assigns(pre + post)[a.0 := a.1]
              case None => Assigns(pre + post)
  {
    hide Assigned, Assigns, AssignedIn;
    if post == [] {
      assert pre + [w] + post == pre + [w] && pre + post == pre;
      AssignsOneMore(pre, w);
      NothingAssigned();
    } else {
      var init, last := post[..|post| - 1], post[|post| - 1];
      assert post == init + [last];
      assert pre + [w] + post == pre + [w] + init + [last] && pre + post == pre + init + [last];
      AssignsAdded(pre, w, init);
      AssignsOneMore(pre + [w] + init, last);
      AssignsOneMore(pre + init, last);
      if Assigned(w).Some? {
        AssignedInMore(init, last, Assigned(w).value.0);
      }
    }
  }

  lemma NothingAssigned()
    ensures forall name :: !AssignedIn([], name)
  {
  }

  /** A word that is neither an as-flag nor the value of one. */
  predicate IsArgument(pre: seq<string>, w: string) {
    !IsBareFlag(w) && EqualsValue(w) == None && (pre != [] ==> !IsBareFlag(pre[|pre| - 1]))
  }

  lemma FlagsShift(pre: seq<string>, w: string, post: seq<string>, i: nat)
    requires IsArgument(pre, w) && i < |pre| + 1 + |post|
    ensures var b := pre + [w] + post;
            FlagValue(b, i) == if i < |pre| then FlagValue(pre + post, i)
                               else if i == |pre| then None else FlagValue(pre + post, i - 1)
  {
    hide IsBareFlag, EqualsValue;
    var a, b := pre + post, pre + [w] + post;
    assert forall j :: 0 <= j < |a| ==> a[j] == b[if j < |pre| then j else j + 1];
  }

  lemma {:induction false} FlagsSkip(pre: seq<string>, w: string, post: seq<string>, m: map<string, string>, n: nat)
    requires IsArgument(pre, w) && n <= |pre| + 1 + |post|
    ensures UsedAmong(pre + [w] + post, m, n) == UsedAmong(pre + post, m, if n <= |pre| then n else n - 1)
  {
    hide FlagValue, ValueKey, IsArgument;
    if n > 0 {
      FlagsSkip(pre, w, post, m, n - 1);
      FlagsShift(pre, w, post, n - 1);
    }
  }

  /** What makes a mentioned word bind: it assigns a key, no later word assigns the same
      variable, the flag that decides takes its value from that variable, and without
      the word the command would act as another key or none. */
  predicate Rebinds(pre: seq<string>, w: string, post: seq<string>) {
    var a, b := pre + post, pre + [w] + post;
    match Assigned(w)
    case None => false
    case Some((name, key)) =>
      var d := Decider(b, Assigns(b), |b|);
      && !AssignedIn(post, name)
      && d.Some? && FlagNames(b, d.value, name)
      && UpTo(b, Assigns(a), d.value) != Some(key)
  }

  lemma KeyChanges(pre: seq<string>, w: string, post: seq<string>)
    requires IsArgument(pre, w)
    ensures KeyOf(pre + [w] + post) != KeyOf(pre + post) <==> Rebinds(pre, w, post)
  {
    hide UsedAmong, Assigns, Assigned, AssignedIn, IsArgument, Decider, UpTo, FlagNames;
    var a, b := pre + post, pre + [w] + post;
    FlagsSkip(pre, w, post, Assigns(a), |b|);
    FlagsSkip(pre, w, post, Assigns(b), |b|);
    AssignsAdded(pre, w, post);
    if Assigned(w).Some? {
      AssignmentShows(b, Assigns(a), Assigned(w).value.0, Assigned(w).value.1, |b|);
    }
  }

  /** Half of the promise exactly, for every command line of quoted words and every argument
      in it that is neither an as-flag nor the value of one: with the argument the plugin acts
      as another key than without it if and only if the argument `Rebinds`. */
  lemma MentionBindsExactly(pre: seq<string>, w: string, post: seq<string>)
    requires "" !in pre + [w] + post && IsArgument(pre, w)
    ensures KeyOf(Words(Join(pre + [w] + post))) != KeyOf(Words(Join(pre + post))) <==> Rebinds(pre, w, post)
  {
    hide Words, Join, KeyOf, Rebinds, IsArgument;
    var a, b := pre + post, pre + [w] + post;
    assert "" !in a by {
      assert forall x :: x in a ==> x in b;
    }
    QuotingRoundTrips(a);
    QuotingRoundTrips(b);
    KeyChanges(pre, w, post);
  }

  /** The exception is real: a command line whose last argument is only a message, but
      reads as an assignment, makes the plugin act as the key the message names. */
  lemma MentionedAssignmentBinds()
    ensures var command := ["K=raj-aaaaaa", "send", "--as", "$K"];
            && KeyOf(Words(Join(command))) == Some("raj-aaaaaa")
            && KeyOf(Words(Join(command + ["K=raj-bbbbbb"]))) == Some("raj-bbbbbb")
  {
    hide Words, Join, KeyOf;
    var command := ["K=raj-aaaaaa", "send", "--as", "$K"];
    QuotingRoundTrips(command);
    QuotingRoundTrips(command + ["K=raj-bbbbbb"]);
    MentionedOnce();
  }

  // ---------- When a message is itself a flag ----------

  predicate IsFlag(w: string) {
    IsBareFlag(w) || EqualsValue(w).Some?
  }

  lemma FlagAssignsNothing(w: string)
    requires IsFlag(w)
    ensures Assigned(w) == None
  {
    assert w[0] == '-';
    var eq := IndexOf(w, '=');
    if eq > 0 {
      assert w[..eq][0] == '-';
    }
  }

  /** A flag put between two words, the first not itself waiting for a value, leaves
      every other flag its value. */
  lemma FlagsAround(pre: seq<string>, w: string, post: seq<string>, i: nat)
    requires (pre != [] ==> !IsBareFlag(pre[|pre| - 1])) && i < |pre| + 1 + |post| && i != |pre|
    ensures FlagValue(pre + [w] + post, i) == FlagValue(pre + post, if i < |pre| then i else i - 1)
  {
    hide IsBareFlag, EqualsValue;
    var a, b := pre + post, pre + [w] + post;
    assert forall j :: 0 <= j < |a| ==> a[j] == b[if j < |pre| then j else j + 1];
  }

  lemma {:induction false} UsedBefore(pre: seq<string>, w: string, post: seq<string>, m: map<string, string>, n: nat)
    requires (pre != [] ==> !IsBareFlag(pre[|pre| - 1])) && n <= |pre|
    ensures UsedAmong(pre + [w] + post, m, n) == UsedAmong(pre + post, m, n)
  {
    hide FlagValue, ValueKey, IsBareFlag;
    if n > 0 {
      UsedBefore(pre, w, post, m, n - 1);
      FlagsAround(pre, w, post, n - 1);
    }
  }

  /** The added flag counts exactly while no later one resolves. */
  lemma {:induction false} FlagShows(pre: seq<string>, w: string, post: seq<string>, m: map<string, string>, n: nat)
    requires (pre != [] ==> !IsBareFlag(pre[|pre| - 1])) && |pre| < n <= |pre| + 1 + |post|
    ensures var a, b := pre + post, pre + [w] + post;
            if Decider(b, m, n) == Some(|pre|)
            then UsedAmong(b, m, n) == ValueKey(FlagValue(b, |pre|).value, m) != None && UsedAmong(a, m, n - 1) == UsedAmong(a, m, |pre|)
            else UsedAmong(b, m, n) == UsedAmong(a, m, n - 1)
  {
    hide FlagValue, ValueKey, IsBareFlag;
    var b := pre + [w] + post;
    if n == |pre| + 1 {
      UsedBefore(pre, w, post, m, |pre|);
    } else {
      FlagShows(pre, w, post, m, n - 1);
      FlagsAround(pre, w, post, n - 1);
    }
  }

  /** What makes a message that is a flag bind: it is the flag that decides, and what the
      flags before it give is another key or none. */
  predicate FlagBinds(pre: seq<string>, w: string, post: seq<string>) {
    var b := pre + [w] + post;
    && Decider(b, Assigns(b), |b|) == Some(|pre|)
    && UsedAmong(pre + post, Assigns(b), |pre|) != ValueKey(FlagValue(b, |pre|).value, Assigns(b))
  }

  lemma FlagChanges(pre: seq<string>, w: string, post: seq<string>)
    requires IsFlag(w) && (pre != [] ==> !IsBareFlag(pre[|pre| - 1]))
    ensures KeyOf(pre + [w] + post) != KeyOf(pre + post) <==> FlagBinds(pre, w, post)
  {
    hide UsedAmong, Assigns, Assigned, AssignedIn, Decider, IsFlag, IsBareFlag, ValueKey, FlagValue;
    FlagAssignsNothing(w);
    AssignsAdded(pre, w, post);
    FlagShows(pre, w, post, Assigns(pre + post), |pre| + 1 + |post|);
  }

  /** The other half of the promise, for every command line of quoted words: a message
      that is wholly an as-flag, with its value or without, is read as one, quotes or no,
      and the plugin then acts as another key if and only if it `FlagBinds`. */
  lemma MentionedFlagBindsExactly(pre: seq<string>, w: string, post: seq<string>)
    requires "" !in pre + [w] + post && IsFlag(w) && (pre != [] ==> !IsBareFlag(pre[|pre| - 1]))
    ensures KeyOf(Words(Join(pre + [w] + post))) != KeyOf(Words(Join(pre + post))) <==> FlagBinds(pre, w, post)
  {
    hide Words, Join, KeyOf, FlagBinds, IsFlag, IsBareFlag;
    var a, b := pre + post, pre + [w] + post;
    assert "" !in a by {
      assert forall x :: x in a ==> x in b;
    }
    QuotingRoundTrips(a);
    QuotingRoundTrips(b);
    FlagChanges(pre, w, post);
  }

  /** It does happen: a quoted message that is a flag moves the command to the key in it. */
  lemma MentionedFlagBinds()
    ensures var command := ["send", "--as=raj-aaaaaa"];
            && KeyOf(Words(Join(command))) == Some("raj-aaaaaa")
            && KeyOf(Words(Join(command + ["--as=raj-bbbbbb"]))) == Some("raj-bbbbbb")
  {
    hide Words, Join, Assigns;
    var command, w := ["send", "--as=raj-aaaaaa"], "--as=raj-bbbbbb";
    QuotingRoundTrips(command);
    QuotingRoundTrips(command + [w]);
    assert EqualsValue(w) == Some("raj-bbbbbb") && EqualsValue(command[1]) == Some("raj-aaaaaa");
    assert (command + [w])[2] == w;
  }

  lemma LineCons(p: Part, gap: string, rest: seq<Word>)
    requires Spells(rest) && Fits(p) && (forall c :: c in gap ==> c in BREAKS) && (gap == "" ==> rest == [])
    ensures var ws := [Word([p], gap)] + rest;
            Spells(ws) && Line(ws) == Written(p) + gap + Line(rest) && Texts(ws) == [p.text] + Texts(rest)
  {
    hide Fits, Written;
    var ws := [Word([p], gap)] + rest;
    assert ws[1..] == rest;
    assert Spells(ws) by {
      assert forall i :: 0 < i < |ws| ==> ws[i] == rest[i - 1];
    }
    assert [p][1..] == [] && Spelled([p]) == Written(p) + Spelled([]);
    assert Written(p) + "" == Written(p) && p.text + "" == p.text;
    assert TextOf([p]) == p.text + TextOf([]);
  }

  /** The form the plugin's own comment names: a key assigned to a variable, and the flag
      reading the variable in double quotes. */
  lemma QuotedVariableResolves()
    ensures KeyOf(Words("K=raj-aaaaaa send --as \"$K\"")) == Some("raj-aaaaaa")
  {
    hide Words, KeyOf, Assigned, Line, Texts, Spells;
    var words := ["K=raj-aaaaaa", "send"];
    SpelledCommand();
    AssignsK("K=raj-aaaaaa", "raj-aaaaaa");
    KeyNotAssigned();
    assert words == [] + ["K=raj-aaaaaa"] + ["send"];
    AssignsOneMore([], "K=raj-aaaaaa");
    AssignsOneMore([] + ["K=raj-aaaaaa"], "send");
    AssignsOneMore(words, "$K");
    VariableSpellings("K");
    assert "$" + "K" == "$K";
    LastFlagDecides(words, "$K", "raj-aaaaaa");
    assert words + ["--as", "$K"] == ["K=raj-aaaaaa", "send", "--as", "$K"];
  }

  lemma SpelledCommand()
    ensures Words("K=raj-aaaaaa send --as \"$K\"") == ["K=raj-aaaaaa", "send", "--as", "$K"]
  {
    hide Words, Line, Texts, Spells, Fits, Written, NonEmpty;
    NothingSpelled();
    PartsFit();
    var w3 := [Word([Double("$K", [false, false])], "")];
    LineCons(Double("$K", [false, false]), "", []);
    assert w3 == [Word([Double("$K", [false, false])], "")] + [];
    var w2 := [Word([Bare("--as")], " ")] + w3;
    LineCons(Bare("--as"), " ", w3);
    var w1 := [Word([Bare("send")], " ")] + w2;
    LineCons(Bare("send"), " ", w2);
    var ws := [Word([Bare("K=raj-aaaaaa")], " ")] + w1;
    LineCons(Bare("K=raj-aaaaaa"), " ", w1);
    TokeniseSpelled(ws);
    var texts := ["K=raj-aaaaaa"] + (["send"] + (["--as"] + (["$K"] + [])));
    assert Texts(ws) == texts == ["K=raj-aaaaaa", "send", "--as", "$K"];
    NonEmptyKeeps(texts);
    assert "K=raj-aaaaaa" + " " + ("send" + " " + ("--as" + " " + ("\"$K\"" + "" + ""))) == "K=raj-aaaaaa send --as \"$K\"";
  }

  lemma WordCharFits(c: char)
    requires 'a' <= c <= 'z' || 'A' <= c <= 'Z' || c == '-' || c == '='
    ensures c !in BREAKS && c !in "'\"\\"
  {
  }

  lemma BareFits(s: string)
    requires forall i :: 0 <= i < |s| ==> 'a' <= s[i] <= 'z' || 'A' <= s[i] <= 'Z' || s[i] == '-' || s[i] == '='
    ensures Fits(Bare(s)) && Written(Bare(s)) == s
  {
    forall i | 0 <= i < |s| ensures s[i] !in BREAKS && s[i] !in "'\"\\" {
      WordCharFits(s[i]);
    }
  }

  lemma PartsFit()
    ensures Fits(Bare("K=raj-aaaaaa")) && Fits(Bare("send")) && Fits(Bare("--as")) && Fits(Double("$K", [false, false]))
    ensures Written(Bare("K=raj-aaaaaa")) == "K=raj-aaaaaa" && Written(Bare("send")) == "send"
    ensures Written(Bare("--as")) == "--as" && Written(Double("$K", [false, false])) == "\"$K\""
  {
    hide Fits, Written;
    BareFits("K=raj-aaaaaa");
    BareFits("send");
    BareFits("--as");
    VariableFits();
  }

  lemma VariableFits()
    ensures Fits(Double("$K", [false, false])) && Written(Double("$K", [false, false])) == "\"$K\""
  {
    assert "$K"[1..] == "K" && [false, false][1..] == [false];
    assert DoubleChars("K", [false]) == ['K'] + DoubleChars("", []);
  }

  lemma NothingSpelled()
    ensures Spells([]) && Line([]) == "" && Texts([]) == []
  {
  }

  /** A deciding flag that did not resolve without the word need not change the key: an
      earlier flag may have named the same one. */
  lemma UnresolvedNeedNotChange()
    ensures var pre := ["--as", "raj-aaaaaa", "--as", "$K"];
            && KeyOf(pre) == Some("raj-aaaaaa") && ValueKey("$K", Assigns(pre)) == None
            && KeyOf(pre + ["K=raj-aaaaaa"]) == Some("raj-aaaaaa")
  {
    hide Assigned;
    var pre, w := ["--as", "raj-aaaaaa", "--as", "$K"], "K=raj-aaaaaa";
    KeyNotAssigned();
    AssignsK(w, "raj-aaaaaa");
    PlainKeyNotAssigned();
    NoAssigns();
    assert pre == [] + ["--as"] + ["raj-aaaaaa"] + ["--as"] + ["$K"];
    AssignsOneMore([], "--as");
    AssignsOneMore([] + ["--as"], "raj-aaaaaa");
    AssignsOneMore([] + ["--as"] + ["raj-aaaaaa"], "--as");
    AssignsOneMore([] + ["--as"] + ["raj-aaaaaa"] + ["--as"], "$K");
    AssignsOneMore(pre, w);
    TwoFlags(pre, Assigns(pre));
    TwoFlags(pre + [w], Assigns(pre + [w]));
  }

  lemma PlainKeyNotAssigned()
    ensures Assigned("raj-aaaaaa") == None
  {
    assert '=' !in "raj-aaaaaa";
  }

  lemma TwoFlags(s: seq<string>, m: map<string, string>)
    requires |s| == 4 || (|s| == 5 && s[4] == "K=raj-aaaaaa")
    requires s[0] == "--as" && s[1] == "raj-aaaaaa" && s[2] == "--as" && s[3] == "$K"
    requires "K" in m ==> m["K"] == "raj-aaaaaa"
    ensures UsedAmong(s, m, |s|) == Some("raj-aaaaaa")
    ensures "K" !in m ==> ValueKey("$K", m) == None
  {
    assert "$K"[1..2] == "K";
    assert UsedAmong(s, m, 1) == Some("raj-aaaaaa");
    assert FlagValue(s, 1) == None && FlagValue(s, 3) == None;
    assert UsedAmong(s, m, 2) == UsedAmong(s, m, 3) == UsedAmong(s, m, 4) == Some("raj-aaaaaa");
    if |s| == 5 {
      assert s[4][0] == 'K' && FlagValue(s, 4) == None;
    }
  }

  lemma MentionedOnce()
    ensures KeyOf(["K=raj-aaaaaa", "send", "--as", "$K"]) == Some("raj-aaaaaa")
    ensures KeyOf(["K=raj-aaaaaa", "send", "--as", "$K"] + ["K=raj-bbbbbb"]) == Some("raj-bbbbbb")
  {
    hide Assigns, Assigned, UsedAmong, ValueKey;
    var a, b := "K=raj-aaaaaa", "K=raj-bbbbbb";
    AssignsK(a, "raj-aaaaaa");
    AssignsK(b, "raj-bbbbbb");
    var s := [a, "send", "--as", "$K"];
    var t := s + [b];
    KeyNotAssigned();
    assert [a] == [] + [a] && s == [a] + ["send"] + ["--as"] + ["$K"];
    AssignsOneMore([], a);
    AssignsOneMore([a], "send");
    AssignsOneMore([a] + ["send"], "--as");
    AssignsOneMore([a] + ["send"] + ["--as"], "$K");
    AssignsOneMore(s, b);
    UsedAtDollar(s, Assigns(s));
    UsedAtDollar(t, Assigns(t));
    assert t == [a, "send", "--as", "$K", b];
  }

  lemma AssignsK(w: string, key: string)
    requires w == "K=" + key && IsKey(key)
    ensures Assigned(w) == Some(("K", key))
  {
    assert w[0] == 'K' && w[1] == '=';
    assert IndexOf(w[1..], '=') == 0;
    assert w[..1] == "K" && w[2..] == key;
  }

  lemma KeyNotAssigned()
    ensures Assigned("send") == None && Assigned("--as") == None && Assigned("$K") == None
  {
    assert '=' !in "send" && '=' !in "--as" && '=' !in "$K";
  }

  lemma UsedAtDollar(s: seq<string>, assigns: map<string, string>)
    requires |s| >= 4 && s[1] == "send" && s[2] == "--as" && s[3] == "$K" && |s[0]| > 4 && s[0][0] == 'K'
    requires "K" in assigns
    ensures UsedAmong(s, assigns, 4) == Some(assigns["K"])
    ensures |s| == 5 && |s[4]| > 4 && s[4][0] == 'K' ==> UsedAmong(s, assigns, 5) == Some(assigns["K"])
  {
    assert FlagValue(s, 3) == None;
    assert Variable("$K") == Some("K") by {
      assert "$K"[1..2] == "K";
    }
    assert UsedAmong(s, assigns, 3) == Some(assigns["K"]);
  }
}
