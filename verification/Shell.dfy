/** What the shell's parser computes, as functions of the text and a position, and the round trip. */
module Shell {
  const MAXARGS := 10

  /** The characters from q up to eq. */
  datatype Span = Span(q: nat, eq: nat)

  datatype Direction = Input | Output

  datatype Cmd =
    | Exec(args: seq<Span>)
    | Redir(cmd: Cmd, file: Span, direction: Direction)
    | Pipe(left: Cmd, right: Cmd)
    | List(left: Cmd, right: Cmd)
    | Back(cmd: Cmd)

  datatype Parsed = Parsed(cmd: Cmd, at: nat) | Panic(why: string)

  datatype Token = Token(kind: char, q: nat, eq: nat, next: nat)

  predicate IsSpace(c: char) {
    c == ' ' || c == '\t' || c == '\r' || c == '\n' || c == 11 as char
  }

  predicate IsSymbol(c: char) {
    c == '<' || c == '|' || c == '>' || c == '&' || c == ';' || c == '(' || c == ')'
  }

  predicate IsWordChar(c: char) {
    !IsSpace(c) && !IsSymbol(c)
  }

  /** The character that C reads at i: the terminating NUL at the end. */
  function Char(s: string, i: nat): char {
    if i < |s| then s[i] else '\0'
  }

  ghost predicate NoNul(s: string) {
    forall k :: 0 <= k < |s| ==> s[k] != '\0'
  }

  // ---- Tokens ------------------------------------------------------------------------------------

  function Skip(s: string, i: nat): (j: nat)
    requires i <= |s|
    ensures i <= j <= |s| && (j < |s| ==> !IsSpace(s[j]))
    decreases |s| - i
  {
    if i < |s| && IsSpace(s[i]) then Skip(s, i + 1) else i
  }

  function WordEnd(s: string, i: nat): (j: nat)
    requires i <= |s|
    ensures i <= j <= |s| && (j < |s| ==> !IsWordChar(s[j]))
    decreases |s| - i
  {
    if i < |s| && IsWordChar(s[i]) then WordEnd(s, i + 1) else i
  }

  function TokenAt(s: string, i: nat): (t: Token)
    requires i <= |s|
    ensures i <= t.q <= t.eq <= t.next <= |s|
    ensures t.kind == '\0' || t.q < t.eq
  {
    var q := Skip(s, i);
    var c := Char(s, q);
    if c == '\0' then Token('\0', q, q, Skip(s, q))
    else if c == '>' then
      if Char(s, q + 1) == '>' then Token('+', q, q + 2, Skip(s, q + 2)) else Token('>', q, q + 1, Skip(s, q + 1))
    else if IsSymbol(c) then Token(c, q, q + 1, Skip(s, q + 1))
    else var e := WordEnd(s, q); Token('a', q, e, Skip(s, e))
  }

  // ---- The grammar -------------------------------------------------------------------------------

  /** The exec node under the redirections gets one more argument. */
  function AddArg(c: Cmd, w: Span): Cmd {
    match c
    case Exec(args) => Exec(args + [w])
    case Redir(d, file, direction) => Redir(AddArg(d, w), file, direction)
    case _ => c
  }

  function RedirsAt(s: string, c: Cmd, i: nat): (r: Parsed)
    requires i <= |s|
    ensures r.Parsed? ==> i <= r.at <= |s|
    decreases |s| - i
  {
    var j := Skip(s, i);
    if Char(s, j) == '<' || Char(s, j) == '>' then
      var t := TokenAt(s, j);
      var f := TokenAt(s, t.next);
      if f.kind != 'a' then Panic("missing file for redirection")
      else RedirsAt(s, Redir(c, Span(f.q, f.eq), if t.kind == '<' then Input else Output), f.next)
    else Parsed(c, j)
  }

  function ArgsAt(s: string, c: Cmd, argc: nat, i: nat): (r: Parsed)
    requires i <= |s|
    ensures r.Parsed? ==> i <= r.at <= |s|
    decreases |s| - i
  {
    var j := Skip(s, i);
    if Char(s, j) == '|' || Char(s, j) == ')' || Char(s, j) == '&' || Char(s, j) == ';' then Parsed(c, j)
    else
      var t := TokenAt(s, j);
      if t.kind == '\0' then Parsed(c, t.next)
      else if t.kind != 'a' then Panic("syntax")
      else if argc + 1 >= MAXARGS then Panic("too many args")
      else
        var r := RedirsAt(s, AddArg(c, Span(t.q, t.eq)), t.next);
        if r.Panic? then r else ArgsAt(s, r.cmd, argc + 1, r.at)
  }

  function ExecAt(s: string, i: nat): (r: Parsed)
    requires i <= |s|
    ensures r.Parsed? ==> i <= r.at <= |s|
    decreases |s| - i, 1
  {
    var j := Skip(s, i);
    if Char(s, j) == '(' then BlockAt(s, j)
    else
      var r := RedirsAt(s, Exec([]), j);
      if r.Panic? then r else ArgsAt(s, r.cmd, 0, r.at)
  }

  function BlockAt(s: string, i: nat): (r: Parsed)
    requires i <= |s|
    ensures r.Parsed? ==> i <= r.at <= |s|
    decreases |s| - i, 0
  {
    var j := Skip(s, i);
    if Char(s, j) != '(' then Panic("parseblock")
    else
      var r := LineAt(s, TokenAt(s, j).next);
      if r.Panic? then r
      else
        var k := Skip(s, r.at);
        if Char(s, k) != ')' then Panic("syntax - missing )")
        else RedirsAt(s, r.cmd, TokenAt(s, k).next)
  }

  function PipeAt(s: string, i: nat): (r: Parsed)
    requires i <= |s|
    ensures r.Parsed? ==> i <= r.at <= |s|
    decreases |s| - i, 2
  {
    var l := ExecAt(s, i);
    if l.Panic? then l
    else
      var j := Skip(s, l.at);
      if Char(s, j) == '|' then
        var r := PipeAt(s, TokenAt(s, j).next);
        if r.Panic? then r else Parsed(Pipe(l.cmd, r.cmd), r.at)
      else Parsed(l.cmd, j)
  }

  function BacksAt(s: string, c: Cmd, i: nat): (r: Parsed)
    requires i <= |s|
    ensures r.Parsed? && i <= r.at <= |s|
    decreases |s| - i
  {
    var j := Skip(s, i);
    if Char(s, j) == '&' then BacksAt(s, Back(c), TokenAt(s, j).next) else Parsed(c, j)
  }

  function LineAt(s: string, i: nat): (r: Parsed)
    requires i <= |s|
    ensures r.Parsed? ==> i <= r.at <= |s|
    decreases |s| - i, 3
  {
    var p := PipeAt(s, i);
    if p.Panic? then p
    else
      var l := BacksAt(s, p.cmd, p.at);
      var j := Skip(s, l.at);
      if Char(s, j) == ';' then
        var r := LineAt(s, TokenAt(s, j).next);
        if r.Panic? then r else Parsed(List(l.cmd, r.cmd), r.at)
      else Parsed(l.cmd, j)
  }

  function CmdOf(s: string): (r: Parsed)
    ensures r.Parsed? ==> r.at == |s|
  {
    var r := LineAt(s, 0);
    if r.Panic? then r
    else if Skip(s, r.at) != |s| then Panic("syntax")
    else Parsed(r.cmd, |s|)
  }

  // ---- Spans -------------------------------------------------------------------------------------

  /** A maximal word. */
  ghost predicate IsSpan(s: string, w: Span) {
    && w.q < w.eq <= |s| && (w.eq < |s| ==> !IsWordChar(s[w.eq]))
    && forall k :: w.q <= k < w.eq ==> IsWordChar(s[k])
  }

  ghost predicate Spanned(s: string, c: Cmd) {
    match c
    case Exec(args) => forall i :: 0 <= i < |args| ==> IsSpan(s, args[i])
    case Redir(d, file, _) => Spanned(s, d) && IsSpan(s, file)
    case Pipe(l, r) => Spanned(s, l) && Spanned(s, r)
    case List(l, r) => Spanned(s, l) && Spanned(s, r)
    case Back(d) => Spanned(s, d)
  }

  lemma {:induction false} WordEndChars(s: string, i: nat)
    requires i <= |s|
    ensures forall k :: i <= k < WordEnd(s, i) ==> IsWordChar(s[k])
    decreases |s| - i
  {
    if i < |s| && IsWordChar(s[i]) {
      WordEndChars(s, i + 1);
    }
  }

  lemma TokenIsSpan(s: string, i: nat)
    requires i <= |s| && TokenAt(s, i).kind == 'a'
    ensures IsSpan(s, Span(TokenAt(s, i).q, TokenAt(s, i).eq))
  {
    WordEndChars(s, TokenAt(s, i).q);
  }

  lemma {:induction false} AddArgSpanned(s: string, c: Cmd, w: Span)
    requires Spanned(s, c) && IsSpan(s, w)
    ensures Spanned(s, AddArg(c, w))
  {
    match c
    case Redir(d, _, _) => AddArgSpanned(s, d, w);
    case _ =>
  }

  lemma {:induction false} RedirsSpanned(s: string, c: Cmd, i: nat)
    requires i <= |s| && Spanned(s, c)
    ensures RedirsAt(s, c, i).Parsed? ==> Spanned(s, RedirsAt(s, c, i).cmd)
    decreases |s| - i
  {
    var j := Skip(s, i);
    if Char(s, j) == '<' || Char(s, j) == '>' {
      var t := TokenAt(s, j);
      var f := TokenAt(s, t.next);
      if f.kind == 'a' {
        TokenIsSpan(s, t.next);
        RedirsSpanned(s, Redir(c, Span(f.q, f.eq), if t.kind == '<' then Input else Output), f.next);
      }
    }
  }

  lemma {:induction false} ArgsSpanned(s: string, c: Cmd, argc: nat, i: nat)
    requires i <= |s| && Spanned(s, c)
    ensures ArgsAt(s, c, argc, i).Parsed? ==> Spanned(s, ArgsAt(s, c, argc, i).cmd)
    decreases |s| - i
  {
    hide RedirsAt, AddArg, Spanned, TokenAt, IsSpan;
    var j := Skip(s, i);
    var t := TokenAt(s, j);
    if t.kind == 'a' {
      TokenIsSpan(s, j);
      AddArgSpanned(s, c, Span(t.q, t.eq));
      RedirsSpanned(s, AddArg(c, Span(t.q, t.eq)), t.next);
      var r := RedirsAt(s, AddArg(c, Span(t.q, t.eq)), t.next);
      if r.Parsed? {
        ArgsSpanned(s, r.cmd, argc + 1, r.at);
      }
    }
  }

  lemma {:induction false} ExecSpanned(s: string, i: nat)
    requires i <= |s|
    ensures ExecAt(s, i).Parsed? ==> Spanned(s, ExecAt(s, i).cmd)
    decreases |s| - i, 1
  {
    var j := Skip(s, i);
    if Char(s, j) == '(' {
      BlockSpanned(s, j);
    } else {
      RedirsSpanned(s, Exec([]), j);
      var r := RedirsAt(s, Exec([]), j);
      if r.Parsed? {
        ArgsSpanned(s, r.cmd, 0, r.at);
      }
    }
  }

  lemma {:induction false} BlockSpanned(s: string, i: nat)
    requires i <= |s|
    ensures BlockAt(s, i).Parsed? ==> Spanned(s, BlockAt(s, i).cmd)
    decreases |s| - i, 0
  {
    var j := Skip(s, i);
    if Char(s, j) == '(' {
      LineSpanned(s, TokenAt(s, j).next);
      var r := LineAt(s, TokenAt(s, j).next);
      if r.Parsed? {
        RedirsSpanned(s, r.cmd, TokenAt(s, Skip(s, r.at)).next);
      }
    }
  }

  lemma {:induction false} PipeSpanned(s: string, i: nat)
    requires i <= |s|
    ensures PipeAt(s, i).Parsed? ==> Spanned(s, PipeAt(s, i).cmd)
    decreases |s| - i, 2
  {
    ExecSpanned(s, i);
    var l := ExecAt(s, i);
    if l.Parsed? && Char(s, Skip(s, l.at)) == '|' {
      PipeSpanned(s, TokenAt(s, Skip(s, l.at)).next);
    }
  }

  lemma {:induction false} BacksSpanned(s: string, c: Cmd, i: nat)
    requires i <= |s| && Spanned(s, c)
    ensures Spanned(s, BacksAt(s, c, i).cmd)
    decreases |s| - i
  {
    if Char(s, Skip(s, i)) == '&' {
      BacksSpanned(s, Back(c), TokenAt(s, Skip(s, i)).next);
    }
  }

  /** Every word of a parsed line is a maximal word of its text. */
  lemma {:induction false} LineSpanned(s: string, i: nat)
    requires i <= |s|
    ensures LineAt(s, i).Parsed? ==> Spanned(s, LineAt(s, i).cmd)
    decreases |s| - i, 3
  {
    PipeSpanned(s, i);
    var p := PipeAt(s, i);
    if p.Parsed? {
      BacksSpanned(s, p.cmd, p.at);
      var l := BacksAt(s, p.cmd, p.at);
      if Char(s, Skip(s, l.at)) == ';' {
        LineSpanned(s, TokenAt(s, Skip(s, l.at)).next);
      }
    }
  }

  // ---- The round trip ----------------------------------------------------------------------------

  /** A command with its words as strings. */
  datatype Tree =
    | TExec(args: seq<string>)
    | TRedir(t: Tree, file: string, direction: Direction)
    | TPipe(left: Tree, right: Tree)
    | TList(left: Tree, right: Tree)
    | TBack(t: Tree)

  function Text(s: string, w: Span): string {
    if w.q <= w.eq <= |s| then s[w.q..w.eq] else ""
  }

  function Texts(s: string, ws: seq<Span>): (r: seq<string>)
    ensures |r| == |ws| && forall i :: 0 <= i < |ws| ==> r[i] == Text(s, ws[i])
  {
    if ws == [] then [] else Texts(s, ws[..|ws| - 1]) + [Text(s, ws[|ws| - 1])]
  }

  function Resolve(s: string, c: Cmd): Tree {
    match c
    case Exec(args) => TExec(Texts(s, args))
    case Redir(d, file, direction) => TRedir(Resolve(s, d), Text(s, file), direction)
    case Pipe(l, r) => TPipe(Resolve(s, l), Resolve(s, r))
    case List(l, r) => TList(Resolve(s, l), Resolve(s, r))
    case Back(d) => TBack(Resolve(s, d))
  }

  predicate IsWord(w: string) {
    w != [] && forall k :: 0 <= k < |w| ==> IsWordChar(w[k]) && w[k] != '\0'
  }

  /** Words are words, and there are fewer than MAXARGS to a command. */
  predicate Legal(t: Tree) {
    match t
    case TExec(args) => |args| < MAXARGS && forall i :: 0 <= i < |args| ==> IsWord(args[i])
    case TRedir(u, file, _) => Legal(u) && IsWord(file)
    case TPipe(l, r) => Legal(l) && Legal(r)
    case TList(l, r) => Legal(l) && Legal(r)
    case TBack(u) => Legal(u)
  }

  /** The words from the k-th on, with a space between them. */
  function Words(args: seq<string>, k: nat): string
    decreases |args| - k
  {
    if k >= |args| then "" else if k + 1 == |args| then args[k] else args[k] + " " + Words(args, k + 1)
  }

  function Operator(direction: Direction): char {
    if direction == Input then '<' else '>'
  }

  function Block(t: Tree): string
    decreases t, 1
  {
    "(" + Line(t) + ")"
  }

  /** The canonical text: every part of a command in parentheses. */
  function Line(t: Tree): string
    decreases t, 0
  {
    match t
    case TExec(args) => Words(args, 0)
    case TRedir(u, file, direction) => Block(u) + [Operator(direction)] + file
    case TPipe(l, r) => Block(l) + "|" + Block(r)
    case TList(l, r) => Block(l) + ";" + Block(r)
    case TBack(u) => Block(u) + "&"
  }

  /** The text has w at position i. */
  ghost predicate Has(s: string, i: nat, w: string) {
    i + |w| <= |s| && s[i..i + |w|] == w
  }

  lemma HasTwo(s: string, i: nat, v: string, w: string)
    requires Has(s, i, v + w)
    ensures Has(s, i, v) && Has(s, i + |v|, w)
  {
    assert s[i..i + |v|] == s[i..i + |v + w|][..|v|];
    assert s[i + |v|..i + |v| + |w|] == s[i..i + |v + w|][|v|..];
  }

  lemma HasThree(s: string, i: nat, u: string, v: string, w: string)
    requires Has(s, i, u + v + w)
    ensures Has(s, i, u) && Has(s, i + |u|, v) && Has(s, i + |u| + |v|, w)
  {
    HasTwo(s, i, u + v, w);
    HasTwo(s, i, u, v);
  }

  /** Nothing but a closing parenthesis or the end follows. */
  predicate Closed(s: string, i: nat) {
    i <= |s| && (i < |s| ==> s[i] == ')')
  }

  lemma {:induction false} WordEndIs(s: string, i: nat, w: string, k: nat)
    requires Has(s, i, w) && k <= |w| && (forall m :: 0 <= m < |w| ==> IsWordChar(w[m]))
    requires i + |w| < |s| ==> !IsWordChar(s[i + |w|])
    ensures WordEnd(s, i + k) == i + |w|
    decreases |w| - k
  {
    if k < |w| {
      assert s[i + k] == s[i..i + |w|][k];
      WordEndIs(s, i, w, k + 1);
    }
  }

  /** One turn of the loop over arguments. */
  lemma ArgStep(s: string, i: nat, done: seq<Span>, e: nat)
    requires i < e <= |s| && IsWordChar(s[i]) && s[i] != '\0' && WordEnd(s, i) == e && |done| + 1 < MAXARGS
    requires Char(s, Skip(s, e)) != '<' && Char(s, Skip(s, e)) != '>'
    ensures ArgsAt(s, Exec(done), |done|, i) == ArgsAt(s, Exec(done + [Span(i, e)]), |done| + 1, Skip(s, e))
  {
  }

  ghost predicate WordAt(s: string, i: nat, w: string) {
    i < i + |w| <= |s| && IsWordChar(s[i]) && s[i] != '\0' && WordEnd(s, i) == i + |w| && Text(s, Span(i, i + |w|)) == w
  }

  lemma OneWord(s: string, i: nat, w: string)
    requires Has(s, i, w) && IsWord(w) && (i + |w| < |s| ==> !IsWordChar(s[i + |w|]))
    ensures WordAt(s, i, w)
  {
    WordEndIs(s, i, w, 0);
    assert s[i] == s[i..i + |w|][0] == w[0];
  }

  /** Where the next of several words starts. */
  lemma NextWord(s: string, i: nat, args: seq<string>, k: nat)
    requires k + 1 < |args| && Has(s, i, Words(args, k)) && IsWord(args[k]) && IsWord(args[k + 1])
    ensures var e := i + |args[k]|;
            && WordAt(s, i, args[k]) && e < |s| && Skip(s, e) == e + 1
            && Has(s, e + 1, Words(args, k + 1)) && e + 1 + |Words(args, k + 1)| == i + |Words(args, k)|
            && Char(s, e + 1) != '<' && Char(s, e + 1) != '>'
  {
    var e := i + |args[k]|;
    HasThree(s, i, args[k], " ", Words(args, k + 1));
    assert s[e] == s[e..e + 1][0] == ' ';
    assert Words(args, k + 1)[0] == args[k + 1][0];
    assert s[e + 1] == s[e + 1..e + 1 + |Words(args, k + 1)|][0];
    assert Skip(s, e + 1) == e + 1;
    OneWord(s, i, args[k]);
  }

  lemma ArgsEnd(s: string, i: nat, done: seq<Span>)
    requires Closed(s, i)
    ensures ArgsAt(s, Exec(done), |done|, i) == Parsed(Exec(done), i)
  {
  }

  /** The words from the k-th on are one space apart from i on, up to end, where the line closes. */
  ghost predicate Laid(s: string, i: nat, args: seq<string>, k: nat, end: nat)
    decreases |args| - k
  {
    if k >= |args| then i == end && Closed(s, i)
    else
      var e := i + |args[k]|;
      && WordAt(s, i, args[k])
      && if k + 1 == |args| then e == end && Closed(s, e)
         else Skip(s, e) == e + 1 && Char(s, e + 1) != '<' && Char(s, e + 1) != '>' && Laid(s, e + 1, args, k + 1, end)
  }

  lemma LaidNext(s: string, i: nat, args: seq<string>, k: nat, end: nat)
    requires k + 1 < |args| && WordAt(s, i, args[k]) && Skip(s, i + |args[k]|) == i + |args[k]| + 1
    requires Char(s, i + |args[k]| + 1) != '<' && Char(s, i + |args[k]| + 1) != '>'
    requires Laid(s, i + |args[k]| + 1, args, k + 1, end)
    ensures Laid(s, i, args, k, end)
  {
  }

  lemma {:induction false} WordsLaid(s: string, i: nat, args: seq<string>, k: nat, end: nat)
    requires Has(s, i, Words(args, k)) && end == i + |Words(args, k)| && Closed(s, end)
    requires forall j :: 0 <= j < |args| ==> IsWord(args[j])
    ensures Laid(s, i, args, k, end)
    decreases |args| - k
  {
    hide Words, Has, WordAt, Skip, Laid;
    if k + 1 < |args| {
      NextWord(s, i, args, k);
      WordsLaid(s, i + |args[k]| + 1, args, k + 1, end);
      LaidNext(s, i, args, k, end);
    } else {
      LastLaid(s, i, args, k, end);
    }
  }

  lemma LastLaid(s: string, i: nat, args: seq<string>, k: nat, end: nat)
    requires Has(s, i, Words(args, k)) && end == i + |Words(args, k)| && Closed(s, end)
    requires k + 1 >= |args| && forall j :: 0 <= j < |args| ==> IsWord(args[j])
    ensures Laid(s, i, args, k, end)
  {
    if k + 1 == |args| {
      OneWord(s, i, args[k]);
    }
  }

  /** Words that follow those already read become the rest of the arguments. */
  lemma {:induction false} ParsesArgs(s: string, i: nat, done: seq<Span>, args: seq<string>, end: nat)
      returns (all: seq<Span>)
    requires i <= |s| && Laid(s, i, args, |done|, end) && |done| <= |args| < MAXARGS
    requires forall k :: 0 <= k < |done| ==> Text(s, done[k]) == args[k]
    ensures ArgsAt(s, Exec(done), |done|, i) == Parsed(Exec(all), end)
    ensures |all| == |args| && forall k :: 0 <= k < |args| ==> Text(s, all[k]) == args[k]
    decreases |args| - |done|
  {
    hide ArgsAt, WordEnd, Text, IsWordChar;
    if |done| == |args| {
      ArgsEnd(s, i, done);
      all := done;
    } else {
      var e := i + |args[|done|]|;
      ArgStep(s, i, done, e);
      all := ParsesArgs(s, Skip(s, e), done + [Span(i, e)], args, end);
    }
  }

  /** A list of words is read back as a command, up to what closes it. */
  lemma ParsesWords(s: string, i: nat, args: seq<string>, end: nat) returns (c: Cmd)
    requires |args| < MAXARGS && Laid(s, i, args, 0, end) && Closed(s, end) && i <= |s|
    ensures LineAt(s, i) == Parsed(c, end) && Resolve(s, c) == TExec(args)
  {
    var all := ParsesArgs(s, i, [], args, end);
    ExecStarts(s, i);
    LineEnds(s, i, Parsed(Exec(all), end));
    assert Texts(s, all) == args;
    c := Exec(all);
  }

  lemma ExecStarts(s: string, i: nat)
    requires i <= |s| && (i < |s| ==> s[i] == ')' || IsWordChar(s[i]))
    ensures ExecAt(s, i) == ArgsAt(s, Exec([]), 0, i)
  {
  }

  /** A line that is one pipeline element, and nothing more. */
  lemma LineEnds(s: string, i: nat, r: Parsed)
    requires i <= |s| && ExecAt(s, i) == r && r.Parsed? && Closed(s, r.at)
    ensures PipeAt(s, i) == r && LineAt(s, i) == r
  {
  }

  /** A block is read as its line, and then its redirections. */
  lemma BlockStep(s: string, i: nat, r: Parsed)
    requires i + 1 <= |s| && s[i] == '(' && r == LineAt(s, i + 1) && r.Parsed? && Skip(s, i + 1) == i + 1
    requires r.at < |s| && s[r.at] == ')'
    ensures ExecAt(s, i) == RedirsAt(s, r.cmd, Skip(s, r.at + 1))
  {
    hide LineAt, RedirsAt;
    assert Skip(s, i) == i && TokenAt(s, i) == Token('(', i, i + 1, i + 1);
    assert Skip(s, r.at) == r.at && TokenAt(s, r.at) == Token(')', r.at, r.at + 1, Skip(s, r.at + 1));
    assert BlockAt(s, i) == RedirsAt(s, r.cmd, Skip(s, r.at + 1));
  }

  /** Position k holds a symbol, or is the end. */
  predicate Stops(s: string, k: nat) {
    k <= |s| && (k < |s| ==> IsSymbol(s[k]))
  }

  lemma SymbolStays(s: string, k: nat)
    requires Stops(s, k)
    ensures Skip(s, k) == k
  {
  }

  lemma NoRedirs(s: string, c: Cmd, k: nat)
    requires Stops(s, k) && Char(s, k) != '<' && Char(s, k) != '>'
    ensures RedirsAt(s, c, k) == Parsed(c, k)
  {
  }

  lemma RedirTokens(s: string, k: nat, w: string, direction: Direction)
    requires k < |s| && s[k] == Operator(direction) && WordAt(s, k + 1, w) && Closed(s, k + 1 + |w|)
    ensures var e := k + 1 + |w|;
            && Skip(s, k) == k && Skip(s, e) == e
            && TokenAt(s, k) == Token(s[k], k, k + 1, k + 1) && TokenAt(s, k + 1) == Token('a', k + 1, e, e)
  {
    hide WordEnd;
    assert Skip(s, k + 1) == k + 1;
  }

  lemma RedirStep(s: string, c: Cmd, k: nat, w: string, direction: Direction)
    requires k < |s| && s[k] == Operator(direction) && WordAt(s, k + 1, w) && Closed(s, k + 1 + |w|)
    ensures RedirsAt(s, c, k) == Parsed(Redir(c, Span(k + 1, k + 1 + |w|), direction), k + 1 + |w|)
  {
    RedirTokens(s, k, w, direction);
    NoRedirs(s, Redir(c, Span(k + 1, k + 1 + |w|), direction), k + 1 + |w|);
    hide WordEnd, Skip, TokenAt;
  }

  lemma PipeEnds(s: string, i: nat, r: Parsed)
    requires i <= |s| && ExecAt(s, i) == r && r.Parsed? && Stops(s, r.at) && Char(s, r.at) != '|'
    ensures PipeAt(s, i) == r
  {
  }

  lemma PipeStep(s: string, i: nat, l: Cmd, k: nat, r: Cmd, end: nat)
    requires i <= |s| && ExecAt(s, i) == Parsed(l, k) && k < |s| && s[k] == '|'
    requires Skip(s, k + 1) == k + 1 && PipeAt(s, k + 1) == Parsed(r, end) && Closed(s, end)
    ensures LineAt(s, i) == Parsed(Pipe(l, r), end)
  {
    hide ExecAt;
    assert Skip(s, k) == k && TokenAt(s, k) == Token('|', k, k + 1, k + 1);
    assert PipeAt(s, i) == Parsed(Pipe(l, r), end);
    assert Skip(s, end) == end;
    assert BacksAt(s, Pipe(l, r), end) == Parsed(Pipe(l, r), end);
  }

  lemma ListStep(s: string, i: nat, l: Cmd, k: nat, r: Cmd, end: nat)
    requires i <= |s| && PipeAt(s, i) == Parsed(l, k) && k < |s| && s[k] == ';'
    requires Skip(s, k + 1) == k + 1 && LineAt(s, k + 1) == Parsed(r, end)
    ensures LineAt(s, i) == Parsed(List(l, r), end)
  {
    hide PipeAt;
    assert Skip(s, k) == k && TokenAt(s, k) == Token(';', k, k + 1, k + 1);
    assert BacksAt(s, l, k) == Parsed(l, k);
  }

  lemma BackStep(s: string, i: nat, l: Cmd, k: nat)
    requires i <= |s| && PipeAt(s, i) == Parsed(l, k) && k < |s| && s[k] == '&' && Closed(s, k + 1)
    ensures LineAt(s, i) == Parsed(Back(l), k + 1)
  {
    hide PipeAt;
    assert Skip(s, k) == k && Skip(s, k + 1) == k + 1 && TokenAt(s, k) == Token('&', k, k + 1, k + 1);
    assert BacksAt(s, Back(l), k + 1) == Parsed(Back(l), k + 1);
    assert BacksAt(s, l, k) == Parsed(Back(l), k + 1);
  }

  lemma HasChar(s: string, i: nat, c: char)
    requires Has(s, i, [c])
    ensures i < |s| && s[i] == c
  {
  }

  lemma BlockLaid(s: string, i: nat, t: Tree)
    requires Has(s, i, Block(t))
    ensures var k := i + 1 + |Line(t)|;
            i < |s| && s[i] == '(' && Has(s, i + 1, Line(t)) && k < |s| && s[k] == ')' && i + |Block(t)| == k + 1
  {
    HasThree(s, i, "(", Line(t), ")");
    HasChar(s, i, '(');
    HasChar(s, i + 1 + |Line(t)|, ')');
  }

  /** The text of a command does not start with a space. */
  lemma StartsClean(s: string, i: nat, t: Tree)
    requires Legal(t) && Has(s, i, Line(t)) && Closed(s, i + |Line(t)|)
    ensures i <= |s| && Skip(s, i) == i
  {
    match t
    case TExec(args) =>
      if args != [] {
        assert Line(t)[0] == args[0][0];
        assert s[i] == s[i..i + |Line(t)|][0];
      }
    case _ =>
      assert Line(t)[0] == '(';
      assert s[i] == s[i..i + |Line(t)|][0];
  }

  lemma {:induction false} ParsesBlock(s: string, i: nat, t: Tree, k: nat) returns (c: Cmd)
    requires Legal(t) && Has(s, i, Block(t)) && k == i + |Block(t)| && Stops(s, k)
    ensures ExecAt(s, i) == RedirsAt(s, c, k) && Resolve(s, c) == t
    decreases t, 4
  {
    hide LineAt, ExecAt, RedirsAt, Skip, Has, Legal, Line, Block, Resolve;
    BlockLaid(s, i, t);
    SymbolStays(s, i + 1 + |Line(t)|);
    SymbolStays(s, k);
    StartsClean(s, i + 1, t);
    c := ParsesLine(s, i + 1, t);
    BlockStep(s, i, Parsed(c, i + 1 + |Line(t)|));
  }

  /** Whatever is printed at i, up to a closing parenthesis or the end, is what the parser reads there. */
  lemma {:induction false} ParsesLine(s: string, i: nat, t: Tree) returns (c: Cmd)
    requires Legal(t) && Has(s, i, Line(t)) && Closed(s, i + |Line(t)|)
    ensures LineAt(s, i) == Parsed(c, i + |Line(t)|) && Resolve(s, c) == t
    decreases t, 3
  {
    hide LineAt, Has, Words;
    var end := i + |Line(t)|;
    match t
    case TExec(args) =>
      WordsLaid(s, i, args, 0, end);
      c := ParsesWords(s, i, args, end);
    case TRedir(u, file, direction) =>
      c := ParsesRedir(s, i, u, file, direction, end);
    case TPipe(l, r) =>
      c := ParsesPipe(s, i, l, r, end);
    case TList(l, r) =>
      c := ParsesList(s, i, l, r, end);
    case TBack(u) =>
      c := ParsesBack(s, i, u, end);
  }

  lemma {:induction false} ParsesRedir(s: string, i: nat, u: Tree, file: string, direction: Direction, end: nat)
      returns (c: Cmd)
    requires Legal(u) && IsWord(file) && Closed(s, end)
    requires Has(s, i, Block(u) + [Operator(direction)] + file) && end == i + |Block(u) + [Operator(direction)] + file|
    ensures LineAt(s, i) == Parsed(c, end) && Resolve(s, c) == TRedir(u, file, direction)
    decreases TRedir(u, file, direction), 0
  {
    hide ExecAt, LineAt, RedirsAt, Has, WordAt, Skip, Block, Line;
    var k := i + |Block(u)|;
    BlockAndFile(s, i, u, Operator(direction), file, end);
    var d := ParsesBlock(s, i, u, k);
    c := Redir(d, Span(k + 1, end), direction);
    RedirEnds(s, i, d, k, file, direction);
  }

  lemma RedirEnds(s: string, i: nat, c: Cmd, k: nat, w: string, direction: Direction)
    requires i <= |s| && k < |s| && ExecAt(s, i) == RedirsAt(s, c, k)
    requires s[k] == Operator(direction) && WordAt(s, k + 1, w) && Closed(s, k + 1 + |w|)
    ensures LineAt(s, i) == Parsed(Redir(c, Span(k + 1, k + 1 + |w|), direction), k + 1 + |w|)
  {
    hide ExecAt, LineAt, RedirsAt, PipeAt;
    RedirStep(s, c, k, w, direction);
    LineEnds(s, i, Parsed(Redir(c, Span(k + 1, k + 1 + |w|), direction), k + 1 + |w|));
  }

  lemma {:induction false} ParsesPipe(s: string, i: nat, l: Tree, r: Tree, end: nat) returns (c: Cmd)
    requires Legal(l) && Legal(r) && Has(s, i, Block(l) + "|" + Block(r)) && end == i + |Block(l) + "|" + Block(r)|
             && Closed(s, end)
    ensures LineAt(s, i) == Parsed(c, end) && Resolve(s, c) == TPipe(l, r)
    decreases TPipe(l, r), 0
  {
    hide ExecAt, LineAt, RedirsAt, Legal, Has, Block, Line;
    var k := i + |Block(l)|;
    TwoBlocks(s, i, l, '|', r, end);
    var a := ParsesBlock(s, i, l, k);
    var b := ParsesBlock(s, k + 1, r, end);
    PipeOfBlocks(s, i, a, k, b, end);
    c := Pipe(a, b);
  }

  lemma PipeOfBlocks(s: string, i: nat, a: Cmd, k: nat, b: Cmd, end: nat)
    requires i <= |s| && k < |s| && s[k] == '|' && Skip(s, k + 1) == k + 1 && Closed(s, end)
    requires ExecAt(s, i) == RedirsAt(s, a, k) && ExecAt(s, k + 1) == RedirsAt(s, b, end)
    ensures LineAt(s, i) == Parsed(Pipe(a, b), end)
  {
    hide ExecAt, LineAt, RedirsAt, PipeAt;
    NoRedirs(s, a, k);
    NoRedirs(s, b, end);
    PipeEnds(s, k + 1, Parsed(b, end));
    PipeStep(s, i, a, k, b, end);
  }

  lemma {:induction false} ParsesList(s: string, i: nat, l: Tree, r: Tree, end: nat) returns (c: Cmd)
    requires Legal(l) && Legal(r) && Has(s, i, Block(l) + ";" + Block(r)) && end == i + |Block(l) + ";" + Block(r)|
             && Closed(s, end)
    ensures LineAt(s, i) == Parsed(c, end) && Resolve(s, c) == TList(l, r)
    decreases TList(l, r), 0
  {
    hide ExecAt, LineAt, RedirsAt, Legal, Has, Block, Line;
    var k := i + |Block(l)|;
    TwoBlocks(s, i, l, ';', r, end);
    var a := ParsesBlock(s, i, l, k);
    var b := ParsesBlock(s, k + 1, r, end);
    ListOfBlocks(s, i, a, k, b, end);
    c := List(a, b);
  }

  lemma ListOfBlocks(s: string, i: nat, a: Cmd, k: nat, b: Cmd, end: nat)
    requires i <= |s| && k < |s| && s[k] == ';' && Skip(s, k + 1) == k + 1 && Closed(s, end)
    requires ExecAt(s, i) == RedirsAt(s, a, k) && ExecAt(s, k + 1) == RedirsAt(s, b, end)
    ensures LineAt(s, i) == Parsed(List(a, b), end)
  {
    hide ExecAt, LineAt, RedirsAt, PipeAt;
    NoRedirs(s, a, k);
    PipeEnds(s, i, Parsed(a, k));
    NoRedirs(s, b, end);
    LineEnds(s, k + 1, Parsed(b, end));
    ListStep(s, i, a, k, b, end);
  }

  lemma {:induction false} ParsesBack(s: string, i: nat, u: Tree, end: nat) returns (c: Cmd)
    requires Legal(u) && Has(s, i, Block(u) + "&") && end == i + |Block(u) + "&"| && Closed(s, end)
    ensures LineAt(s, i) == Parsed(c, end) && Resolve(s, c) == TBack(u)
    decreases TBack(u), 0
  {
    hide ExecAt, LineAt, RedirsAt;
    var k := i + |Block(u)|;
    HasTwo(s, i, Block(u), "&");
    HasChar(s, k, '&');
    var a := ParsesBlock(s, i, u, k);
    BackOfBlock(s, i, a, k);
    c := Back(a);
  }

  lemma BackOfBlock(s: string, i: nat, a: Cmd, k: nat)
    requires i <= |s| && k < |s| && s[k] == '&' && Closed(s, k + 1) && ExecAt(s, i) == RedirsAt(s, a, k)
    ensures LineAt(s, i) == Parsed(Back(a), k + 1)
  {
    hide ExecAt, LineAt, RedirsAt, PipeAt;
    NoRedirs(s, a, k);
    PipeEnds(s, i, Parsed(a, k));
    BackStep(s, i, a, k);
  }

  lemma BlockAndFile(s: string, i: nat, u: Tree, op: char, file: string, end: nat)
    requires Has(s, i, Block(u) + [op] + file) && end == i + |Block(u) + [op] + file| && IsWord(file) && Closed(s, end)
    ensures var k := i + |Block(u)|;
            Has(s, i, Block(u)) && k < |s| && s[k] == op && WordAt(s, k + 1, file) && end == k + 1 + |file|
  {
    HasThree(s, i, Block(u), [op], file);
    HasChar(s, i + |Block(u)|, op);
    OneWord(s, i + |Block(u)| + 1, file);
  }

  /** Where the second block of two starts. */
  lemma TwoBlocks(s: string, i: nat, l: Tree, op: char, r: Tree, end: nat)
    requires Has(s, i, Block(l) + [op] + Block(r)) && end == i + |Block(l) + [op] + Block(r)|
    ensures var k := i + |Block(l)|;
            && Has(s, i, Block(l)) && k < |s| && s[k] == op && Has(s, k + 1, Block(r)) && end == k + 1 + |Block(r)|
            && Skip(s, k + 1) == k + 1
  {
    var k := i + |Block(l)|;
    HasThree(s, i, Block(l), [op], Block(r));
    HasChar(s, k, op);
    BlockLaid(s, k + 1, r);
  }

  /** Printing and parsing again gives back every legal command. */
  lemma RoundTrip(t: Tree)
    requires Legal(t)
    ensures CmdOf(Line(t)).Parsed? && Resolve(Line(t), CmdOf(Line(t)).cmd) == t
  {
    hide LineAt, Legal, Resolve, Line;
    var s := Line(t);
    assert s[0..0 + |s|] == s;
    var c := ParsesLine(s, 0, t);
  }

  // ---- What can be parsed ----------------------------------------------------------------------------

  /** Arguments of the command under the redirections. */
  function ArgCount(c: Cmd): nat {
    match c
    case Exec(args) => |args|
    case Redir(d, _, _) => ArgCount(d)
    case _ => 0
  }

  predicate FewArgs(c: Cmd) {
    match c
    case Exec(args) => |args| < MAXARGS
    case Redir(d, _, _) => FewArgs(d)
    case Pipe(l, r) => FewArgs(l) && FewArgs(r)
    case List(l, r) => FewArgs(l) && FewArgs(r)
    case Back(d) => FewArgs(d)
  }

  /** A command with redirections only: what the loop over arguments works on. */
  predicate Simple(c: Cmd) {
    c.Exec? || (c.Redir? && Simple(c.cmd))
  }

  lemma {:induction false} AddArgCount(c: Cmd, w: Span)
    requires Simple(c)
    ensures Simple(AddArg(c, w)) && ArgCount(AddArg(c, w)) == ArgCount(c) + 1
    ensures ArgCount(c) + 1 < MAXARGS ==> FewArgs(AddArg(c, w))
  {
    if c.Redir? {
      AddArgCount(c.cmd, w);
    }
  }

  lemma {:induction false} RedirsCount(s: string, c: Cmd, i: nat)
    requires i <= |s| && RedirsAt(s, c, i).Parsed?
    ensures var d := RedirsAt(s, c, i).cmd;
            ArgCount(d) == ArgCount(c) && (Simple(c) ==> Simple(d)) && (FewArgs(c) ==> FewArgs(d))
    decreases |s| - i
  {
    var j := Skip(s, i);
    if Char(s, j) == '<' || Char(s, j) == '>' {
      var t := TokenAt(s, j);
      var f := TokenAt(s, t.next);
      RedirsCount(s, Redir(c, Span(f.q, f.eq), if t.kind == '<' then Input else Output), f.next);
    }
  }

  lemma {:induction false} ArgsFew(s: string, c: Cmd, i: nat)
    requires i <= |s| && Simple(c) && FewArgs(c) && ArgsAt(s, c, ArgCount(c), i).Parsed?
    ensures FewArgs(ArgsAt(s, c, ArgCount(c), i).cmd)
    decreases |s| - i
  {
    hide RedirsAt, AddArg, TokenAt;
    var j := Skip(s, i);
    var t := TokenAt(s, j);
    if !(Char(s, j) == '|' || Char(s, j) == ')' || Char(s, j) == '&' || Char(s, j) == ';') && t.kind != '\0' {
      var d := AddArg(c, Span(t.q, t.eq));
      AddArgCount(c, Span(t.q, t.eq));
      var r := RedirsAt(s, d, t.next);
      RedirsCount(s, d, t.next);
      ArgsFew(s, r.cmd, r.at);
    }
  }

  lemma {:induction false} ExecFew(s: string, i: nat)
    requires i <= |s| && ExecAt(s, i).Parsed?
    ensures FewArgs(ExecAt(s, i).cmd)
    decreases |s| - i, 1
  {
    var j := Skip(s, i);
    if Char(s, j) == '(' {
      BlockFew(s, j);
    } else {
      RedirsCount(s, Exec([]), j);
      var r := RedirsAt(s, Exec([]), j);
      ArgsFew(s, r.cmd, r.at);
    }
  }

  lemma {:induction false} BlockFew(s: string, i: nat)
    requires i <= |s| && BlockAt(s, i).Parsed?
    ensures FewArgs(BlockAt(s, i).cmd)
    decreases |s| - i, 0
  {
    var j := Skip(s, i);
    LineFew(s, TokenAt(s, j).next);
    var r := LineAt(s, TokenAt(s, j).next);
    RedirsCount(s, r.cmd, TokenAt(s, Skip(s, r.at)).next);
  }

  lemma {:induction false} PipeFew(s: string, i: nat)
    requires i <= |s| && PipeAt(s, i).Parsed?
    ensures FewArgs(PipeAt(s, i).cmd)
    decreases |s| - i, 2
  {
    ExecFew(s, i);
    var l := ExecAt(s, i);
    if Char(s, Skip(s, l.at)) == '|' {
      PipeFew(s, TokenAt(s, Skip(s, l.at)).next);
    }
  }

  lemma {:induction false} BacksFew(s: string, c: Cmd, i: nat)
    requires i <= |s| && FewArgs(c)
    ensures FewArgs(BacksAt(s, c, i).cmd)
    decreases |s| - i
  {
    if Char(s, Skip(s, i)) == '&' {
      BacksFew(s, Back(c), TokenAt(s, Skip(s, i)).next);
    }
  }

  lemma {:induction false} LineFew(s: string, i: nat)
    requires i <= |s| && LineAt(s, i).Parsed?
    ensures FewArgs(LineAt(s, i).cmd)
    decreases |s| - i, 3
  {
    PipeFew(s, i);
    var p := PipeAt(s, i);
    BacksFew(s, p.cmd, p.at);
    var l := BacksAt(s, p.cmd, p.at);
    if Char(s, Skip(s, l.at)) == ';' {
      LineFew(s, TokenAt(s, Skip(s, l.at)).next);
    }
  }

  lemma SpanIsWord(s: string, w: Span)
    requires IsSpan(s, w) && NoNul(s)
    ensures IsWord(Text(s, w))
  {
    assert forall k :: 0 <= k < |Text(s, w)| ==> Text(s, w)[k] == s[w.q + k];
  }

  lemma {:induction false} ResolvedIsLegal(s: string, c: Cmd)
    requires Spanned(s, c) && FewArgs(c) && NoNul(s)
    ensures Legal(Resolve(s, c))
  {
    match c
    case Exec(args) =>
      forall i | 0 <= i < |args| ensures IsWord(Text(s, args[i])) {
        SpanIsWord(s, args[i]);
      }
    case Redir(d, file, _) =>
      SpanIsWord(s, file);
      ResolvedIsLegal(s, d);
    case Pipe(l, r) =>
      ResolvedIsLegal(s, l);
      ResolvedIsLegal(s, r);
    case List(l, r) =>
      ResolvedIsLegal(s, l);
      ResolvedIsLegal(s, r);
    case Back(d) =>
      ResolvedIsLegal(s, d);
  }

  /** Whatever can be parsed is a legal command, and parsing its canonical text gives it back: printing
      normalises every line that the shell accepts. */
  lemma Normalises(s: string)
    requires CmdOf(s).Parsed? && NoNul(s)
    ensures var t := Resolve(s, CmdOf(s).cmd);
            Legal(t) && CmdOf(Line(t)).Parsed? && Resolve(Line(t), CmdOf(Line(t)).cmd) == t
  {
    LineSpanned(s, 0);
    LineFew(s, 0);
    ResolvedIsLegal(s, CmdOf(s).cmd);
    RoundTrip(Resolve(s, CmdOf(s).cmd));
  }
}
