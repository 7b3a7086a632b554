/** Command lines as users type them: blanks anywhere between words and operators, redirections among the arguments, `>`
    or `>>`, and parentheses only where they are wanted. What such a line means is said here without the parser. */
module ShellTyping {
  import opened Shell

  datatype Op = Lt | Gt | GtGt

  /** An argument, or a redirection, with the blanks before it and those before the file's name. */
  datatype Part = Arg(gap: string, word: string) | File(gap: string, op: Op, pad: string, file: string)

  /** A line: a command with its arguments and redirections, a line in parentheses with redirections, or lines joined by
      an operator. */
  datatype Syntax =
    | Bare(parts: seq<Part>, end: string)
    | Group(gap: string, body: Syntax, files: seq<Part>, end: string)
    | Piped(left: Syntax, right: Syntax)
    | Backed(line: Syntax, end: string)
    | Listed(left: Syntax, right: Syntax)

  // ---- The text --------------------------------------------------------------------------------------

  function ShowOp(op: Op): string {
    match op
    case Lt => "<"
    case Gt => ">"
    case GtGt => ">>"
  }

  function ShowPart(p: Part): string {
    match p
    case Arg(gap, word) => gap + word
    case File(gap, op, pad, file) => gap + ShowOp(op) + pad + file
  }

  function ShowParts(ps: seq<Part>): string {
    if ps == [] then "" else ShowPart(ps[0]) + ShowParts(ps[1..])
  }

  function Show(c: Syntax): string {
    match c
    case Bare(parts, end) => ShowParts(parts) + end
    case Group(gap, body, files, end) => gap + "(" + Show(body) + ")" + ShowParts(files) + end
    case Piped(left, right) => Show(left) + "|" + Show(right)
    case Backed(line, end) => Show(line) + "&" + end
    case Listed(left, right) => Show(left) + ";" + Show(right)
  }

  predicate Blank(w: string) {
    forall k :: 0 <= k < |w| ==> w[k] in {' ', '\t', '\r', '\n', 11 as char}
  }

  /** Nothing that ends a word, nor the NUL that ends the line. */
  predicate Word(w: string) {
    && w != "" && forall k :: 0 <= k < |w| ==>
         w[k] !in {' ', '\t', '\r', '\n', 11 as char, '<', '|', '>', '&', ';', '(', ')', '\0'}
  }

  predicate GoodPart(p: Part) {
    match p
    case Arg(gap, word) => Blank(gap) && Word(word)
    case File(gap, _, pad, file) => Blank(gap) && Blank(pad) && Word(file)
  }

  /** Blanks keep an argument apart from what is before it. */
  predicate GoodParts(ps: seq<Part>) {
    && (forall k :: 0 <= k < |ps| ==> GoodPart(ps[k]))
    && (forall k :: 0 < k < |ps| && ps[k].Arg? ==> ps[k].gap != "")
  }

  predicate IsExec(c: Syntax) {
    c.Bare? || c.Group?
  }

  predicate IsPipe(c: Syntax) {
    IsExec(c) || c.Piped?
  }

  predicate IsBack(c: Syntax) {
    IsPipe(c) || c.Backed?
  }

  /** `|` binds closest, then `&`, then `;`. A command has fewer than ten arguments, and a group has redirections
      only. */
  predicate Good(c: Syntax) {
    match c
    case Bare(parts, end) => GoodParts(parts) && Blank(end) && |Args(parts)| < 10
    case Group(gap, body, files, end) =>
      && Blank(gap) && Good(body) && GoodParts(files) && Blank(end)
      && forall k :: 0 <= k < |files| ==> files[k].File?
    case Piped(left, right) => Good(left) && Good(right) && IsExec(left) && IsPipe(right)
    case Backed(line, end) => Good(line) && IsBack(line) && Blank(end)
    case Listed(left, right) => Good(left) && Good(right) && IsBack(left)
  }

  // ---- The meaning -----------------------------------------------------------------------------------

  function Args(ps: seq<Part>): seq<string> {
    if ps == [] then []
    else
      var front, p := Args(ps[..|ps| - 1]), ps[|ps| - 1];
      if p.Arg? then front + [p.word] else front
  }

  /** The redirections of t, the first innermost. */
  function Wrap(t: Tree, ps: seq<Part>): Tree {
    if ps == [] then t
    else
      var front, p := Wrap(t, ps[..|ps| - 1]), ps[|ps| - 1];
      if p.File? then TRedir(front, p.file, if p.op == Lt then Input else Output) else front
  }

  function Means(c: Syntax): Tree {
    match c
    case Bare(parts, _) => Wrap(TExec(Args(parts)), parts)
    case Group(_, body, files, _) => Wrap(Means(body), files)
    case Piped(left, right) => TPipe(Means(left), Means(right))
    case Backed(line, _) => TBack(Means(line))
    case Listed(left, right) => TList(Means(left), Means(right))
  }

  // ---- Blanks ----------------------------------------------------------------------------------------

  lemma {:induction false} SkipsBlank(s: string, i: nat, w: string)
    requires Has(s, i, w) && Blank(w)
    ensures Skip(s, i) == Skip(s, i + |w|)
    decreases |w|
  {
    if w != "" {
      assert s[i] == s[i..i + |w|][0] == w[0];
      assert s[i + 1..i + 1 + |w[1..]|] == s[i..i + |w|][1..];
      SkipsBlank(s, i + 1, w[1..]);
    }
  }

  /** The parser starts with what comes after the blanks. */
  lemma SameStart(s: string, c: Cmd, argc: nat, i: nat, k: nat)
    requires i <= |s| && k <= |s| && Skip(s, i) == Skip(s, k)
    ensures RedirsAt(s, c, i) == RedirsAt(s, c, k) && ArgsAt(s, c, argc, i) == ArgsAt(s, c, argc, k)
    ensures BacksAt(s, c, i) == BacksAt(s, c, k)
  {
  }

  lemma SameLine(s: string, i: nat, k: nat)
    requires i <= |s| && k <= |s| && Skip(s, i) == Skip(s, k)
    ensures PipeAt(s, i) == PipeAt(s, k) && LineAt(s, i) == LineAt(s, k)
  {
    assert ExecAt(s, i) == ExecAt(s, k);
    hide ExecAt;
    assert PipeAt(s, i) == PipeAt(s, k);
  }

  // ---- Arguments and redirections --------------------------------------------------------------------

  lemma SameWords(w: string)
    ensures Word(w) <==> IsWord(w)
  {
  }

  /** No word goes on at k. */
  predicate Ends(s: string, k: nat) {
    k <= |s| && (k < |s| ==> !IsWordChar(s[k]))
  }

  /** Blanks, then a word: the next token is that word. */
  lemma WordToken(s: string, i: nat, gap: string, w: string)
    requires Has(s, i, gap + w) && Blank(gap) && Word(w) && Ends(s, i + |gap + w|)
    ensures var q, k := i + |gap|, i + |gap + w|;
            && q < k <= |s| && Skip(s, i) == q && IsWordChar(s[q]) && s[q] != '\0'
            && TokenAt(s, i) == Token('a', q, k, Skip(s, k)) && TokenAt(s, q) == Token('a', q, k, Skip(s, k))
            && Text(s, Span(q, k)) == w
  {
    HasTwo(s, i, gap, w);
    SameWords(w);
    OneWord(s, i + |gap|, w);
    SkipsBlank(s, i, gap);
  }

  /** Blanks, then an operator of redirection. */
  lemma OpToken(s: string, i: nat, gap: string, op: Op)
    requires Has(s, i, gap + ShowOp(op)) && Blank(gap)
    requires op == Gt ==> Char(s, i + |gap + ShowOp(op)|) != '>'
    ensures var q, k := i + |gap|, i + |gap + ShowOp(op)|;
            && q < k <= |s| && Skip(s, i) == q && (s[q] == '<' || s[q] == '>') && TokenAt(s, q).next == Skip(s, k)
            && (TokenAt(s, q).kind == '<' <==> op == Lt)
  {
    var q := i + |gap|;
    HasTwo(s, i, gap, ShowOp(op));
    SkipsBlank(s, i, gap);
    assert s[q] == s[q..q + |ShowOp(op)|][0] == ShowOp(op)[0];
    if op == GtGt {
      assert s[q + 1] == s[q..q + 2][1] == ShowOp(op)[1];
    }
  }

  lemma FileShows(p: Part)
    requires p.File?
    ensures ShowPart(p) == (p.gap + ShowOp(p.op)) + (p.pad + p.file)
  {
    var a := p.gap + ShowOp(p.op);
    assert a + p.pad + p.file == a + (p.pad + p.file);
  }

  /** A redirection that has been read. */
  lemma FileStep(s: string, i: nat, p: Part, c: Cmd) returns (w: Span)
    requires p.File? && GoodPart(p) && Has(s, i, ShowPart(p)) && Ends(s, i + |ShowPart(p)|)
    ensures RedirsAt(s, c, i) == RedirsAt(s, Redir(c, w, if p.op == Lt then Input else Output), i + |ShowPart(p)|)
    ensures Text(s, w) == p.file
  {
    hide RedirsAt, TokenAt, Skip, IsWordChar, Has, Text, ShowPart, ShowOp, Blank, Word, Ends;
    var a, b := p.gap + ShowOp(p.op), p.pad + p.file;
    FileShows(p);
    HasTwo(s, i, a, b);
    var k, e := i + |a|, i + |ShowPart(p)|;
    FileStarts(s, k, p.pad, p.file);
    OpToken(s, i, p.gap, p.op);
    WordToken(s, k, p.pad, p.file);
    w := Span(k + |p.pad|, e);
    RedirsOne(s, c, i, k, e, w, if p.op == Lt then Input else Output);
  }

  lemma FileStarts(s: string, k: nat, pad: string, w: string)
    requires Has(s, k, pad + w) && Blank(pad) && Word(w)
    ensures k < |s| && s[k] != '>'
  {
    assert s[k] == s[k..k + |pad + w|][0] == (pad + w)[0];
  }

  lemma RedirsOne(s: string, c: Cmd, i: nat, k: nat, e: nat, w: Span, direction: Direction)
    requires i <= k <= e <= |s| && var q := Skip(s, i);
             && q < |s| && (s[q] == '<' || s[q] == '>') && TokenAt(s, q).next == Skip(s, k)
             && (TokenAt(s, q).kind == '<' <==> direction == Input)
    requires TokenAt(s, k) == Token('a', w.q, w.eq, Skip(s, e))
    ensures RedirsAt(s, c, i) == RedirsAt(s, Redir(c, w, direction), e)
  {
    var q := Skip(s, i);
    assert TokenAt(s, Skip(s, k)) == TokenAt(s, k);
    SameStart(s, Redir(c, w, direction), 0, Skip(s, e), e);
  }

  /** What is left of a command with argc arguments: redirections, and then arguments with redirections. */
  function Rest(s: string, c: Cmd, argc: nat, i: nat): Parsed
    requires i <= |s|
  {
    var r := RedirsAt(s, c, i);
    if r.Panic? then r else ArgsAt(s, r.cmd, argc, r.at)
  }

  lemma ArgStepped(s: string, i: nat, p: Part, c: Cmd, argc: nat) returns (w: Span)
    requires p.Arg? && GoodPart(p) && Has(s, i, ShowPart(p)) && Ends(s, i + |ShowPart(p)|) && argc + 1 < MAXARGS
    ensures Rest(s, c, argc, i) == Rest(s, AddArg(c, w), argc + 1, i + |ShowPart(p)|)
    ensures Text(s, w) == p.word
  {
    hide TokenAt, Text, Rest, Skip, Has, Ends, Blank, Word;
    var q, e := i + |p.gap|, i + |ShowPart(p)|;
    WordToken(s, i, p.gap, p.word);
    w := Span(q, e);
    ArgOne(s, c, argc, i, w);
  }

  lemma ArgOne(s: string, c: Cmd, argc: nat, i: nat, w: Span)
    requires i <= w.q < w.eq <= |s| && Skip(s, i) == w.q && IsWordChar(s[w.q]) && s[w.q] != '\0' && argc + 1 < MAXARGS
    requires TokenAt(s, w.q) == Token('a', w.q, w.eq, Skip(s, w.eq))
    ensures Rest(s, c, argc, i) == Rest(s, AddArg(c, w), argc + 1, w.eq)
  {
    hide TokenAt, AddArg;
    assert RedirsAt(s, c, i) == Parsed(c, w.q);
    SameStart(s, AddArg(c, w), 0, Skip(s, w.eq), w.eq);
  }

  /** The characters that can follow a command. */
  predicate Follows(s: string, e: nat) {
    e <= |s| && (e < |s| ==> s[e] == '|' || s[e] == ')' || s[e] == '&' || s[e] == ';')
  }

  /** The rest of a command starts with no character of a word. */
  lemma RestEnds(s: string, i: nat, rest: seq<Part>, end: string)
    requires GoodParts(rest) && (rest != [] && rest[0].Arg? ==> rest[0].gap != "") && Blank(end)
    requires Has(s, i, ShowParts(rest) + end) && Follows(s, i + |ShowParts(rest) + end|)
    ensures Ends(s, i)
  {
    var all := ShowParts(rest) + end;
    if rest != [] {
      var p := rest[0];
      assert GoodPart(p) && |ShowPart(p)| > 0 && all[0] == ShowPart(p)[0];
      assert p.gap == "" ==> all[0] == ShowOp(p.op)[0];
      assert p.gap != "" ==> all[0] == p.gap[0];
    }
    if all != "" {
      assert s[i] == s[i..i + |all|][0] == all[0];
    }
  }

  lemma RestDone(s: string, i: nat, end: string, c: Cmd, argc: nat)
    requires Blank(end) && Has(s, i, end) && Follows(s, i + |end|)
    ensures Rest(s, c, argc, i) == Parsed(c, i + |end|) && RedirsAt(s, c, i) == Parsed(c, i + |end|)
  {
    SkipsBlank(s, i, end);
    assert Skip(s, i) == i + |end|;
  }

  lemma {:induction false} AddArgMeans(s: string, c: Cmd, ws: seq<string>, ps: seq<Part>, w: Span)
    requires Resolve(s, c) == Wrap(TExec(ws), ps)
    ensures Resolve(s, AddArg(c, w)) == Wrap(TExec(ws + [Text(s, w)]), ps)
    decreases |ps|
  {
    if ps == [] {
      assert (c.args + [w])[..|c.args|] == c.args;
    } else {
      var front := ps[..|ps| - 1];
      if ps[|ps| - 1].File? {
        AddArgMeans(s, c.cmd, ws, front, w);
      } else {
        AddArgMeans(s, c, ws, front, w);
      }
    }
  }

  /** The parts of a command that have been read, and one more. */
  lemma OneMore(done: seq<Part>, rest: seq<Part>)
    requires rest != []
    ensures done + rest == (done + [rest[0]]) + rest[1..] && (done + [rest[0]])[..|done|] == done
  {
  }

  ghost predicate SoFar(s: string, c: Cmd, done: seq<Part>) {
    Resolve(s, c) == Wrap(TExec(Args(done)), done)
  }

  lemma PartRead(s: string, i: nat, done: seq<Part>, p: Part, c: Cmd) returns (d: Cmd)
    requires SoFar(s, c, done) && GoodPart(p) && Has(s, i, ShowPart(p)) && Ends(s, i + |ShowPart(p)|)
    requires |Args(done + [p])| < 10
    ensures SoFar(s, d, done + [p])
    ensures Rest(s, c, |Args(done)|, i) == Rest(s, d, |Args(done + [p])|, i + |ShowPart(p)|)
  {
    hide RedirsAt, ArgsAt, ShowPart, Has, Text, Ends;
    assert (done + [p])[..|done|] == done;
    if p.File? {
      var w := FileStep(s, i, p, c);
      d := Redir(c, w, if p.op == Lt then Input else Output);
    } else {
      var w := ArgStepped(s, i, p, c, |Args(done)|);
      AddArgMeans(s, c, Args(done), done, w);
      d := AddArg(c, w);
    }
  }

  lemma FirstPart(ps: seq<Part>, end: string)
    requires ps != []
    ensures ShowParts(ps) + end == ShowPart(ps[0]) + (ShowParts(ps[1..]) + end)
  {
  }

  lemma {:induction false} PartsRead(s: string, i: nat, done: seq<Part>, rest: seq<Part>, end: string, c: Cmd)
      returns (d: Cmd)
    requires SoFar(s, c, done) && GoodParts(rest) && Blank(end) && |Args(done + rest)| < 10
    requires Has(s, i, ShowParts(rest) + end) && Follows(s, i + |ShowParts(rest) + end|)
    ensures Rest(s, c, |Args(done)|, i) == Parsed(d, i + |ShowParts(rest) + end|) && SoFar(s, d, done + rest)
    decreases |rest|
  {
    hide Rest, SoFar, Has, ShowPart, Blank;
    if rest == [] {
      assert "" + end == end && done + rest == done;
      RestDone(s, i, end, c, |Args(done)|);
      d := c;
    } else {
      var p, more := rest[0], ShowParts(rest[1..]) + end;
      var k := i + |ShowPart(p)|;
      FirstPart(rest, end);
      HasTwo(s, i, ShowPart(p), more);
      RestEnds(s, k, rest[1..], end);
      OneMore(done, rest);
      FewerArgs(done + [p], rest[1..]);
      var c' := PartRead(s, i, done, p, c);
      d := PartsRead(s, k, done + [p], rest[1..], end, c');
    }
  }

  lemma {:induction false} FewerArgs(ps: seq<Part>, more: seq<Part>)
    ensures |Args(ps)| <= |Args(ps + more)|
    decreases |more|
  {
    if more == [] {
      assert ps + more == ps;
    } else {
      var front := more[..|more| - 1];
      assert (ps + more)[..|ps + more| - 1] == ps + front;
      FewerArgs(ps, front);
    }
  }

  lemma {:induction false} FilesRead(s: string, i: nat, done: seq<Part>, rest: seq<Part>, end: string, t: Tree, c: Cmd)
      returns (d: Cmd)
    requires Resolve(s, c) == Wrap(t, done) && GoodParts(rest) && Blank(end)
    requires forall k :: 0 <= k < |rest| ==> rest[k].File?
    requires Has(s, i, ShowParts(rest) + end) && Follows(s, i + |ShowParts(rest) + end|)
    ensures RedirsAt(s, c, i) == Parsed(d, i + |ShowParts(rest) + end|) && Resolve(s, d) == Wrap(t, done + rest)
    decreases |rest|
  {
    hide RedirsAt, Has, ShowPart, Blank, Text;
    if rest == [] {
      assert "" + end == end && done + rest == done;
      RestDone(s, i, end, c, 0);
      d := c;
    } else {
      var p, more := rest[0], ShowParts(rest[1..]) + end;
      var k := i + |ShowPart(p)|;
      FirstPart(rest, end);
      HasTwo(s, i, ShowPart(p), more);
      RestEnds(s, k, rest[1..], end);
      OneMore(done, rest);
      var w := FileStep(s, i, p, c);
      d := FilesRead(s, k, done + [p], rest[1..], end, t, Redir(c, w, if p.op == Lt then Input else Output));
    }
  }

  // ---- Lines -----------------------------------------------------------------------------------------

  lemma PipedIs(c: Syntax)
    requires Good(c) && c.Piped?
    ensures Good(c.left) && Good(c.right) && IsExec(c.left) && IsPipe(c.right)
    ensures Show(c) == Show(c.left) + "|" + Show(c.right) && Means(c) == TPipe(Means(c.left), Means(c.right))
  {
  }

  lemma BackedIs(c: Syntax)
    requires Good(c) && c.Backed?
    ensures Good(c.line) && IsBack(c.line) && Blank(c.end)
    ensures Show(c) == Show(c.line) + "&" + c.end && Means(c) == TBack(Means(c.line))
  {
  }

  lemma ListedIs(c: Syntax)
    requires Good(c) && c.Listed?
    ensures Good(c.left) && Good(c.right) && IsBack(c.left)
    ensures Show(c) == Show(c.left) + ";" + Show(c.right) && Means(c) == TList(Means(c.left), Means(c.right))
  {
  }

  lemma GroupIs(c: Syntax)
    requires Good(c) && c.Group?
    ensures Good(c.body) && GoodParts(c.files) && Blank(c.gap) && Blank(c.end)
    ensures forall k :: 0 <= k < |c.files| ==> c.files[k].File?
    ensures Means(c) == Wrap(Means(c.body), c.files)
    ensures Show(c) == c.gap + ("(" + Show(c.body) + ")" + (ShowParts(c.files) + c.end))
  {
    var u, v, w := c.gap, "(" + Show(c.body) + ")", ShowParts(c.files);
    assert u + "(" + Show(c.body) + ")" == u + v;
    assert u + v + w + c.end == u + (v + (w + c.end));
  }

  lemma SymbolToken(s: string, k: nat, c: char)
    requires k < |s| && s[k] == c && (c == '|' || c == '(' || c == ')' || c == '&' || c == ';')
    ensures Skip(s, k) == k && TokenAt(s, k).next == Skip(s, k + 1) && Skip(s, Skip(s, k + 1)) == Skip(s, k + 1)
  {
  }

  /** A text, an operator and another text. */
  lemma HasOp(s: string, i: nat, v: string, op: char, w: string)
    requires Has(s, i, v + [op] + w)
    ensures var k := i + |v|;
            && Has(s, i, v) && k < |s| && s[k] == op && Has(s, k + 1, w) && k + 1 + |w| == i + |v + [op] + w|
  {
    HasThree(s, i, v, [op], w);
    HasChar(s, i + |v|, op);
  }

  lemma BareReads(s: string, i: nat, parts: seq<Part>, end: string) returns (d: Cmd)
    requires Good(Bare(parts, end)) && Has(s, i, Show(Bare(parts, end))) && Follows(s, i + |Show(Bare(parts, end))|)
    ensures ExecAt(s, i) == Parsed(d, i + |Show(Bare(parts, end))|) && Resolve(s, d) == Means(Bare(parts, end))
  {
    hide ExecAt, Rest, Has, GoodParts;
    assert [] + parts == parts;
    BareStarts(s, i, parts, end);
    assert SoFar(s, Exec([]), []);
    d := PartsRead(s, i, [], parts, end, Exec([]));
  }

  /** A part without the blanks before it. */
  function Inside(p: Part): string {
    match p
    case Arg(_, word) => word
    case File(_, op, pad, file) => ShowOp(op) + pad + file
  }

  lemma PartStarts(ps: seq<Part>, end: string)
    requires ps != [] && GoodPart(ps[0])
    ensures ShowParts(ps) + end == ps[0].gap + (Inside(ps[0]) + ShowParts(ps[1..]) + end)
    ensures Blank(ps[0].gap) && Inside(ps[0]) != "" && !IsSpace(Inside(ps[0])[0]) && Inside(ps[0])[0] != '('
  {
  }

  lemma BareStarts(s: string, i: nat, parts: seq<Part>, end: string)
    requires GoodParts(parts) && Blank(end) && Has(s, i, ShowParts(parts) + end)
             && Follows(s, i + |ShowParts(parts) + end|)
    ensures i <= |s| && ExecAt(s, i) == Rest(s, Exec([]), 0, i)
  {
    hide ExecAt, Rest, GoodPart, ShowPart, Inside;
    if parts == [] {
      assert ShowParts(parts) + end == end;
      SkipsBlank(s, i, end);
      assert Skip(s, i) == i + |end|;
    } else {
      var rest := Inside(parts[0]) + ShowParts(parts[1..]) + end;
      PartStarts(parts, end);
      HasTwo(s, i, parts[0].gap, rest);
      FirstNot(s, i, parts[0].gap, rest);
    }
    NotBlock(s, i);
  }

  lemma FirstNot(s: string, i: nat, gap: string, w: string)
    requires Has(s, i, gap) && Has(s, i + |gap|, w) && Blank(gap) && w != "" && !IsSpace(w[0]) && w[0] != '('
    ensures Char(s, Skip(s, i)) != '('
  {
    SkipsBlank(s, i, gap);
    var k := i + |gap|;
    assert s[k] == s[k..k + |w|][0];
  }

  lemma NotBlock(s: string, i: nat)
    requires i <= |s| && Char(s, Skip(s, i)) != '('
    ensures ExecAt(s, i) == Rest(s, Exec([]), 0, i)
  {
    SameStart(s, Exec([]), 0, i, Skip(s, i));
  }

  lemma GroupReads(s: string, i: nat, c: Syntax) returns (d: Cmd)
    requires Good(c) && c.Group? && Has(s, i, Show(c)) && Follows(s, i + |Show(c)|)
    ensures ExecAt(s, i) == Parsed(d, i + |Show(c)|) && Resolve(s, d) == Means(c)
    decreases c, 0
  {
    hide ExecAt, LineAt, RedirsAt, Has, Skip, TokenAt, Show, ShowParts, Good, Means, Resolve, Wrap, GoodParts, Blank;
    GroupIs(c);
    var rest := ShowParts(c.files) + c.end;
    HasTwo(s, i, c.gap, "(" + Show(c.body) + ")" + rest);
    var p := i + |c.gap|;
    HasTwo(s, p, "(" + Show(c.body) + ")", rest);
    HasThree(s, p, "(", Show(c.body), ")");
    HasChar(s, p, '(');
    var q := p + 1 + |Show(c.body)|;
    HasChar(s, q, ')');
    var b := LineReads(s, p + 1, c.body);
    SkipsBlank(s, i, c.gap);
    GroupSteps(s, i, p, q, b);
    NoFiles(Means(c.body), c.files);
    d := FilesRead(s, q + 1, [], c.files, c.end, Means(c.body), b);
  }

  lemma NoFiles(t: Tree, ps: seq<Part>)
    ensures Wrap(t, []) == t && [] + ps == ps
  {
  }

  lemma GroupSteps(s: string, i: nat, p: nat, q: nat, b: Cmd)
    requires i <= p < q < |s| && s[p] == '(' && s[q] == ')' && Skip(s, i) == Skip(s, p)
    requires LineAt(s, p + 1) == Parsed(b, q)
    ensures ExecAt(s, i) == RedirsAt(s, b, q + 1)
  {
    hide ArgsAt, LineAt;
    SymbolToken(s, p, '(');
    SymbolToken(s, q, ')');
    SameLine(s, Skip(s, p + 1), p + 1);
    SameStart(s, b, 0, Skip(s, q + 1), q + 1);
    hide LineAt, RedirsAt, TokenAt;
    assert BlockAt(s, p) == RedirsAt(s, b, Skip(s, q + 1));
  }

  lemma {:induction false} ExecReads(s: string, i: nat, c: Syntax) returns (d: Cmd)
    requires Good(c) && IsExec(c) && Has(s, i, Show(c)) && Follows(s, i + |Show(c)|)
    ensures ExecAt(s, i) == Parsed(d, i + |Show(c)|) && Resolve(s, d) == Means(c)
    decreases c, 1
  {
    hide Good, Show, Means, ExecAt, Has;
    match c
    case Bare(parts, end) => d := BareReads(s, i, parts, end);
    case Group(_, _, _, _) => d := GroupReads(s, i, c);
  }

  lemma {:induction false} PipeReads(s: string, i: nat, c: Syntax) returns (d: Cmd)
    requires Good(c) && IsPipe(c) && Has(s, i, Show(c)) && Follows(s, i + |Show(c)|) && Char(s, i + |Show(c)|) != '|'
    ensures PipeAt(s, i) == Parsed(d, i + |Show(c)|) && Resolve(s, d) == Means(c)
    decreases c, 2
  {
    hide ExecAt, PipeAt, Has, Skip, TokenAt, Good, Show, Means;
    var e := i + |Show(c)|;
    if c.Piped? {
      PipedIs(c);
      HasOp(s, i, Show(c.left), '|', Show(c.right));
      var k := i + |Show(c.left)|;
      var a := ExecReads(s, i, c.left);
      var b := PipeReads(s, k + 1, c.right);
      PipeSteps(s, i, a, k, b, e);
      d := Pipe(a, b);
    } else {
      d := ExecReads(s, i, c);
      PipeDone(s, i, d, e);
    }
  }

  lemma PipeSteps(s: string, i: nat, a: Cmd, k: nat, b: Cmd, e: nat)
    requires i <= k < |s| && s[k] == '|' && ExecAt(s, i) == Parsed(a, k) && PipeAt(s, k + 1) == Parsed(b, e)
    ensures PipeAt(s, i) == Parsed(Pipe(a, b), e)
  {
    SymbolToken(s, k, '|');
    SameLine(s, Skip(s, k + 1), k + 1);
    hide ExecAt, TokenAt;
  }

  lemma PipeDone(s: string, i: nat, a: Cmd, e: nat)
    requires i <= |s| && ExecAt(s, i) == Parsed(a, e) && Follows(s, e) && Char(s, e) != '|'
    ensures PipeAt(s, i) == Parsed(a, e)
  {
    hide ExecAt, TokenAt;
    assert Skip(s, e) == e;
  }

  /** The pipeline at i and the `&`s after it. */
  function PipeAndBacks(s: string, i: nat): Parsed
    requires i <= |s|
  {
    var p := PipeAt(s, i);
    if p.Panic? then p else BacksAt(s, p.cmd, p.at)
  }

  lemma {:induction false} BackReads(s: string, i: nat, c: Syntax) returns (d: Cmd)
    requires Good(c) && IsBack(c) && Has(s, i, Show(c)) && Follows(s, i + |Show(c)|) && Char(s, i + |Show(c)|) != '|'
    ensures i <= |s| && PipeAndBacks(s, i) == BacksAt(s, d, i + |Show(c)|) && Resolve(s, d) == Means(c)
    decreases c, 3
  {
    hide PipeAndBacks, BacksAt, PipeAt, Has, Skip, TokenAt, Good, Show, Means;
    if c.Backed? {
      BackedIs(c);
      HasOp(s, i, Show(c.line), '&', c.end);
      var k := i + |Show(c.line)|;
      var a := BackReads(s, i, c.line);
      BacksOne(s, a, k, c.end);
      d := Back(a);
    } else {
      d := PipeReads(s, i, c);
      assert PipeAndBacks(s, i) == BacksAt(s, d, i + |Show(c)|) by {
        BacksNone(s, i, d, i + |Show(c)|);
      }
    }
  }

  lemma BacksNone(s: string, i: nat, d: Cmd, e: nat)
    requires i <= |s| && e <= |s| && PipeAt(s, i) == Parsed(d, e)
    ensures PipeAndBacks(s, i) == BacksAt(s, d, e)
  {
  }

  lemma BacksOne(s: string, a: Cmd, k: nat, end: string)
    requires k < |s| && s[k] == '&' && Has(s, k + 1, end) && Blank(end)
    ensures BacksAt(s, a, k) == BacksAt(s, Back(a), k + 1 + |end|)
  {
    SymbolToken(s, k, '&');
    SkipsBlank(s, k + 1, end);
    SameStart(s, Back(a), 0, Skip(s, k + 1), k + 1 + |end|);
  }

  lemma {:induction false} LineReads(s: string, i: nat, c: Syntax) returns (d: Cmd)
    requires Good(c) && Has(s, i, Show(c)) && Closed(s, i + |Show(c)|)
    ensures LineAt(s, i) == Parsed(d, i + |Show(c)|) && Resolve(s, d) == Means(c)
    decreases c, 4
  {
    hide LineAt, PipeAndBacks, BacksAt, Has, Skip, TokenAt, Good, Show, Means;
    var e := i + |Show(c)|;
    if c.Listed? {
      ListedIs(c);
      HasOp(s, i, Show(c.left), ';', Show(c.right));
      var k := i + |Show(c.left)|;
      var a := BackReads(s, i, c.left);
      var b := LineReads(s, k + 1, c.right);
      LineSteps(s, i, a, k, b, e);
      d := List(a, b);
    } else {
      d := BackReads(s, i, c);
      LineDone(s, i, d, e);
    }
  }

  lemma LineSteps(s: string, i: nat, a: Cmd, k: nat, b: Cmd, e: nat)
    requires i <= k < |s| && s[k] == ';' && PipeAndBacks(s, i) == BacksAt(s, a, k) && LineAt(s, k + 1) == Parsed(b, e)
    ensures LineAt(s, i) == Parsed(List(a, b), e)
  {
    SymbolToken(s, k, ';');
    SameLine(s, Skip(s, k + 1), k + 1);
    assert BacksAt(s, a, k) == Parsed(a, k);
    hide PipeAt, TokenAt;
  }

  lemma LineDone(s: string, i: nat, a: Cmd, e: nat)
    requires i <= |s| && Closed(s, e) && PipeAndBacks(s, i) == BacksAt(s, a, e)
    ensures LineAt(s, i) == Parsed(a, e)
  {
    assert Skip(s, e) == e && BacksAt(s, a, e) == Parsed(a, e);
    hide PipeAt, TokenAt;
  }

  /** Every line that is typed so is read as what it means. */
  lemma ReadsAsTyped(c: Syntax)
    requires Good(c)
    ensures CmdOf(Show(c)).Parsed? && Resolve(Show(c), CmdOf(Show(c)).cmd) == Means(c)
  {
    hide LineAt, Good, Resolve, Means, Show;
    var s := Show(c);
    assert s[0..0 + |s|] == s;
    var d := LineReads(s, 0, c);
  }

  // ---- Every command can be typed so -----------------------------------------------------------------

  predicate IsSimple(t: Tree) {
    t.TExec? || (t.TRedir? && IsSimple(t.t))
  }

  function Core(t: Tree): (r: Tree)
    ensures IsSimple(t) ==> r.TExec?
  {
    if t.TRedir? then Core(t.t) else t
  }

  /** One redirection, with `>>` for output if so wished. */
  function FilePart(file: string, direction: Direction, append: bool): Part {
    File(" ", if direction == Input then Lt else if append then GtGt else Gt, " ", file)
  }

  function FileParts(t: Tree, append: bool): seq<Part> {
    if t.TRedir? then FileParts(t.t, append) + [FilePart(t.file, t.direction, append)] else []
  }

  function ArgParts(args: seq<string>): (ps: seq<Part>)
    ensures |ps| == |args| && forall k :: 0 <= k < |ps| ==> ps[k] == Arg(" ", args[k])
  {
    seq(|args|, k requires 0 <= k < |args| => Arg(" ", args[k]))
  }

  /** A command, with its redirections after the first n arguments. */
  function Typed(t: Tree, append: bool, n: nat): Syntax
    requires IsSimple(t)
  {
    var ps := ArgParts(Core(t).args);
    var k := if n < |ps| then n else |ps|;
    Bare(ps[..k] + FileParts(t, append) + ps[k..], " ")
  }

  /** In parentheses, unless the grammar takes it without. */
  function Within(c: Syntax, fits: bool): Syntax {
    if fits then c else Group(" ", c, [], " ")
  }

  /** The line for t, with parentheses only where `|`, `&`, `;` and redirections would be read otherwise. */
  function Plain(t: Tree, append: bool, n: nat): Syntax {
    match t
    case TExec(_) => Typed(t, append, n)
    case TRedir(u, file, direction) =>
      if IsSimple(t) then Typed(t, append, n)
      else
        var c, p := Plain(u, append, n), FilePart(file, direction, append);
        if c.Group? then c.(files := c.files + [p]) else Group(" ", c, [p], " ")
    case TPipe(l, r) =>
      var a, b := Plain(l, append, n), Plain(r, append, n);
      Piped(Within(a, IsExec(a)), Within(b, IsPipe(b)))
    case TBack(u) => var a := Plain(u, append, n); Backed(Within(a, IsBack(a)), " ")
    case TList(l, r) => var a := Plain(l, append, n); Listed(Within(a, IsBack(a)), Plain(r, append, n))
  }

  /** Parentheses for their own sake. */
  predicate Bracketed(c: Syntax) {
    c.Group? && c.files == []
  }

  /** There are no parentheses that could be left out. */
  predicate Lean(c: Syntax) {
    match c
    case Bare(_, _) => true
    case Group(_, body, _, _) => Lean(body) && !IsExec(body)
    case Piped(l, r) => Lean(l) && Lean(r) && (Bracketed(r) ==> !IsPipe(r.body))
    case Backed(line, _) => Lean(line) && (Bracketed(line) ==> !IsBack(line.body))
    case Listed(l, r) => Lean(l) && Lean(r) && (Bracketed(l) ==> !IsBack(l.body)) && !Bracketed(r)
  }

  lemma {:induction false} WrapTwo(t: Tree, x: seq<Part>, y: seq<Part>)
    ensures Wrap(t, x + y) == Wrap(Wrap(t, x), y) && Args(x + y) == Args(x) + Args(y)
    decreases |y|
  {
    if y == [] {
      assert x + y == x;
    } else {
      var front := y[..|y| - 1];
      assert (x + y)[..|x + y| - 1] == x + front;
      WrapTwo(t, x, front);
    }
  }

  lemma {:induction false} ArgsOnly(t: Tree, ps: seq<Part>)
    requires forall k :: 0 <= k < |ps| ==> ps[k].Arg?
    ensures Wrap(t, ps) == t && |Args(ps)| == |ps| && forall k :: 0 <= k < |ps| ==> Args(ps)[k] == ps[k].word
  {
    if ps != [] {
      ArgsOnly(t, ps[..|ps| - 1]);
    }
  }

  lemma {:induction false} FilesMean(t: Tree, append: bool)
    requires Legal(t)
    ensures Wrap(Core(t), FileParts(t, append)) == t && Args(FileParts(t, append)) == []
    ensures GoodParts(FileParts(t, append))
            && forall k :: 0 <= k < |FileParts(t, append)| ==> FileParts(t, append)[k].File?
  {
    if t.TRedir? {
      FilesMean(t.t, append);
      var front, p := FileParts(t.t, append), FilePart(t.file, t.direction, append);
      assert (front + [p])[..|front|] == front;
      assert GoodPart(p) by {
        SameWords(t.file);
      }
    }
  }

  lemma Around(t: Tree, ps: seq<Part>, fs: seq<Part>, k: nat)
    requires k <= |ps| && (forall j :: 0 <= j < |ps| ==> ps[j].Arg?) && Args(fs) == []
    ensures Wrap(t, ps[..k] + fs + ps[k..]) == Wrap(t, fs)
    ensures var ws := Args(ps[..k] + fs + ps[k..]); |ws| == |ps| && forall j :: 0 <= j < |ps| ==> ws[j] == ps[j].word
  {
    hide Wrap, Args;
    ArgsOnly(t, ps[..k]);
    ArgsOnly(Wrap(t, fs), ps[k..]);
    WrapTwo(t, ps[..k] + fs, ps[k..]);
    WrapTwo(t, ps[..k], fs);
  }

  lemma TypedMeans(t: Tree, append: bool, n: nat)
    requires Legal(t) && IsSimple(t)
    ensures Good(Typed(t, append, n)) && Means(Typed(t, append, n)) == t && Typed(t, append, n).Bare?
  {
    hide Wrap, Args, GoodParts, FileParts, IsWord;
    var args := Core(t).args;
    var ps, fs := ArgParts(args), FileParts(t, append);
    var k := if n < |ps| then n else |ps|;
    CoreLegal(t);
    FilesMean(t, append);
    Around(Core(t), ps, fs, k);
    assert Args(ps[..k] + fs + ps[k..]) == args;
    TypedGood(args, fs, k);
  }

  lemma {:induction false} CoreLegal(t: Tree)
    requires Legal(t)
    ensures Legal(Core(t))
  {
    if t.TRedir? {
      CoreLegal(t.t);
    }
  }

  lemma TypedGood(args: seq<string>, fs: seq<Part>, k: nat)
    requires k <= |args| && GoodParts(fs) && forall j :: 0 <= j < |args| ==> IsWord(args[j])
    requires forall j :: 0 <= j < |fs| ==> fs[j].File?
    ensures GoodParts(ArgParts(args)[..k] + fs + ArgParts(args)[k..])
  {
    var ps := ArgParts(args);
    var all := ps[..k] + fs + ps[k..];
    forall j | 0 <= j < |all| ensures GoodPart(all[j]) && (j > 0 && all[j].Arg? ==> all[j].gap != "") {
      if j < k {
        SameWords(args[j]);
      } else if j < k + |fs| {
        assert all[j] == fs[j - k];
      } else {
        SameWords(args[j - |fs|]);
      }
    }
  }

  lemma WithinMeans(c: Syntax, fits: bool)
    requires Good(c)
    ensures Good(Within(c, fits)) && Means(Within(c, fits)) == Means(c)
  {
  }

  /** Every legal command has such a line, in which no parentheses can be left out. */
  lemma {:induction false} PlainMeans(t: Tree, append: bool, n: nat)
    requires Legal(t)
    ensures Good(Plain(t, append, n)) && Means(Plain(t, append, n)) == t
    ensures Lean(Plain(t, append, n)) && !Bracketed(Plain(t, append, n))
  {
    hide Wrap, Args, GoodParts, Typed, IsWord;
    assert Blank(" ");
    match t
    case TExec(_) => TypedMeans(t, append, n);
    case TRedir(u, file, direction) =>
      if IsSimple(t) {
        TypedMeans(t, append, n);
      } else {
        PlainMeans(u, append, n);
        RedirMeans(t, append, n);
      }
    case TPipe(l, r) =>
      var a, b := Plain(l, append, n), Plain(r, append, n);
      PlainMeans(l, append, n);
      PlainMeans(r, append, n);
      WithinMeans(a, IsExec(a));
      WithinMeans(b, IsPipe(b));
    case TBack(u) =>
      var a := Plain(u, append, n);
      PlainMeans(u, append, n);
      WithinMeans(a, IsBack(a));
    case TList(l, r) =>
      var a := Plain(l, append, n);
      PlainMeans(l, append, n);
      PlainMeans(r, append, n);
      WithinMeans(a, IsBack(a));
  }

  lemma RedirMeans(t: Tree, append: bool, n: nat)
    requires Legal(t) && t.TRedir? && !IsSimple(t) && var c := Plain(t.t, append, n);
             Good(c) && Means(c) == t.t && Lean(c) && !Bracketed(c)
    ensures Good(Plain(t, append, n)) && Means(Plain(t, append, n)) == t
    ensures Lean(Plain(t, append, n)) && !Bracketed(Plain(t, append, n))
  {
    var c, p := Plain(t.t, append, n), FilePart(t.file, t.direction, append);
    SameWords(t.file);
    assert GoodPart(p);
    if c.Group? {
      assert (c.files + [p])[..|c.files|] == c.files;
    } else {
      NotBare(t.t, append, n);
      assert [p][..|[p]| - 1] == [] && Wrap(t.t, [p][..|[p]| - 1]) == t.t;
    }
  }

  lemma NotBare(t: Tree, append: bool, n: nat)
    requires !IsSimple(t)
    ensures !Plain(t, append, n).Bare?
  {
  }

  /** A command line of every legal command, typed without needless parentheses, with `>` or `>>` for output and the
      redirections after any of the arguments, is read as that command. */
  lemma TypedRoundTrip(t: Tree, append: bool, n: nat)
    requires Legal(t)
    ensures var s := Show(Plain(t, append, n)); CmdOf(s).Parsed? && Resolve(s, CmdOf(s).cmd) == t
    ensures Lean(Plain(t, append, n)) && !Bracketed(Plain(t, append, n))
  {
    hide Plain, Show, Means, Good, CmdOf, Resolve, Lean, Legal;
    PlainMeans(t, append, n);
    ReadsAsTyped(Plain(t, append, n));
  }

  // ---- Nothing else is read --------------------------------------------------------------------------

  lemma {:induction false} SkippedIsBlank(s: string, i: nat)
    requires i <= |s|
    ensures Blank(s[i..Skip(s, i)]) && Skip(s, Skip(s, i)) == Skip(s, i)
    decreases |s| - i
  {
    if i < |s| && IsSpace(s[i]) {
      SkippedIsBlank(s, i + 1);
      assert s[i..Skip(s, i)] == [s[i]] + s[i + 1..Skip(s, i)];
    }
  }

  /** The word at i, which starts after the blanks from k. */
  lemma WordThere(s: string, k: nat, q: nat)
    requires k <= q < |s| && NoNul(s) && Skip(s, k) == q && TokenAt(s, q).kind == 'a'
    ensures var e := TokenAt(s, q).eq;
            && TokenAt(s, q).q == q < e <= |s| && Word(s[q..e]) && Ends(s, e) && Blank(s[k..q])
            && TokenAt(s, q).next == Skip(s, e) && (Ends(s, k) ==> k < q)
  {
    SkippedIsBlank(s, k);
    TokenIsSpan(s, q);
    var e := TokenAt(s, q).eq;
    assert forall m :: 0 <= m < e - q ==> s[q..e][m] == s[q + m];
  }

  /** The text from k up to m is that part, and no word goes on. */
  ghost predicate IsPart(s: string, k: nat, m: nat, p: Part) {
    k < m <= |s| && GoodPart(p) && ShowPart(p) == s[k..m] && Ends(s, m)
  }

  /** The text from k up to e is those parts and blanks, and no blanks follow. */
  ghost predicate AreParts(s: string, k: nat, e: nat, ps: seq<Part>, end: string) {
    k <= e <= |s| && GoodParts(ps) && Blank(end) && ShowParts(ps) + end == s[k..e] && Skip(s, e) == e
  }

  lemma OpThere(s: string, q: nat) returns (op: Op)
    requires q < |s| && (s[q] == '<' || s[q] == '>')
    ensures var t := TokenAt(s, q); q < t.eq <= |s| && t.next == Skip(s, t.eq) && s[q..t.eq] == ShowOp(op)
  {
    var t := TokenAt(s, q);
    op := if s[q] == '<' then Lt else if t.eq == q + 2 then GtGt else Gt;
    assert s[q..t.eq] == ShowOp(op);
  }

  /** An operator of redirection and its file, after the blanks from k. */
  lemma FileThere(s: string, k: nat) returns (p: Part, e: nat)
    requires k <= |s| && NoNul(s) && var q := Skip(s, k);
             && q < |s| && (s[q] == '<' || s[q] == '>') && TokenAt(s, TokenAt(s, q).next).kind == 'a'
    ensures p.File? && IsPart(s, k, e, p)
  {
    hide TokenAt, Skip, Blank, Word, ShowOp, Ends, NoNul;
    var q := Skip(s, k);
    SkippedIsBlank(s, k);
    var op := OpThere(s, q);
    var m, n := TokenAt(s, q).eq, TokenAt(s, q).next;
    SkippedIsBlank(s, m);
    WordThere(s, m, n);
    e := TokenAt(s, n).eq;
    p := File(s[k..q], op, s[m..n], s[n..e]);
    Together(s, k, q, m);
    Together(s, k, m, n);
    Together(s, k, n, e);
  }

  /** Stretches of the text put together. */
  lemma Together(s: string, k: nat, m: nat, e: nat)
    requires k <= m <= e <= |s|
    ensures s[k..m] + s[m..e] == s[k..e]
  {
  }

  lemma ConsParts(p: Part, ps: seq<Part>, end: string)
    ensures ShowParts([p] + ps) + end == ShowPart(p) + (ShowParts(ps) + end) && Args([p] + ps) == Args([p]) + Args(ps)
  {
    assert ([p] + ps)[1..] == ps;
    WrapTwo(TExec([]), [p], ps);
  }

  lemma ConsGood(p: Part, ps: seq<Part>)
    requires GoodPart(p) && GoodParts(ps) && (ps != [] && ps[0].Arg? ==> ps[0].gap != "")
    ensures GoodParts([p] + ps)
  {
  }

  lemma {:induction false} FilesThere(s: string, c: Cmd, k: nat) returns (files: seq<Part>, end: string)
    requires k <= |s| && NoNul(s) && RedirsAt(s, c, k).Parsed?
    ensures AreParts(s, k, RedirsAt(s, c, k).at, files, end)
    ensures forall j :: 0 <= j < |files| ==> files[j].File?
    decreases |s| - k
  {
    var q := Skip(s, k);
    SkippedIsBlank(s, k);
    if Char(s, q) == '<' || Char(s, q) == '>' {
      var p, m := FileThere(s, k);
      var d := FileStepped(s, c, k, p, m);
      var e := RedirsAt(s, c, k).at;
      hide RedirsAt, Skip, TokenAt;
      files, end := FilesThere(s, d, m);
      ConsParts(p, files, end);
      ConsGood(p, files);
      Together(s, k, m, e);
      files := [p] + files;
    } else {
      files, end := [], s[k..q];
    }
  }

  lemma FileStepped(s: string, c: Cmd, k: nat, p: Part, e: nat) returns (d: Cmd)
    requires p.File? && IsPart(s, k, e, p)
    ensures RedirsAt(s, c, k) == RedirsAt(s, d, e)
  {
    var w := FileStep(s, k, p, c);
    d := Redir(c, w, if p.op == Lt then Input else Output);
  }

  lemma OnePart(s: string, k: nat, m: nat, e: nat, p: Part, parts: seq<Part>, end: string)
    requires IsPart(s, k, m, p) && AreParts(s, m, e, parts, end)
    requires Ends(s, m) && parts != [] && parts[0].Arg? ==> parts[0].gap != ""
    ensures AreParts(s, k, e, [p] + parts, end) && |Args([p] + parts)| == |Args(parts)| + if p.Arg? then 1 else 0
  {
    ConsParts(p, parts, end);
    ConsGood(p, parts);
    Together(s, k, m, e);
    assert [p][..|[p]| - 1] == [];
  }

  lemma RestFile(s: string, c: Cmd, argc: nat, k: nat) returns (p: Part, m: nat, d: Cmd)
    requires k <= |s| && NoNul(s) && Rest(s, c, argc, k).Parsed?
    requires Char(s, Skip(s, k)) == '<' || Char(s, Skip(s, k)) == '>'
    ensures p.File? && IsPart(s, k, m, p) && k < m <= |s|
    ensures Rest(s, c, argc, k) == Rest(s, d, argc, m)
  {
    SkippedIsBlank(s, k);
    p, m := FileThere(s, k);
    hide ArgsAt;
    d := FileStepped(s, c, k, p, m);
  }

  lemma RestStops(s: string, c: Cmd, argc: nat, k: nat)
    requires k <= |s| && Follows(s, Skip(s, k))
    ensures Rest(s, c, argc, k) == Parsed(c, Skip(s, k)) && Skip(s, Skip(s, k)) == Skip(s, k) && Blank(s[k..Skip(s, k)])
  {
    SkippedIsBlank(s, k);
  }

  lemma ArgThere(s: string, c: Cmd, argc: nat, k: nat) returns (p: Part, m: nat)
    requires k <= |s| && NoNul(s) && Rest(s, c, argc, k).Parsed? && var q := Skip(s, k);
             q < |s| && s[q] != '<' && s[q] != '>' && s[q] != '|' && s[q] != ')' && s[q] != '&' && s[q] != ';'
    ensures p.Arg? && IsPart(s, k, m, p) && argc + 1 < MAXARGS
    ensures Ends(s, k) ==> p.gap != ""
  {
    var q := Skip(s, k);
    SkippedIsBlank(s, k);
    assert RedirsAt(s, c, k) == Parsed(c, q);
    assert TokenAt(s, q).kind == 'a';
    WordThere(s, k, q);
    m := TokenAt(s, q).eq;
    p := Arg(s[k..q], s[q..m]);
    Together(s, k, q, m);
  }

  lemma RestArg(s: string, c: Cmd, argc: nat, k: nat) returns (p: Part, m: nat, d: Cmd)
    requires k <= |s| && NoNul(s) && Rest(s, c, argc, k).Parsed?
    requires !Follows(s, Skip(s, k)) && Char(s, Skip(s, k)) != '<' && Char(s, Skip(s, k)) != '>'
    ensures p.Arg? && IsPart(s, k, m, p) && k < m <= |s| && (Ends(s, k) ==> p.gap != "") && argc + 1 < MAXARGS
    ensures Rest(s, c, argc, k) == Rest(s, d, argc + 1, m)
  {
    hide Rest, Skip, NoNul, Blank, GoodPart, ShowPart, Ends;
    p, m := ArgThere(s, c, argc, k);
    var w := ArgStepped(s, k, p, c, argc);
    d := AddArg(c, w);
  }

  /** What is left of a command, from the end k of its last token. */
  lemma {:induction false} PartsThere(s: string, c: Cmd, argc: nat, k: nat) returns (parts: seq<Part>, end: string)
    requires k <= |s| && NoNul(s) && Rest(s, c, argc, k).Parsed? && argc < MAXARGS
    ensures AreParts(s, k, Rest(s, c, argc, k).at, parts, end)
    ensures argc + |Args(parts)| < 10 && (Ends(s, k) && parts != [] && parts[0].Arg? ==> parts[0].gap != "")
    decreases |s| - k
  {
    hide Rest, Skip, NoNul, Blank, IsPart, Ends;
    var q := Skip(s, k);
    if Follows(s, q) {
      RestStops(s, c, argc, k);
      parts, end := [], s[k..q];
    } else {
      hide Args, AreParts;
      var p, m, d;
      if s[q] == '<' || s[q] == '>' {
        p, m, d := RestFile(s, c, argc, k);
        parts, end := PartsThere(s, d, argc, m);
      } else {
        p, m, d := RestArg(s, c, argc, k);
        parts, end := PartsThere(s, d, argc + 1, m);
      }
      OnePart(s, k, m, Rest(s, c, argc, k).at, p, parts, end);
      parts := [p] + parts;
    }
  }

  /** The text from k up to e is that line, and no blanks follow. */
  ghost predicate IsLine(s: string, k: nat, e: nat, c: Syntax) {
    k <= e <= |s| && Good(c) && Show(c) == s[k..e] && Skip(s, e) == e
  }

  lemma {:induction false} ExecThere(s: string, k: nat) returns (c: Syntax)
    requires k <= |s| && NoNul(s) && ExecAt(s, k).Parsed?
    ensures IsLine(s, k, ExecAt(s, k).at, c) && IsExec(c)
    decreases |s| - k, 1
  {
    if Char(s, Skip(s, k)) == '(' {
      c := GroupThere(s, k);
    } else {
      NotBlock(s, k);
      hide ExecAt, Rest;
      var parts, end := PartsThere(s, Exec([]), 0, k);
      c := Bare(parts, end);
    }
  }

  lemma {:induction false} GroupThere(s: string, k: nat) returns (c: Syntax)
    requires k <= |s| && NoNul(s) && ExecAt(s, k).Parsed? && Char(s, Skip(s, k)) == '('
    ensures IsLine(s, k, ExecAt(s, k).at, c) && IsExec(c)
    decreases |s| - k, 0
  {
    hide ExecAt, LineAt, RedirsAt, Skip, Blank, GoodParts, ShowParts;
    var q := Skip(s, k);
    SkippedIsBlank(s, k);
    GroupOpens(s, k);
    var r := LineAt(s, q + 1);
    var body := LineThere(s, q + 1);
    GroupCloses(s, k, r.cmd, r.at);
    var files, end := FilesThere(s, r.cmd, r.at + 1);
    c := Group(s[k..q], body, files, end);
    GroupShows(s, k, q, r.at, ExecAt(s, k).at, c);
  }

  /** What the shell does with a block. */
  lemma BlockIs(s: string, k: nat)
    requires k <= |s| && Char(s, Skip(s, k)) == '('
    ensures Skip(s, k) < |s| && Skip(s, Skip(s, k)) == Skip(s, k)
    ensures ExecAt(s, k) == BlockAt(s, Skip(s, k))
            && LineAt(s, TokenAt(s, Skip(s, k)).next) == LineAt(s, Skip(s, k) + 1)
  {
    hide LineAt, PipeAt, BlockAt, RedirsAt, ArgsAt;
    var q := Skip(s, k);
    SymbolToken(s, q, '(');
    SameLine(s, Skip(s, q + 1), q + 1);
  }

  lemma GroupOpens(s: string, k: nat)
    requires k <= |s| && ExecAt(s, k).Parsed? && Char(s, Skip(s, k)) == '('
    ensures Skip(s, k) < |s| && LineAt(s, Skip(s, k) + 1).Parsed?
  {
    hide LineAt, ExecAt, RedirsAt, TokenAt, Skip;
    BlockIs(s, k);
  }

  lemma GroupCloses(s: string, k: nat, b: Cmd, p: nat)
    requires k <= |s| && ExecAt(s, k).Parsed? && Char(s, Skip(s, k)) == '(' && Skip(s, k) < |s|
    requires LineAt(s, Skip(s, k) + 1) == Parsed(b, p) && p <= |s| && Skip(s, p) == p
    ensures p < |s| && s[p] == ')' && ExecAt(s, k) == RedirsAt(s, b, p + 1)
  {
    hide LineAt, ExecAt, RedirsAt, TokenAt, Skip;
    BlockIs(s, k);
    assert Char(s, p) == ')';
    SymbolToken(s, p, ')');
    SameStart(s, b, 0, Skip(s, p + 1), p + 1);
  }

  lemma GroupShows(s: string, k: nat, q: nat, p: nat, e: nat, c: Syntax)
    requires k <= q < p < e <= |s| && s[q] == '(' && s[p] == ')' && c.Group? && c.gap == s[k..q]
    requires Show(c.body) == s[q + 1..p] && ShowParts(c.files) + c.end == s[p + 1..e]
    ensures Show(c) == s[k..e]
  {
    Joined(s, k, q, p, '(');
    Joined(s, k, p, e, ')');
    LastTwo(c.gap + "(" + Show(c.body) + ")", ShowParts(c.files), c.end);
  }

  lemma LastTwo(u: string, v: string, w: string)
    ensures u + v + w == u + (v + w)
  {
  }

  /** Two stretches with an operator between them. */
  lemma Joined(s: string, k: nat, m: nat, e: nat, op: char)
    requires k <= m < e <= |s| && s[m] == op
    ensures s[k..m] + [op] + s[m + 1..e] == s[k..e]
  {
  }

  lemma {:induction false} PipeThere(s: string, k: nat) returns (c: Syntax)
    requires k <= |s| && NoNul(s) && PipeAt(s, k).Parsed?
    ensures IsLine(s, k, PipeAt(s, k).at, c) && IsPipe(c)
    decreases |s| - k, 2
  {
    hide ExecAt, PipeAt, TokenAt, Skip, Good, Show;
    PipeIsExec(s, k);
    var a := ExecThere(s, k);
    var m := ExecAt(s, k).at;
    PipeGoesOn(s, k, m);
    if Char(s, m) == '|' {
      var b := PipeThere(s, m + 1);
      Joined(s, k, m, PipeAt(s, k).at, '|');
      c := Piped(a, b);
      PipedIsLine(s, k, PipeAt(s, k).at, c);
    } else {
      c := a;
    }
  }

  lemma PipeIsExec(s: string, k: nat)
    requires k <= |s| && PipeAt(s, k).Parsed?
    ensures ExecAt(s, k).Parsed?
  {
  }

  lemma PipeGoesOn(s: string, k: nat, m: nat)
    requires k <= |s| && PipeAt(s, k).Parsed? && ExecAt(s, k).Parsed? && m == ExecAt(s, k).at && Skip(s, m) == m
    ensures Char(s, m) == '|' ==> m < |s| && PipeAt(s, m + 1).Parsed? && PipeAt(s, k).at == PipeAt(s, m + 1).at
    ensures Char(s, m) != '|' ==> PipeAt(s, k).at == m
  {
    hide ExecAt;
    if Char(s, m) == '|' {
      SymbolToken(s, m, '|');
      SameLine(s, Skip(s, m + 1), m + 1);
    }
  }

  lemma PipedIsLine(s: string, k: nat, e: nat, c: Syntax)
    requires c.Piped? && Good(c.left) && Good(c.right) && IsExec(c.left) && IsPipe(c.right)
    requires k <= e <= |s| && Show(c.left) + "|" + Show(c.right) == s[k..e] && Skip(s, e) == e
    ensures IsLine(s, k, e, c)
  {
  }

  lemma {:induction false} BacksThere(s: string, k: nat, i: nat, x: Cmd, a: Syntax) returns (c: Syntax)
    requires NoNul(s) && IsLine(s, k, i, a) && IsBack(a)
    ensures IsLine(s, k, BacksAt(s, x, i).at, c) && IsBack(c)
    decreases |s| - i
  {
    if Char(s, i) == '&' {
      SymbolToken(s, i, '&');
      SkippedIsBlank(s, i + 1);
      var n := Skip(s, i + 1);
      Joined(s, k, i, n, '&');
      hide TokenAt;
      assert IsLine(s, k, n, Backed(a, s[i + 1..n]));
      c := BacksThere(s, k, n, Back(x), Backed(a, s[i + 1..n]));
    } else {
      c := a;
    }
  }

  lemma {:induction false} LineThere(s: string, k: nat) returns (c: Syntax)
    requires k <= |s| && NoNul(s) && LineAt(s, k).Parsed?
    ensures IsLine(s, k, LineAt(s, k).at, c)
    decreases |s| - k, 3
  {
    hide LineAt, PipeAt, BacksAt, TokenAt, Skip, Good, Show;
    var p := PipeAt(s, k);
    LineIsPipe(s, k);
    var a := PipeThere(s, k);
    var b := BacksThere(s, k, p.at, p.cmd, a);
    var m := BacksAt(s, p.cmd, p.at).at;
    LineGoesOn(s, k, p, m);
    if Char(s, m) == ';' {
      var d := LineThere(s, m + 1);
      Joined(s, k, m, LineAt(s, k).at, ';');
      c := Listed(b, d);
      ListedIsLine(s, k, LineAt(s, k).at, c);
    } else {
      c := b;
    }
  }

  lemma LineIsPipe(s: string, k: nat)
    requires k <= |s| && LineAt(s, k).Parsed?
    ensures PipeAt(s, k).Parsed?
  {
  }

  lemma LineGoesOn(s: string, k: nat, p: Parsed, m: nat)
    requires k <= |s| && LineAt(s, k).Parsed? && p == PipeAt(s, k) && p.Parsed? && m == BacksAt(s, p.cmd, p.at).at
    requires Skip(s, m) == m
    ensures Char(s, m) == ';' ==> m < |s| && LineAt(s, m + 1).Parsed? && LineAt(s, k).at == LineAt(s, m + 1).at
    ensures Char(s, m) != ';' ==> LineAt(s, k).at == m
  {
    hide PipeAt, BacksAt;
    if Char(s, m) == ';' {
      SymbolToken(s, m, ';');
      SameLine(s, Skip(s, m + 1), m + 1);
    }
  }

  lemma ListedIsLine(s: string, k: nat, e: nat, c: Syntax)
    requires c.Listed? && Good(c.left) && Good(c.right) && IsBack(c.left)
    requires k <= e <= |s| && Show(c.left) + ";" + Show(c.right) == s[k..e] && Skip(s, e) == e
    ensures IsLine(s, k, e, c)
  {
  }

  /** The shell reads exactly the lines that can be typed so, each as the one thing it means. */
  lemma ReadIff(s: string)
    requires NoNul(s)
    ensures CmdOf(s).Parsed? <==> exists c :: Good(c) && Show(c) == s
    ensures forall c :: Good(c) && Show(c) == s ==> CmdOf(s).Parsed? && Resolve(s, CmdOf(s).cmd) == Means(c)
  {
    hide LineAt, Good, Show, Means, Resolve;
    if CmdOf(s).Parsed? {
      var c := LineThere(s, 0);
      assert s[0..|s|] == s;
      assert Good(c) && Show(c) == s;
    }
    forall c | Good(c) && Show(c) == s ensures CmdOf(s).Parsed? && Resolve(s, CmdOf(s).cmd) == Means(c) {
      ReadsAsTyped(c);
    }
  }
}
