/** The shell's parser as it runs: a cursor that moves over the text, and words ended in place. */
module ShellParser {
  import opened Shell
  import T = ShellTyping

  method SkipSpace(s: string, i: nat) returns (j: nat)
    requires i <= |s|
    ensures j == Skip(s, i)
  {
    j := i;
    while j < |s| && IsSpace(s[j])
      invariant j <= |s| && Skip(s, i) == Skip(s, j)
    {
      j := j + 1;
    }
  }

  /** `gettoken`: the kind of token, its span and where the cursor goes. */
  method GetToken(s: string, ps: nat) returns (t: Token)
    requires ps <= |s|
    ensures t == TokenAt(s, ps)
  {
    var q := SkipSpace(s, ps);
    var kind, eq := Char(s, q), q;
    match kind {
    case '\0' =>
    case '|' => eq := q + 1;
    case '(' => eq := q + 1;
    case ')' => eq := q + 1;
    case ';' => eq := q + 1;
    case '&' => eq := q + 1;
    case '<' => eq := q + 1;
    case '>' =>
      eq := q + 1;
      if Char(s, eq) == '>' {
        kind := '+';
        eq := eq + 1;
      }
    case _ =>
      kind := 'a';
      while eq < |s| && !IsSpace(s[eq]) && !IsSymbol(s[eq])
        invariant eq <= |s| && WordEnd(s, q) == WordEnd(s, eq)
      {
        eq := eq + 1;
      }
    }
    var next := SkipSpace(s, eq);
    return Token(kind, q, eq, next);
  }

  method Peek(s: string, ps: nat, toks: string) returns (found: bool, next: nat)
    requires ps <= |s|
    ensures next == Skip(s, ps) && found == (Char(s, next) != '\0' && Char(s, next) in toks)
  {
    next := SkipSpace(s, ps);
    found := Char(s, next) != '\0' && Char(s, next) in toks;
  }

  method ParseRedirs(s: string, c: Cmd, ps: nat) returns (r: Parsed)
    requires ps <= |s|
    ensures r == RedirsAt(s, c, ps)
  {
    hide TokenAt;
    var cmd := c;
    var found, i := Peek(s, ps, "<>");
    while found
      invariant i <= |s| && Skip(s, i) == i && found == (Char(s, i) == '<' || Char(s, i) == '>')
      invariant RedirsAt(s, c, ps) == RedirsAt(s, cmd, i)
      decreases |s| - i
    {
      var t := GetToken(s, i);
      var f := GetToken(s, t.next);
      if f.kind != 'a' {
        return Panic("missing file for redirection");
      }
      cmd := Redir(cmd, Span(f.q, f.eq), if t.kind == '<' then Input else Output);
      found, i := Peek(s, f.next, "<>");
    }
    return Parsed(cmd, i);
  }

  method ParseExec(s: string, ps: nat) returns (r: Parsed)
    requires ps <= |s|
    ensures r == ExecAt(s, ps)
    decreases |s| - ps, 1
  {
    var block, i := Peek(s, ps, "(");
    if block {
      r := ParseBlock(s, i);
      return;
    }
    r := ParseRedirs(s, Exec([]), i);
    if r.Parsed? {
      r := ParseArgs(s, r.cmd, r.at);
    }
  }

  /** The loop of `parseexec`. */
  method ParseArgs(s: string, c: Cmd, ps: nat) returns (r: Parsed)
    requires ps <= |s|
    ensures r == ArgsAt(s, c, 0, ps)
  {
    hide RedirsAt, TokenAt, AddArg;
    var argc := 0;
    var stop, i := Peek(s, ps, "|)&;");
    r := Parsed(c, i);
    while !stop
      invariant r.Parsed? && r.at == i <= |s| && Skip(s, i) == i
      invariant stop == (Char(s, i) == '|' || Char(s, i) == ')' || Char(s, i) == '&' || Char(s, i) == ';')
      invariant ArgsAt(s, c, 0, ps) == ArgsAt(s, r.cmd, argc, i)
      decreases |s| - i, !stop
    {
      var t := GetToken(s, i);
      if t.kind == '\0' {
        return Parsed(r.cmd, t.next);
      }
      if t.kind != 'a' {
        return Panic("syntax");
      }
      argc := argc + 1;
      if argc >= MAXARGS {
        return Panic("too many args");
      }
      r := ParseRedirs(s, AddArg(r.cmd, Span(t.q, t.eq)), t.next);
      if r.Panic? {
        return;
      }
      stop, i := Peek(s, r.at, "|)&;");
      r := Parsed(r.cmd, i);
    }
  }

  method ParseBlock(s: string, ps: nat) returns (r: Parsed)
    requires ps <= |s|
    ensures r == BlockAt(s, ps)
    decreases |s| - ps, 0
  {
    var found, i := Peek(s, ps, "(");
    if !found {
      return Panic("parseblock");
    }
    var t := GetToken(s, i);
    r := ParseLine(s, t.next);
    if r.Panic? {
      return;
    }
    found, i := Peek(s, r.at, ")");
    if !found {
      return Panic("syntax - missing )");
    }
    t := GetToken(s, i);
    r := ParseRedirs(s, r.cmd, t.next);
  }

  method ParsePipe(s: string, ps: nat) returns (r: Parsed)
    requires ps <= |s|
    ensures r == PipeAt(s, ps)
    decreases |s| - ps, 2
  {
    r := ParseExec(s, ps);
    if r.Panic? {
      return;
    }
    var more, i := Peek(s, r.at, "|");
    if more {
      var t := GetToken(s, i);
      var right := ParsePipe(s, t.next);
      return if right.Panic? then right else Parsed(Pipe(r.cmd, right.cmd), right.at);
    }
    return Parsed(r.cmd, i);
  }

  method ParseLine(s: string, ps: nat) returns (r: Parsed)
    requires ps <= |s|
    ensures r == LineAt(s, ps)
    decreases |s| - ps, 3
  {
    r := ParsePipe(s, ps);
    if r.Panic? {
      return;
    }
    r := ParseBacks(s, r.cmd, r.at);
    var more, i := Peek(s, r.at, ";");
    if more {
      var t := GetToken(s, i);
      var right := ParseLine(s, t.next);
      return if right.Panic? then right else Parsed(List(r.cmd, right.cmd), right.at);
    }
    return Parsed(r.cmd, i);
  }

  /** The loop of `parseline`. */
  method ParseBacks(s: string, c: Cmd, ps: nat) returns (r: Parsed)
    requires ps <= |s|
    ensures r == BacksAt(s, c, ps)
  {
    var cmd := c;
    var found, i := Peek(s, ps, "&");
    while found
      invariant i <= |s| && Skip(s, i) == i && found == (Char(s, i) == '&')
      invariant BacksAt(s, c, ps) == BacksAt(s, cmd, i)
      decreases |s| - i
    {
      var t := GetToken(s, i);
      cmd := Back(cmd);
      found, i := Peek(s, t.next, "&");
    }
    return Parsed(cmd, i);
  }

  // ---- Ending the words in place -----------------------------------------------------------------

  /** The string that C reads at q. */
  function CString(b: seq<char>, q: nat): string
    decreases |b| - q
  {
    if q < |b| && b[q] != '\0' then [b[q]] + CString(b, q + 1) else ""
  }

  /** k is where some word of the command ends. */
  ghost predicate Ends(c: Cmd, k: nat) {
    match c
    case Exec(args) => exists i :: 0 <= i < |args| && args[i].eq == k
    case Redir(d, file, _) => Ends(d, k) || file.eq == k
    case Pipe(l, r) => Ends(l, k) || Ends(r, k)
    case List(l, r) => Ends(l, k) || Ends(r, k)
    case Back(d) => Ends(d, k)
  }

  function Strings(b: seq<char>, ws: seq<Span>): (r: seq<string>)
    ensures |r| == |ws| && forall i :: 0 <= i < |ws| ==> r[i] == CString(b, ws[i].q)
  {
    if ws == [] then [] else Strings(b, ws[..|ws| - 1]) + [CString(b, ws[|ws| - 1].q)]
  }

  /** The command that a reader of C strings sees. */
  function Read(b: seq<char>, c: Cmd): Tree {
    match c
    case Exec(args) => TExec(Strings(b, args))
    case Redir(d, file, direction) => TRedir(Read(b, d), CString(b, file.q), direction)
    case Pipe(l, r) => TPipe(Read(b, l), Read(b, r))
    case List(l, r) => TList(Read(b, l), Read(b, r))
    case Back(d) => TBack(Read(b, d))
  }

  /** The buffer holds the text with NULs where no word character was, and one at the end of each word of c. */
  ghost predicate Terminated(s: string, b: seq<char>, c: Cmd) {
    && |s| < |b| && b[|s|] == '\0'
    && (forall k :: 0 <= k < |s| ==> b[k] == s[k] || (b[k] == '\0' && !IsWordChar(s[k])))
    && forall k: nat :: k < |s| && Ends(c, k) ==> b[k] == '\0'
  }

  lemma {:induction false} WordReads(s: string, b: seq<char>, w: Span, k: nat)
    requires NoNul(s) && IsSpan(s, w) && w.q <= k <= w.eq && |s| < |b| && b[w.eq] == '\0'
    requires forall j :: w.q <= j < w.eq ==> b[j] == s[j]
    ensures CString(b, k) == s[k..w.eq]
    decreases w.eq - k
  {
    if k < w.eq {
      WordReads(s, b, w, k + 1);
      assert s[k..w.eq] == [s[k]] + s[k + 1..w.eq];
    }
  }

  /** A word that the command holds reads as it was scanned. */
  lemma SpanReads(s: string, b: seq<char>, c: Cmd, w: Span)
    requires NoNul(s) && Terminated(s, b, c) && IsSpan(s, w) && Ends(c, w.eq)
    ensures CString(b, w.q) == Text(s, w)
  {
    WordReads(s, b, w, w.q);
  }

  /** After `nulterminate`, the command reads as it was parsed: no terminator falls inside a word. */
  lemma {:induction false} TreeReads(s: string, b: seq<char>, c: Cmd)
    requires NoNul(s) && Terminated(s, b, c) && Spanned(s, c)
    ensures Read(b, c) == Resolve(s, c)
  {
    match c
    case Exec(args) =>
      forall i | 0 <= i < |args| ensures CString(b, args[i].q) == Text(s, args[i]) {
        SpanReads(s, b, c, args[i]);
      }
      assert Strings(b, args) == Texts(s, args);
    case Redir(d, file, _) =>
      SpanReads(s, b, c, file);
      TreeReads(s, b, d);
    case Pipe(l, r) =>
      TreeReads(s, b, l);
      TreeReads(s, b, r);
    case List(l, r) =>
      TreeReads(s, b, l);
      TreeReads(s, b, r);
    case Back(d) =>
      TreeReads(s, b, d);
  }

  lemma {:induction false} EndsAreNotWords(s: string, c: Cmd, k: nat)
    requires Spanned(s, c) && Ends(c, k)
    ensures k <= |s| && (k < |s| ==> !IsWordChar(s[k]))
  {
    match c
    case Exec(args) =>
    case Redir(d, file, _) =>
      if Ends(d, k) {
        EndsAreNotWords(s, d, k);
      }
    case Pipe(l, r) =>
      if Ends(l, k) {
        EndsAreNotWords(s, l, k);
      } else {
        EndsAreNotWords(s, r, k);
      }
    case List(l, r) =>
      if Ends(l, k) {
        EndsAreNotWords(s, l, k);
      } else {
        EndsAreNotWords(s, r, k);
      }
    case Back(d) =>
      EndsAreNotWords(s, d, k);
  }

  /** `nulterminate`: writes a NUL at the end of every word, and nothing else. */
  method NulTerminate(buf: array<char>, c: Cmd)
    requires forall k: nat :: Ends(c, k) ==> k < buf.Length
    modifies buf
    ensures forall k :: 0 <= k < buf.Length ==> buf[k] == if Ends(c, k) then '\0' else old(buf[k])
    decreases c
  {
    match c
    case Exec(args) =>
      for i := 0 to |args|
        invariant forall k :: 0 <= k < buf.Length ==>
                    buf[k] == if exists j :: 0 <= j < i && args[j].eq == k then '\0' else old(buf[k])
      {
        assert Ends(c, args[i].eq);
        buf[args[i].eq] := '\0';
      }
    case Redir(d, file, _) =>
      assert forall k: nat :: Ends(d, k) ==> Ends(c, k);
      NulTerminate(buf, d);
      assert Ends(c, file.eq);
      buf[file.eq] := '\0';
    case Pipe(l, r) =>
      assert forall k: nat :: Ends(l, k) || Ends(r, k) ==> Ends(c, k);
      NulTerminateBoth(buf, c, l, r);
    case List(l, r) =>
      assert forall k: nat :: Ends(l, k) || Ends(r, k) ==> Ends(c, k);
      NulTerminateBoth(buf, c, l, r);
    case Back(d) =>
      assert forall k: nat :: Ends(d, k) ==> Ends(c, k);
      NulTerminate(buf, d);
  }

  method NulTerminateBoth(buf: array<char>, ghost c: Cmd, l: Cmd, r: Cmd)
    requires l < c && r < c && forall k: nat :: Ends(l, k) || Ends(r, k) ==> k < buf.Length
    modifies buf
    ensures forall k :: 0 <= k < buf.Length ==> buf[k] == if Ends(l, k) || Ends(r, k) then '\0' else old(buf[k])
    decreases c, 0
  {
    NulTerminate(buf, l);
    NulTerminate(buf, r);
  }

  /** `strlen` */
  method StrLen(buf: array<char>) returns (n: nat)
    requires exists k :: 0 <= k < buf.Length && buf[k] == '\0'
    ensures n < buf.Length && buf[n] == '\0' && NoNul(buf[..n])
  {
    n := 0;
    while buf[n] != '\0'
      invariant n < buf.Length && NoNul(buf[..n])
      invariant exists k :: n <= k < buf.Length && buf[k] == '\0'
      decreases buf.Length - n
    {
      n := n + 1;
    }
  }

  /** `parsecmd`: what it leaves in the buffer, read as C strings, is the command that was parsed. */
  method ParseCmd(buf: array<char>) returns (r: Parsed, ghost s: string)
    requires exists k :: 0 <= k < buf.Length && buf[k] == '\0'
    modifies buf
    ensures |s| < buf.Length && s == old(buf[..|s|]) && NoNul(s) && old(buf[|s|]) == '\0'
    ensures r == CmdOf(s)
    ensures r.Parsed? ==> Read(buf[..], r.cmd) == Resolve(s, r.cmd)
    ensures r.Panic? ==> buf[..] == old(buf[..])
    ensures r.Parsed? <==> exists c :: T.Good(c) && T.Show(c) == s
    ensures forall c :: T.Good(c) && T.Show(c) == s ==> r.Parsed? && Read(buf[..], r.cmd) == T.Means(c)
  {
    hide T.Good, T.Show, T.Means;
    var n := StrLen(buf);
    s := buf[..n];
    T.ReadIff(s);
    r := ParseLine(buf[..n], 0);
    if r.Panic? {
      return;
    }
    var _, at := Peek(buf[..n], r.at, "");
    if at != n {
      return Panic("syntax"), s;
    }
    r := Parsed(r.cmd, n);
    LineSpanned(s, 0);
    forall k: nat | Ends(r.cmd, k) ensures k <= n && (k < n ==> !IsWordChar(s[k])) {
      EndsAreNotWords(s, r.cmd, k);
    }
    NulTerminate(buf, r.cmd);
    TreeReads(s, buf[..], r.cmd);
  }

  lemma {:induction false} WordsNoNul(args: seq<string>, k: nat)
    requires forall i :: 0 <= i < |args| ==> IsWord(args[i])
    ensures NoNul(Words(args, k))
    decreases |args| - k
  {
    if k + 1 < |args| {
      WordsNoNul(args, k + 1);
    }
  }

  lemma {:induction false} LineNoNul(t: Tree)
    requires Legal(t)
    ensures NoNul(Line(t))
  {
    match t
    case TExec(args) =>
      WordsNoNul(args, 0);
    case TRedir(u, _, _) =>
      LineNoNul(u);
    case TPipe(l, r) =>
      LineNoNul(l);
      LineNoNul(r);
    case TList(l, r) =>
      LineNoNul(l);
      LineNoNul(r);
    case TBack(u) =>
      LineNoNul(u);
  }

  lemma OneEnd(b: seq<char>, m: nat, n: nat)
    requires m < |b| && b[m] == '\0' && NoNul(b[..m]) && n < |b| && b[n] == '\0' && NoNul(b[..n])
    ensures m == n
  {
  }

  /** Typing the canonical text of a command gives that command. */
  method ParsePrinted(buf: array<char>, ghost t: Tree) returns (c: Cmd)
    requires Legal(t) && |Line(t)| < buf.Length && buf[..|Line(t)|] == Line(t) && buf[|Line(t)|] == '\0'
    modifies buf
    ensures Read(buf[..], c) == t
  {
    LineNoNul(t);
    RoundTrip(t);
    var r, s := ParseCmd(buf);
    OneEnd(old(buf[..]), |s|, |Line(t)|);
    assert s == Line(t);
    c := r.cmd;
  }
}
