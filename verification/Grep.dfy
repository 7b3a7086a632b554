/** The regular expressions of grep: literals, `.`, `c*`, a leading `^` and a trailing `$`. Patterns and texts are
    C strings, so the end of a string stands for its NUL. */
module Grep {
  /** One character, or any number of them. The character '.' stands for all. */
  datatype Item = One(c: char) | Many(c: char)

  datatype Regex = Nothing | End | Then(item: Item, rest: Regex)

  predicate Fits(c: char, x: char) {
    c == '.' || c == x
  }

  /** The pattern from position k on, read as an expression. A star makes a repetition of whatever precedes it, a
      dollar means the end only as the last character, and everything else stands for itself. */
  function Parse(re: string, k: nat): Regex
    requires k <= |re|
    decreases |re| - k
  {
    if k == |re| then Nothing
    else if k + 1 < |re| && re[k + 1] == '*' then Then(Many(re[k]), Parse(re, k + 2))
    else if re[k] == '$' && k + 1 == |re| then End
    else Then(One(re[k]), Parse(re, k + 1))
  }

  // ---- The language ----------------------------------------------------------------------------------

  /** The characters from i to j are what the item stands for. */
  ghost predicate Piece(item: Item, text: string, i: int, j: int)
    requires 0 <= i <= j <= |text|
  {
    match item
    case One(c) => j == i + 1 && Fits(c, text[i])
    case Many(c) => forall k :: i <= k < j ==> Fits(c, text[k])
  }

  /** The characters from i to j are in the language of the expression: they fall into pieces, one for each item
      in turn; a dollar holds only at the end of the text. */
  ghost predicate Denotes(r: Regex, text: string, i: int, j: int)
    requires 0 <= i <= j <= |text|
  {
    match r
    case Nothing => i == j
    case End => i == j == |text|
    case Then(item, rest) => exists m :: i <= m <= j && Piece(item, text, i, m) && Denotes(rest, text, m, j)
  }

  /** Some stretch of the text from i on is in the language. */
  ghost predicate Here(r: Regex, text: string, i: int)
    requires 0 <= i <= |text|
  {
    exists j :: i <= j <= |text| && Denotes(r, text, i, j)
  }

  /** The pattern, without its caret if it has one. */
  function Body(re: string): Regex {
    if Anchored(re) then Parse(re, 1) else Parse(re, 0)
  }

  predicate Anchored(re: string) {
    |re| > 0 && re[0] == '^'
  }

  /** Some substring of the text, starting where the pattern says, is in its language. */
  ghost predicate Found(re: string, text: string) {
    exists i, j :: 0 <= i <= j <= |text| && (Anchored(re) ==> i == 0) && Denotes(Body(re), text, i, j)
  }

  // ---- The matcher -----------------------------------------------------------------------------------

  lemma HereOne(c: char, rest: Regex, text: string, i: int)
    requires 0 <= i <= |text|
    ensures Here(Then(One(c), rest), text, i) <==> i < |text| && Fits(c, text[i]) && Here(rest, text, i + 1)
  {
    var r := Then(One(c), rest);
    if Here(r, text, i) {
      var j :| i <= j <= |text| && Denotes(r, text, i, j);
      var m :| i <= m <= j && Piece(One(c), text, i, m) && Denotes(rest, text, m, j);
      assert Here(rest, text, i + 1);
    }
    if i < |text| && Fits(c, text[i]) && Here(rest, text, i + 1) {
      var j :| i + 1 <= j <= |text| && Denotes(rest, text, i + 1, j);
      assert Piece(One(c), text, i, i + 1);
      assert Denotes(r, text, i, j);
    }
  }

  /** A repetition followed by the rest: the rest is found after some run of fitting characters. */
  lemma HereMany(c: char, rest: Regex, text: string, i: int)
    requires 0 <= i <= |text|
    ensures Here(Then(Many(c), rest), text, i) <==>
            exists m :: i <= m <= |text| && Piece(Many(c), text, i, m) && Here(rest, text, m)
  {
    var r := Then(Many(c), rest);
    if Here(r, text, i) {
      var j :| i <= j <= |text| && Denotes(r, text, i, j);
      var m :| i <= m <= j && Piece(Many(c), text, i, m) && Denotes(rest, text, m, j);
      assert Here(rest, text, m);
    }
    if exists m :: i <= m <= |text| && Piece(Many(c), text, i, m) && Here(rest, text, m) {
      var m :| i <= m <= |text| && Piece(Many(c), text, i, m) && Here(rest, text, m);
      var j :| m <= j <= |text| && Denotes(rest, text, m, j);
      assert Denotes(r, text, i, j);
    }
  }

  /** `matchhere` */
  method MatchHere(re: string, k: nat, text: string, i: nat) returns (found: bool)
    requires k <= |re| && i <= |text|
    ensures found <==> Here(Parse(re, k), text, i)
    decreases |re| - k, 0
  {
    if k == |re| {
      assert Denotes(Nothing, text, i, i);
      return true;
    }
    if k + 1 < |re| && re[k + 1] == '*' {
      found := MatchStar(re[k], re, k + 2, text, i);
      HereMany(re[k], Parse(re, k + 2), text, i);
      return;
    }
    if re[k] == '$' && k + 1 == |re| {
      assert i == |text| ==> Denotes(End, text, i, i);
      return i == |text|;
    }
    HereOne(re[k], Parse(re, k + 1), text, i);
    if i < |text| && (re[k] == '.' || re[k] == text[i]) {
      found := MatchHere(re, k + 1, text, i + 1);
      return;
    }
    return false;
  }

  /** `matchstar` */
  method MatchStar(c: char, re: string, k: nat, text: string, i: nat) returns (found: bool)
    requires k <= |re| && i <= |text|
    ensures found <==> exists m :: i <= m <= |text| && Piece(Many(c), text, i, m) && Here(Parse(re, k), text, m)
    decreases |re| - k, 1
  {
    var t := i;
    while true
      invariant i <= t <= |text| && Piece(Many(c), text, i, t)
      invariant forall m :: i <= m < t ==> !Here(Parse(re, k), text, m)
      decreases |text| - t
    {
      found := MatchHere(re, k, text, t);
      if found {
        return true;
      }
      if !(t < |text| && (text[t] == c || c == '.')) {
        return false;
      }
      t := t + 1;
    }
  }

  lemma FoundIff(re: string, text: string)
    ensures Found(re, text) <==>
            if Anchored(re) then Here(Body(re), text, 0) else exists i :: 0 <= i <= |text| && Here(Body(re), text, i)
  {
    if Found(re, text) {
      var i, j :| 0 <= i <= j <= |text| && (Anchored(re) ==> i == 0) && Denotes(Body(re), text, i, j);
      assert Here(Body(re), text, i);
    }
    if i :| 0 <= i <= |text| && (Anchored(re) ==> i == 0) && Here(Body(re), text, i) {
      var j :| i <= j <= |text| && Denotes(Body(re), text, i, j);
    }
  }

  /** `match`: exactly when some substring, anchored where the pattern says so, is in the pattern's language. */
  method Match(re: string, text: string) returns (found: bool)
    ensures found <==> Found(re, text)
  {
    FoundIff(re, text);
    if Anchored(re) {
      found := MatchHere(re, 1, text, 0);
      return;
    }
    var t := 0;
    while true
      invariant 0 <= t <= |text| && forall m :: 0 <= m < t ==> !Here(Body(re), text, m)
      decreases |text| - t
    {
      found := MatchHere(re, 0, text, t);
      assert found <==> Here(Body(re), text, t);
      if found {
        return true;
      }
      if t == |text| {
        return false;
      }
      t := t + 1;
    }
  }

  // ---- Patterns as they are written -----------------------------------------------------------------

  /** An expression as it is written. */
  function Show(r: Regex): string {
    match r
    case Nothing => ""
    case End => "$"
    case Then(One(c), rest) => [c] + Show(rest)
    case Then(Many(c), rest) => [c, '*'] + Show(rest)
  }

  /** What can be written: nothing but a repetition is followed by a star, and a last dollar means the end. */
  predicate Writable(r: Regex) {
    match r
    case Then(One(c), rest) => Writable(rest) && (rest == Nothing ==> c != '$') && (rest.Then? ==> rest.item.c != '*')
    case Then(Many(_), rest) => Writable(rest)
    case _ => true
  }

  /** Reading what was written gives the expression back, */
  lemma {:induction false} ParseOfShow(re: string, k: nat, r: Regex)
    requires k <= |re| && re[k..] == Show(r) && Writable(r)
    ensures Parse(re, k) == r
    decreases r
  {
    match r
    case Nothing =>
    case End =>
      assert re[k] == re[k..][0] == '$';
    case Then(One(c), rest) =>
      assert re[k] == re[k..][0] == c && re[k + 1..] == re[k..][1..] == Show(rest);
      assert k + 1 < |re| ==> re[k + 1] == re[k + 1..][0];
      ParseOfShow(re, k + 1, rest);
    case Then(Many(c), rest) =>
      assert re[k] == re[k..][0] == c && re[k + 1] == re[k..][1] == '*' && re[k + 2..] == re[k..][2..] == Show(rest);
      ParseOfShow(re, k + 2, rest);
  }

  /** and every pattern is the writing of what is read in it. */
  lemma {:induction false} ShowOfParse(re: string, k: nat)
    requires k <= |re|
    ensures Show(Parse(re, k)) == re[k..] && Writable(Parse(re, k))
    decreases |re| - k
  {
    if k < |re| {
      if k + 1 < |re| && re[k + 1] == '*' {
        ShowOfParse(re, k + 2);
        assert re[k..] == [re[k], '*'] + re[k + 2..];
      } else if !(re[k] == '$' && k + 1 == |re|) {
        ShowOfParse(re, k + 1);
        assert re[k..] == [re[k]] + re[k + 1..];
      } else {
        assert re[k..] == "$";
      }
    }
  }

  // ---- What patterns find ----------------------------------------------------------------------------

  /** Characters that stand for themselves, and dots. */
  predicate IsDotted(p: string) {
    forall k :: 0 <= k < |p| ==> p[k] != '*' && p[k] != '$' && p[k] != '^'
  }

  /** The text has p at i, with any character for a dot. */
  predicate Reads(p: string, text: string, i: nat) {
    i + |p| <= |text| && forall q :: 0 <= q < |p| ==> p[q] == '.' || p[q] == text[i + q]
  }

  lemma {:induction false} DottedDenotes(re: string, k: nat, p: string, dollar: bool, text: string, i: nat, j: nat)
    requires k <= |re| && IsDotted(p) && re[k..] == p + (if dollar then "$" else "") && i <= j <= |text|
    ensures Denotes(Parse(re, k), text, i, j) <==> Reads(p, text, i) && j == i + |p| && (dollar ==> j == |text|)
    decreases |p|
  {
    var end := if dollar then "$" else "";
    if p == "" {
      assert dollar ==> re[k] == re[k..][0] == '$';
    } else {
      var rest := Parse(re, k + 1);
      assert re[k] == re[k..][0] == p[0] && re[k + 1..] == re[k..][1..] == p[1..] + end;
      assert k + 1 < |re| ==> re[k + 1] == re[k + 1..][0] == (p[1..] + end)[0];
      assert Parse(re, k) == Then(One(p[0]), rest);
      if i < j {
        DottedDenotes(re, k + 1, p[1..], dollar, text, i + 1, j);
        assert Piece(One(p[0]), text, i, i + 1) <==> p[0] == '.' || p[0] == text[i];
        ReadsFirst(p, text, i);
      }
    }
  }

  lemma ReadsFirst(p: string, text: string, i: nat)
    requires p != "" && i < |text|
    ensures Reads(p, text, i) <==> (p[0] == '.' || p[0] == text[i]) && Reads(p[1..], text, i + 1)
  {
    if Reads(p, text, i) {
      forall q | 0 <= q < |p[1..]| ensures p[1..][q] == '.' || p[1..][q] == text[i + 1 + q] {
        assert p[1..][q] == p[q + 1];
      }
    }
    if (p[0] == '.' || p[0] == text[i]) && Reads(p[1..], text, i + 1) {
      forall q | 0 <= q < |p| ensures p[q] == '.' || p[q] == text[i + q] {
        assert q > 0 ==> p[q] == p[1..][q - 1];
      }
    }
  }

  /** A pattern without a star: found where its characters are, at the start after a caret and at the end before a
      dollar. */
  lemma DottedFound(p: string, caret: bool, dollar: bool, text: string)
    requires IsDotted(p)
    ensures Found((if caret then "^" else "") + p + (if dollar then "$" else ""), text) <==>
            exists i: nat :: Reads(p, text, i) && (caret ==> i == 0) && (dollar ==> i + |p| == |text|)
  {
    var re, k := (if caret then "^" else "") + p + (if dollar then "$" else ""), if caret then 1 else 0;
    assert re[k..] == p + (if dollar then "$" else "");
    assert !caret && re != "" ==> re[0] == re[k..][0];
    assert Anchored(re) <==> caret;
    forall i: nat, j: nat | i <= j <= |text|
      ensures Denotes(Body(re), text, i, j) <==> Reads(p, text, i) && j == i + |p| && (dollar ==> j == |text|)
    {
      DottedDenotes(re, k, p, dollar, text, i, j);
    }
    if i: nat :| Reads(p, text, i) && (caret ==> i == 0) && (dollar ==> i + |p| == |text|) {
      assert Denotes(Body(re), text, i, i + |p|);
    }
  }

  /** With a star: at the start of the text a run of the starred character, of any characters for a dot, and then the
      rest. */
  lemma StarFound(c: char, p: string, dollar: bool, text: string)
    requires IsDotted(p)
    ensures Found(['^', c, '*'] + p + (if dollar then "$" else ""), text) <==>
            exists m: nat :: Run(c, text, m) && Reads(p, text, m) && (dollar ==> m + |p| == |text|)
  {
    var re := ['^', c, '*'] + p + (if dollar then "$" else "");
    var rest := Parse(re, 3);
    assert re[3..] == p + (if dollar then "$" else "");
    assert Anchored(re) && Body(re) == Then(Many(c), rest);
    if Found(re, text) {
      var j :| 0 <= j <= |text| && Denotes(Body(re), text, 0, j);
      var m :| 0 <= m <= j && Piece(Many(c), text, 0, m) && Denotes(rest, text, m, j);
      DottedDenotes(re, 3, p, dollar, text, m, j);
      assert Run(c, text, m);
    }
    if m: nat :| Run(c, text, m) && Reads(p, text, m) && (dollar ==> m + |p| == |text|) {
      DottedDenotes(re, 3, p, dollar, text, m, m + |p|);
      assert Piece(Many(c), text, 0, m) && Denotes(rest, text, m, m + |p|);
      assert Denotes(Body(re), text, 0, m + |p|);
    }
  }

  /** The first m characters of the text are c, or c is a dot. */
  predicate Run(c: char, text: string, m: nat) {
    m <= |text| && forall k :: 0 <= k < m ==> c == '.' || text[k] == c
  }

  /** Without special characters, grep looks for the pattern as it stands. */
  lemma PlainFound(re: string, text: string)
    requires forall k :: 0 <= k < |re| ==> re[k] != '.' && re[k] != '*' && re[k] != '$' && re[k] != '^'
    ensures Found(re, text) <==> exists i, j :: 0 <= i <= j <= |text| && text[i..j] == re
  {
    DottedFound(re, false, false, text);
    assert "" + re + "" == re;
    if i, j :| 0 <= i <= j <= |text| && text[i..j] == re {
      assert forall q :: 0 <= q < |re| ==> re[q] == text[i..j][q];
      assert Reads(re, text, i);
    }
    if i: nat :| Reads(re, text, i) {
      assert text[i..i + |re|] == re;
    }
  }
}
