// The shell parser on the text of a line, and the end marks it puts into it.
module ShellParse {
  import opened Tokens
  import opened Grammar

  // ----- the scanner -----

  method SkipFrom(s: string, i: nat) returns (j: nat)
    requires i <= |s|
    ensures j == SkipWhite(s, i) <= |s|
  {
    j := i;
    while j < |s| && IsWhite(s[j])
      invariant i <= j <= |s| && SkipWhite(s, j) == SkipWhite(s, i)
    {
      j := j + 1;
    }
  }

  method ScanQuote(s: string, i: nat, c: char) returns (j: nat)
    requires i <= |s|
    ensures j == QuoteEnd(s, i, c) <= |s|
  {
    j := i;
    while j < |s| && s[j] != c
      invariant i <= j <= |s| && QuoteEnd(s, j, c) == QuoteEnd(s, i, c)
    {
      j := j + 1;
    }
  }

  method ScanWord(s: string, i: nat) returns (j: nat)
    requires i <= |s|
    ensures j == WordEnd(s, i) <= |s|
  {
    j := i;
    while j < |s| && !IsWhite(s[j]) && !IsSymbol(s[j])
      invariant i <= j <= |s| && WordEnd(s, j) == WordEnd(s, i)
    {
      j := j + 1;
    }
  }

  // What gettoken gives: nothing at the end of the line, a failure for a quote left open, or
  // a token with its place and where to go on.
  datatype Got = AtEnd(pos: nat) | Failure | Got(kind: Kind, q: nat, eq: nat, pos: nat)

  ghost predicate GotRight(s: string, pos: nat, g: Got) {
    match g
    case AtEnd(p) => Lex(s, pos) == [] && p == |s|
    case Failure => |Lex(s, pos)| > 0 && Lex(s, pos)[0].kind == Broken
    case Got(kind, q, eq, p) =>
      && |Lex(s, pos)| > 0 && kind != Broken && kind == Lex(s, pos)[0].kind && p <= |s| && Lex(s, p) == Lex(s, pos)[1..]
      && (kind == Plain ==> Lex(s, pos)[0].span == Span(q, eq))
      && (kind == Quoted ==> eq > 0 && Lex(s, pos)[0].span == Span(q + 1, eq - 1))
  }

  method GetToken(s: string, pos: nat) returns (g: Got)
    requires pos <= |s|
    ensures GotRight(s, pos, g)
  {
    var i := SkipFrom(s, pos);
    if i == |s| { return AtEnd(i); }
    var q := i;
    var kind;
    kind, i := ScanToken(s, q);
    if kind == Broken { return Failure; }
    var p := SkipFrom(s, i);
    LexSkips(s, i);
    assert Lex(s, pos) == [TokenAt(s, q).0] + Lex(s, i);
    return Got(kind, q, i, p);
  }

  // The switch of gettoken.
  method ScanToken(s: string, q: nat) returns (kind: Kind, i: nat)
    requires q < |s| && !IsWhite(s[q])
    ensures var (t, p) := TokenAt(s, q);
      && kind == t.kind && i == p
      && (kind == Plain ==> t.span == Span(q, i))
      && (kind == Quoted ==> i > 0 && t.span == Span(q + 1, i - 1))
  {
    i, kind := q, Plain;
    if IsQuote(s[q]) {
      var e := ScanQuote(s, q + 1, s[q]);
      if e == |s| { return Broken, e; }
      kind, i := Quoted, e + 1;
    } else if s[q] == '>' {
      kind, i := Greater, q + 1;
      if i < |s| && s[i] == '>' {
        kind, i := Append, i + 1;
      }
    } else if IsSymbol(s[q]) {
      kind, i := SymbolKind(s[q]), q + 1;
    } else {
      i := ScanWord(s, q);
    }
  }

  // The symbols that peek is asked for, and the kinds of token they begin.
  function Begins(k: Kind): char {
    match k
    case Bar => '|'
    case Open => '('
    case Close => ')'
    case Semi => ';'
    case Amp => '&'
    case Less => '<'
    case Greater => '>'
    case Append => '>'
    case _ => '\0'
  }

  // peek
  method Peek(s: string, pos: nat, toks: string) returns (hit: bool, p: nat)
    requires pos <= |s| && forall c :: c in toks ==> IsSymbol(c)
    ensures p == SkipWhite(s, pos) <= |s| && Lex(s, p) == Lex(s, pos)
    ensures hit <==> |Lex(s, pos)| > 0 && Begins(Lex(s, pos)[0].kind) in toks
  {
    p := SkipFrom(s, pos);
    LexSkips(s, pos);
    hit := p < |s| && s[p] in toks;
    if p < |s| {
      assert Lex(s, p) == [TokenAt(s, p).0] + Lex(s, TokenAt(s, p).1);
      FirstChar(s, p);
      assert '\0' !in toks;
    }
  }

  lemma FirstChar(s: string, a: nat)
    requires a < |s| && !IsWhite(s[a])
    ensures IsSymbol(s[a]) ==> Begins(TokenAt(s, a).0.kind) == s[a]
    ensures !IsSymbol(s[a]) ==> Begins(TokenAt(s, a).0.kind) == '\0'
  {
  }

  lemma Peeked(k: Kind)
    ensures Begins(k) in "(" <==> k == Open
    ensures Begins(k) in ")" <==> k == Close
    ensures Begins(k) in "|" <==> k == Bar
    ensures Begins(k) in "&" <==> k == Amp
    ensures Begins(k) in ";" <==> k == Semi
    ensures Begins(k) in "<>" <==> IsRedirSign(k)
    ensures Begins(k) in "|)&;" <==> StopsItems(k)
  {
  }

  // ----- the parser -----

  // A panic, or a command and where to go on.
  datatype Result = Panic | Parsed(cmd: Cmd, pos: nat)

  ghost predicate Follows(s: string, p: Option<Parse>, r: Result) {
    match p
    case None => r == Panic
    case Some(q) => r.Parsed? && r.cmd == q.cmd && r.pos <= |s| && Lex(s, r.pos) == q.rest
  }

  function AddItems(args: seq<Span>, rs: seq<Redirection>, p: Option<ItemsParse>): Option<ItemsParse> {
    match p
    case None => None
    case Some(q) => Some(ItemsParse(args + q.args, rs + q.rs, q.rest))
  }

  lemma AddTwice(a: seq<Span>, r: seq<Redirection>, b: seq<Span>, u: seq<Redirection>, p: Option<ItemsParse>)
    ensures AddItems(a, r, AddItems(b, u, p)) == AddItems(a + b, r + u, p)
    ensures AddItems([], [], p) == p
  {
    if p.Some? {
      assert a + (b + p.value.args) == (a + b) + p.value.args && r + (u + p.value.rs) == (r + u) + p.value.rs;
      assert [] + p.value.args == p.value.args && [] + p.value.rs == p.value.rs;
    }
  }

  // One redirection more, in both uses of parseredirs.
  lemma OneRedir(t: seq<Tok>, argc: nat)
    requires |t| > 1 && IsRedirSign(t[0].kind) && t[1].kind == Plain
    ensures var r := [Redirection(t[0].kind, t[1].span)];
      && ParseItems(t, argc) == AddItems([], r, ParseItems(t[2..], argc))
      && ParseRedirs(t) == AddItems([], r, ParseRedirs(t[2..]))
  {
    var p, q := ParseItems(t[2..], argc), ParseRedirs(t[2..]);
    assert p.Some? ==> [] + p.value.args == p.value.args;
    assert q.Some? ==> [] + q.value.args == q.value.args;
  }

  // parseredirs; failing it gives None.
  method GetRedirs(s: string, pos0: nat, ghost argc: nat) returns (r: Option<seq<Redirection>>, pos: nat)
    requires pos0 <= |s|
    ensures pos <= |s| && |Lex(s, pos)| <= |Lex(s, pos0)|
    ensures r.None? ==> ParseItems(Lex(s, pos0), argc).None? && ParseRedirs(Lex(s, pos0)).None?
    ensures r.Some? ==> |Lex(s, pos)| == 0 || !IsRedirSign(Lex(s, pos)[0].kind)
    ensures r.Some? ==> ParseItems(Lex(s, pos0), argc) == AddItems([], r.value, ParseItems(Lex(s, pos), argc))
    ensures r.Some? ==> ParseRedirs(Lex(s, pos0)) == Some(ItemsParse([], r.value, Lex(s, pos)))
  {
    var rs: seq<Redirection> := [];
    var hit;
    hit, pos := Peek(s, pos0, "<>");
    ghost var t0 := Lex(s, pos0);
    AddTwice([], [], [], [], ParseItems(t0, argc));
    AddTwice([], [], [], [], ParseRedirs(t0));
    if |t0| > 0 { Peeked(t0[0].kind); }
    while hit
      invariant pos <= |s| && |Lex(s, pos)| <= |t0|
      invariant hit <==> |Lex(s, pos)| > 0 && IsRedirSign(Lex(s, pos)[0].kind)
      invariant ParseItems(t0, argc) == AddItems([], rs, ParseItems(Lex(s, pos), argc))
      invariant ParseRedirs(t0) == AddItems([], rs, ParseRedirs(Lex(s, pos)))
      decreases |Lex(s, pos)|
    {
      var one, pos' := GetRedir(s, pos, argc);
      if one.None? { return None, pos; }
      AddTwice([], rs, [], [one.value], ParseItems(Lex(s, pos'), argc));
      AddTwice([], rs, [], [one.value], ParseRedirs(Lex(s, pos')));
      rs := rs + [one.value];
      hit, pos := Peek(s, pos', "<>");
      if |Lex(s, pos)| > 0 { Peeked(Lex(s, pos)[0].kind); }
    }
    assert rs + [] == rs;
    r := Some(rs);
  }

  // One redirection sign and its file.
  method GetRedir(s: string, pos0: nat, ghost argc: nat) returns (r: Option<Redirection>, pos: nat)
    requires pos0 <= |s| && |Lex(s, pos0)| > 0 && IsRedirSign(Lex(s, pos0)[0].kind)
    ensures pos <= |s|
    ensures r.None? ==> ParseItems(Lex(s, pos0), argc).None? && ParseRedirs(Lex(s, pos0)).None?
    ensures r.Some? ==> |Lex(s, pos)| < |Lex(s, pos0)|
    ensures r.Some? ==> ParseItems(Lex(s, pos0), argc) == AddItems([], [r.value], ParseItems(Lex(s, pos), argc))
    ensures r.Some? ==> ParseRedirs(Lex(s, pos0)) == AddItems([], [r.value], ParseRedirs(Lex(s, pos)))
  {
    ghost var t := Lex(s, pos0);
    var sign := GetToken(s, pos0);
    var file := GetToken(s, sign.pos);
    if !(file.Got? && file.kind == Plain) { return None, pos0; }
    r, pos := Some(Redirection(sign.kind, Span(file.q, file.eq))), file.pos;
    OneRedir(t, argc);
    assert t[1..][1..] == t[2..];
  }

  // In the loop of parseexec, so far with these words and redirections.
  ghost predicate InWords(s: string, t0: seq<Tok>, args: seq<Span>, rs: seq<Redirection>, pos: nat) {
    && pos <= |s| && |args| < MAXARGS && (|Lex(s, pos)| == 0 || !IsRedirSign(Lex(s, pos)[0].kind))
    && ParseItems(t0, 0) == AddItems(args, rs, ParseItems(Lex(s, pos), |args|))
  }

  // parseexec, of a command that is not in parentheses.
  method ParseWords(s: string, pos0: nat) returns (r: Result)
    requires pos0 <= |s| && (|Lex(s, pos0)| > 0 ==> Lex(s, pos0)[0].kind != Open)
    ensures Follows(s, ParseSimple(Lex(s, pos0)), r)
  {
    ghost var t0 := Lex(s, pos0);
    var args: seq<Span>, pos: nat := [], pos0;
    var got;
    got, pos := GetRedirs(s, pos0, 0);
    if got.None? { return Panic; }
    var rs := got.value;
    var hit;
    hit, pos := Peek(s, pos, "|)&;");
    if |Lex(s, pos)| > 0 { Peeked(Lex(s, pos)[0].kind); }
    while !hit
      invariant InWords(s, t0, args, rs, pos) && (hit <==> |Lex(s, pos)| > 0 && StopsItems(Lex(s, pos)[0].kind))
      decreases |Lex(s, pos)|, if hit then 0 else 1
    {
      var ok, end;
      ok, end, args, rs, pos := NextWord(s, args, rs, pos, t0);
      if !ok { return Panic; }
      if end { break; }
      hit, pos := Peek(s, pos, "|)&;");
      if |Lex(s, pos)| > 0 { Peeked(Lex(s, pos)[0].kind); }
    }
    WordsEnd(s, t0, args, rs, pos);
    r := Parsed(Wrap(Exec(args), rs), pos);
  }

  lemma WordsEnd(s: string, t0: seq<Tok>, args: seq<Span>, rs: seq<Redirection>, pos: nat)
    requires InWords(s, t0, args, rs, pos) && (|Lex(s, pos)| == 0 || StopsItems(Lex(s, pos)[0].kind))
    ensures ParseItems(t0, 0) == Some(ItemsParse(args, rs, Lex(s, pos)))
  {
    assert args + [] == args && rs + [] == rs;
  }

  // One word more, and the redirections behind it.
  method NextWord(s: string, args0: seq<Span>, rs0: seq<Redirection>, pos0: nat, ghost t0: seq<Tok>)
    returns (ok: bool, end: bool, args: seq<Span>, rs: seq<Redirection>, pos: nat)
    requires InWords(s, t0, args0, rs0, pos0) && (|Lex(s, pos0)| > 0 ==> !StopsItems(Lex(s, pos0)[0].kind))
    ensures !ok ==> ParseItems(t0, 0) == None
    ensures ok ==> InWords(s, t0, args, rs, pos)
    ensures ok && end ==> Lex(s, pos) == []
    ensures ok && !end ==> |Lex(s, pos)| < |Lex(s, pos0)|
  {
    ok, end, args, pos := WordAhead(s, args0, rs0, pos0, t0);
    rs := rs0;
    if ok && !end { ok, rs, pos := RedirsBehind(s, args, rs0, pos, t0); }
  }

  method WordAhead(s: string, args0: seq<Span>, rs0: seq<Redirection>, pos0: nat, ghost t0: seq<Tok>)
    returns (ok: bool, end: bool, args: seq<Span>, pos: nat)
    requires InWords(s, t0, args0, rs0, pos0) && (|Lex(s, pos0)| > 0 ==> !StopsItems(Lex(s, pos0)[0].kind))
    ensures !ok ==> ParseItems(t0, 0) == None
    ensures ok && end ==> args == args0 && pos == pos0 && Lex(s, pos) == []
    ensures ok && !end ==> pos <= |s| && |Lex(s, pos)| < |Lex(s, pos0)| && |args| < MAXARGS
    ensures ok && !end ==> ParseItems(t0, 0) == AddItems(args, rs0, ParseItems(Lex(s, pos), |args|))
  {
    args, ok := args0, true;
    var word;
    end, word, pos := GetWord(s, pos0);
    if end { return; }
    if word.None? {
      ok := false;
      return;
    }
    OneWord(Lex(s, pos0), args, rs0, word.value);
    args := args + [word.value];
    ok := |args| < MAXARGS;
  }

  method RedirsBehind(s: string, args: seq<Span>, rs0: seq<Redirection>, pos0: nat, ghost t0: seq<Tok>)
    returns (ok: bool, rs: seq<Redirection>, pos: nat)
    requires pos0 <= |s| && |args| < MAXARGS
    requires ParseItems(t0, 0) == AddItems(args, rs0, ParseItems(Lex(s, pos0), |args|))
    ensures !ok ==> ParseItems(t0, 0) == None
    ensures ok ==> InWords(s, t0, args, rs, pos) && |Lex(s, pos)| <= |Lex(s, pos0)|
  {
    var got;
    got, pos := GetRedirs(s, pos0, |args|);
    if got.None? { return false, rs0, pos; }
    MoreRedirs(args, rs0, got.value, ParseItems(Lex(s, pos), |args|));
    ok, rs := true, rs0 + got.value;
  }

  lemma MoreRedirs(args: seq<Span>, rs: seq<Redirection>, more: seq<Redirection>, p: Option<ItemsParse>)
    ensures AddItems(args, rs, AddItems([], more, p)) == AddItems(args, rs + more, p)
  {
    AddTwice(args, rs, [], more, p);
    assert args + [] == args;
  }

  // The text of a plain or quoted word, without its quotes.
  method GetWord(s: string, pos0: nat) returns (end: bool, word: Option<Span>, pos: nat)
    requires pos0 <= |s|
    ensures end <==> Lex(s, pos0) == []
    ensures end ==> pos == pos0
    ensures !end ==> (word.Some? <==> IsWord(Lex(s, pos0)[0])) && pos <= |s|
    ensures !end && word.Some? ==> word.value == Lex(s, pos0)[0].span && Lex(s, pos) == Lex(s, pos0)[1..]
  {
    var tok := GetToken(s, pos0);
    end, word, pos := tok.AtEnd?, None, pos0;
    if tok.Got? && (tok.kind == Plain || tok.kind == Quoted) {
      pos := tok.pos;
      word := Some(if tok.kind == Quoted then Span(tok.q + 1, tok.eq - 1) else Span(tok.q, tok.eq));
    }
  }

  lemma OneWord(t: seq<Tok>, args: seq<Span>, rs: seq<Redirection>, word: Span)
    requires |t| > 0 && IsWord(t[0]) && t[0].span == word && |args| < MAXARGS
    ensures AddItems(args, rs, ParseItems(t, |args|)) ==
      if |args| + 1 >= MAXARGS then None else AddItems(args + [word], rs, ParseItems(t[1..], |args| + 1))
  {
    if |args| + 1 < MAXARGS {
      var p := ParseItems(t[1..], |args| + 1);
      if p.Some? { assert args + ([word] + p.value.args) == (args + [word]) + p.value.args; }
    }
  }

  // parseexec
  method ParseExec(s: string, pos0: nat) returns (r: Result)
    requires pos0 <= |s|
    ensures Follows(s, ParseSimple(Lex(s, pos0)), r)
    decreases |Lex(s, pos0)|, 1
  {
    var hit, pos := Peek(s, pos0, "(");
    if |Lex(s, pos)| > 0 { Peeked(Lex(s, pos)[0].kind); }
    if hit {
      r := ParseBlock(s, pos);
    } else {
      r := ParseWords(s, pos);
    }
  }

  // parseblock, from its parenthesis on.
  method ParseBlock(s: string, pos0: nat) returns (r: Result)
    requires pos0 <= |s| && |Lex(s, pos0)| > 0 && Lex(s, pos0)[0].kind == Open
    ensures Follows(s, ParseSimple(Lex(s, pos0)), r)
    decreases |Lex(s, pos0)|, 0
  {
    var open := GetToken(s, pos0);
    var inner := ParseLine(s, open.pos);
    if inner.Panic? { return Panic; }
    var hit, pos := Peek(s, inner.pos, ")");
    if |Lex(s, pos)| > 0 { Peeked(Lex(s, pos)[0].kind); }
    if !hit { return Panic; }
    var close := GetToken(s, pos);
    var rs;
    rs, pos := GetRedirs(s, close.pos, 0);
    if rs.None? { return Panic; }
    r := Parsed(Wrap(inner.cmd, rs.value), pos);
  }

  // parsepipe
  method ParsePipeline(s: string, pos0: nat) returns (r: Result)
    requires pos0 <= |s|
    ensures Follows(s, ParsePipe(Lex(s, pos0)), r)
    decreases |Lex(s, pos0)|, 2
  {
    r := ParseExec(s, pos0);
    if r.Panic? { return; }
    var hit, pos := Peek(s, r.pos, "|");
    if |Lex(s, pos)| > 0 { Peeked(Lex(s, pos)[0].kind); }
    if hit {
      var bar := GetToken(s, pos);
      var right := ParsePipeline(s, bar.pos);
      r := if right.Panic? then Panic else Parsed(Pipe(r.cmd, right.cmd), right.pos);
    }
  }

  // parseline
  method ParseLine(s: string, pos0: nat) returns (r: Result)
    requires pos0 <= |s|
    ensures Follows(s, Grammar.ParseLine(Lex(s, pos0)), r)
    decreases |Lex(s, pos0)|, 3
  {
    r := ParsePipeline(s, pos0);
    if r.Panic? { return; }
    r := ParseAmps(s, r.cmd, r.pos);
    var hit, pos := Peek(s, r.pos, ";");
    if |Lex(s, pos)| > 0 { Peeked(Lex(s, pos)[0].kind); }
    if hit {
      var semi := GetToken(s, pos);
      var right := ParseLine(s, semi.pos);
      r := if right.Panic? then Panic else Parsed(List(r.cmd, right.cmd), right.pos);
    }
  }

  // The loop of parseline.
  method ParseAmps(s: string, cmd0: Cmd, pos0: nat) returns (r: Result)
    requires pos0 <= |s|
    ensures r.Parsed? && r.pos <= |s|
      && Grammar.Parse(r.cmd, Lex(s, r.pos)) == ParseBacks(Grammar.Parse(cmd0, Lex(s, pos0)))
  {
    var cmd, hit, pos: nat := cmd0, false, pos0;
    hit, pos := Peek(s, pos0, "&");
    if |Lex(s, pos)| > 0 { Peeked(Lex(s, pos)[0].kind); }
    while hit
      invariant pos <= |s| && (hit <==> |Lex(s, pos)| > 0 && Lex(s, pos)[0].kind == Amp)
      invariant ParseBacks(Grammar.Parse(cmd, Lex(s, pos))) == ParseBacks(Grammar.Parse(cmd0, Lex(s, pos0)))
      decreases |Lex(s, pos)|
    {
      var amp := GetToken(s, pos);
      cmd := Back(cmd);
      hit, pos := Peek(s, amp.pos, "&");
      if |Lex(s, pos)| > 0 { Peeked(Lex(s, pos)[0].kind); }
    }
    r := Parsed(cmd, pos);
  }

  // ----- the end marks -----

  // b' is b with an end mark at the end of every word of the bag.
  ghost predicate Marked(b: seq<char>, b': seq<char>, bag: multiset<Span>) {
    |b'| == |b| && forall k {:trigger b'[k]} :: 0 <= k < |b| ==>
      b'[k] == if Ends(bag, k) then '\0' else b[k]
  }

  ghost predicate Ends(bag: multiset<Span>, k: int) { exists w {:trigger bag[w]} :: bag[w] > 0 && w.to == k }

  ghost predicate Inside(n: nat, bag: multiset<Span>) {
    forall w {:trigger bag[w]} :: bag[w] > 0 ==> w.to < n
  }

  lemma InsideSum(n: nat, a: multiset<Span>, b: multiset<Span>)
    requires Inside(n, a + b)
    ensures Inside(n, a) && Inside(n, b)
  {
    forall w | a[w] > 0 || b[w] > 0 ensures w.to < n { assert (a + b)[w] > 0; }
  }

  lemma EndsSum(a: multiset<Span>, b: multiset<Span>, k: int)
    ensures Ends(a + b, k) <==> Ends(a, k) || Ends(b, k)
  {
    if Ends(a, k) {
      var w :| a[w] > 0 && w.to == k;
      assert (a + b)[w] > 0;
    }
    if Ends(b, k) {
      var w :| b[w] > 0 && w.to == k;
      assert (a + b)[w] > 0;
    }
  }

  lemma MarkedTwice(b: seq<char>, b1: seq<char>, b2: seq<char>, u: multiset<Span>, v: multiset<Span>)
    requires Marked(b, b1, u) && Marked(b1, b2, v)
    ensures Marked(b, b2, u + v)
  {
    forall k | 0 <= k < |b| ensures b2[k] == if Ends(u + v, k) then '\0' else b[k] {
      EndsSum(u, v, k);
      assert b1[k] == if Ends(u, k) then '\0' else b[k];
    }
  }

  lemma MarkedOne(b: seq<char>, w: Span)
    requires w.to < |b|
    ensures Marked(b, b[w.to := '\0'], multiset{w})
  {
    forall k | 0 <= k < |b| ensures b[w.to := '\0'][k] == if Ends(multiset{w}, k) then '\0' else b[k] {
      assert multiset{w}[w] > 0;
    }
  }

  function Size(c: Cmd): (n: nat)
    ensures n > 0
  {
    match c
    case Exec(_) => 1
    case Redir(cmd, _) => 1 + Size(cmd)
    case Pipe(left, right) => 1 + Size(left) + Size(right)
    case List(left, right) => 1 + Size(left) + Size(right)
    case Back(cmd) => 1 + Size(cmd)
  }

  // nulterminate
  method NulTerminate(buf: array<char>, cmd: Cmd)
    requires Inside(buf.Length, Spans(cmd))
    modifies buf
    ensures Marked(old(buf[..]), buf[..], Spans(cmd))
    decreases Size(cmd)
  {
    match cmd
    case Exec(args) =>
      MarkArgs(buf, args);
    case Redir(c, r) =>
      InsideSum(buf.Length, Spans(c), multiset{r.file});
      assert multiset{r.file}[r.file] > 0;
      NulTerminate(buf, c);
      MarkOne(buf, r.file, old(buf[..]), Spans(c));
    case Pipe(left, right) =>
      InsideSum(buf.Length, Spans(left), Spans(right));
      MarkBoth(buf, left, right);
    case List(left, right) =>
      InsideSum(buf.Length, Spans(left), Spans(right));
      MarkBoth(buf, left, right);
    case Back(c) =>
      NulTerminate(buf, c);
  }

  method MarkBoth(buf: array<char>, left: Cmd, right: Cmd)
    requires Inside(buf.Length, Spans(left)) && Inside(buf.Length, Spans(right))
    modifies buf
    ensures Marked(old(buf[..]), buf[..], Spans(left) + Spans(right))
    decreases Size(left) + Size(right)
  {
    NulTerminate(buf, left);
    ghost var b := buf[..];
    NulTerminate(buf, right);
    MarkedTwice(old(buf[..]), b, buf[..], Spans(left), Spans(right));
  }

  method MarkOne(buf: array<char>, w: Span, ghost b0: seq<char>, ghost bag: multiset<Span>)
    requires w.to < buf.Length && Marked(b0, buf[..], bag)
    modifies buf
    ensures Marked(b0, buf[..], bag + multiset{w})
  {
    ghost var b := buf[..];
    buf[w.to] := '\0';
    assert buf[..] == b[w.to := '\0'];
    MarkedOne(b, w);
    MarkedTwice(b0, b, buf[..], bag, multiset{w});
  }

  method MarkArgs(buf: array<char>, args: seq<Span>)
    requires Inside(buf.Length, multiset(args))
    modifies buf
    ensures Marked(old(buf[..]), buf[..], multiset(args))
  {
    var i := 0;
    while i < |args|
      invariant 0 <= i <= |args| && Marked(old(buf[..]), buf[..], multiset(args[..i]))
    {
      assert args[i] in args && multiset(args)[args[i]] > 0;
      MarkOne(buf, args[i], old(buf[..]), multiset(args[..i]));
      assert args[..i + 1] == args[..i] + [args[i]];
      i := i + 1;
    }
    assert args[..i] == args;
  }

  // ----- every word reads as it was written -----

  lemma {:induction false} WordAmong(t: seq<Tok>, w: Span) returns (i: nat)
    requires Words(t)[w] > 0
    ensures i < |t| && IsWord(t[i]) && t[i].span == w
  {
    if IsWord(t[0]) && t[0].span == w {
      i := 0;
    } else {
      var j := WordAmong(t[1..], w);
      i := j + 1;
    }
  }

  // The marks of the words of a line lie behind their words and in no other.
  lemma MarksApart(s: string, w: Span, v: Span)
    requires Words(Lex(s, 0))[w] > 0 && Words(Lex(s, 0))[v] > 0
    ensures w.from <= w.to <= |s| && !(w.from <= v.to < w.to)
  {
    var t := Lex(s, 0);
    LexSpread(s, 0);
    var i := WordAmong(t, w);
    var j := WordAmong(t, v);
    assert InLine(s, t, i) && InLine(s, t, j);
    if i < j { assert Before(t, i, j); }
    if j < i { assert Before(t, j, i); }
  }

  // The C string at a position of the buffer.
  ghost predicate ReadsAs(b: seq<char>, from: nat, text: string) {
    from + |text| < |b| && b[from..from + |text|] == text && b[from + |text|] == '\0' && '\0' !in text
  }

  // What a command says of the text it was read from: its words and redirections are those
  // of the tokens t that make up the text, in their order, and the sign in front of each
  // redirection's file is the one in its mode.
  ghost predicate SaysLine(s: string, t: seq<Tok>, c: Cmd) {
    && Spans(c) == Words(t) && ArgsOf(c) == ArgsIn(t) && RedirsOf(c) == RedirsIn(t)
    && forall i :: 0 <= i < |RedirsOf(c)| ==> HasSign(s, t, RedirsOf(c)[i])
  }

  lemma LineSays(s: string, t: seq<Tok>, c: Cmd)
    requires MadeOf(s, 0, t) && IsLine(c, t)
    ensures SaysLine(s, t, c)
  {
    LineWords(c, t);
    LineOrder(c, t);
    var rs := RedirsIn(t);
    forall i | 0 <= i < |rs| ensures HasSign(s, t, rs[i]) { RedirsSigned(s, t, rs[i]); }
  }

  // parsecmd: exactly the lines of the grammar are accepted, as the command each stands for;
  // and then every word and file name in it, read as a C string where its token starts, is
  // the text of that token.
  method ParseCmd(buf: array<char>, s: string) returns (r: Option<Cmd>, ghost t: seq<Tok>)
    requires buf.Length == |s| + 1 && buf[..] == s + ['\0'] && '\0' !in s
    modifies buf
    ensures MadeOf(s, 0, t) && forall c :: r == Some(c) <==> IsLine(c, t)
    ensures r.None? ==> buf[..] == old(buf[..])
    ensures r.Some? ==> SaysLine(s, t, r.value)
    ensures r.Some? ==> Marked(old(buf[..]), buf[..], Spans(r.value))
    ensures r.Some? ==> forall w :: Spans(r.value)[w] > 0 ==>
      w.from <= w.to <= |s| && ReadsAs(buf[..], w.from, s[w.from..w.to])
  {
    t := Lex(s, 0);
    LexIff(s, 0, t);
    r := ParseText(s);
    if r.Some? {
      LineSays(s, t, r.value);
      WordsInside(s, r.value);
      NulTerminate(buf, r.value);
      WordsRead(s, r.value, buf[..]);
    }
  }

  method ParseText(s: string) returns (r: Option<Cmd>)
    ensures r == ParseAll(Lex(s, 0)) && forall c :: r == Some(c) <==> IsLine(c, Lex(s, 0))
    ensures r.Some? ==> Spans(r.value) == Words(Lex(s, 0))
  {
    var p := ParseLine(s, 0);
    forall c ensures ParseAll(Lex(s, 0)) == Some(c) <==> IsLine(c, Lex(s, 0)) { ParsesTheGrammar(Lex(s, 0), c); }
    if p.Panic? { return None; }
    var hit, pos := Peek(s, p.pos, "");
    if pos != |s| { return None; }
    LineWords(p.cmd, Lex(s, 0));
    r := Some(p.cmd);
  }

  lemma WordsInside(s: string, c: Cmd)
    requires Spans(c) == Words(Lex(s, 0))
    ensures Inside(|s| + 1, Spans(c))
  {
    forall w | Spans(c)[w] > 0 ensures w.to < |s| + 1 { MarksApart(s, w, w); }
  }

  lemma WordsRead(s: string, c: Cmd, b: seq<char>)
    requires '\0' !in s && Spans(c) == Words(Lex(s, 0)) && Marked(s + ['\0'], b, Spans(c))
    ensures forall w :: Spans(c)[w] > 0 ==> w.from <= w.to <= |s| && ReadsAs(b, w.from, s[w.from..w.to])
  {
    forall w | Spans(c)[w] > 0 ensures w.from <= w.to <= |s| && ReadsAs(b, w.from, s[w.from..w.to]) {
      WordRead(s, c, b, w);
    }
  }

  lemma WordRead(s: string, c: Cmd, b: seq<char>, w: Span)
    requires '\0' !in s && Spans(c) == Words(Lex(s, 0)) && Marked(s + ['\0'], b, Spans(c)) && Spans(c)[w] > 0
    ensures w.from <= w.to <= |s| && ReadsAs(b, w.from, s[w.from..w.to])
  {
    MarksApart(s, w, w);
    forall k | w.from <= k < w.to ensures b[k] == s[k] { Unmarked(s, c, b, w, k); }
    assert Ends(Spans(c), w.to);
    ReadsSlice(b, s, w.from, w.to);
  }

  lemma ReadsSlice(b: seq<char>, s: string, from: nat, to: nat)
    requires from <= to <= |s| < |b| && b[to] == '\0' && '\0' !in s
    requires forall k :: from <= k < to ==> b[k] == s[k]
    ensures ReadsAs(b, from, s[from..to])
  {
    assert b[from..to] == s[from..to];
    forall x | x in s[from..to] ensures x in s {}
  }

  lemma Unmarked(s: string, c: Cmd, b: seq<char>, w: Span, k: nat)
    requires Spans(c) == Words(Lex(s, 0)) && Marked(s + ['\0'], b, Spans(c)) && Spans(c)[w] > 0
    requires w.from <= k < w.to <= |s|
    ensures b[k] == s[k]
  {
    if Ends(Spans(c), k) {
      var v :| Spans(c)[v] > 0 && v.to == k;
      MarksApart(s, w, v);
    }
    assert (s + ['\0'])[k] == s[k];
  }
}
