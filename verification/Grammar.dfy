// The shell's grammar over tokens, and the recursive descent that follows it.
module Grammar {
  import opened Tokens

  const MAXARGS := 10

  datatype Option<+T> = None | Some(value: T)

  // A redirection: its sign and the file's name.
  datatype Redirection = Redirection(mode: Kind, file: Span)

  datatype Cmd =
    | Exec(args: seq<Span>)
    | Redir(cmd: Cmd, r: Redirection)
    | Pipe(left: Cmd, right: Cmd)
    | List(left: Cmd, right: Cmd)
    | Back(cmd: Cmd)

  predicate IsRedirSign(k: Kind) { k == Less || k == Greater || k == Append }

  // The redirections go around the command in their order, the last outermost.
  function Wrap(c: Cmd, rs: seq<Redirection>): Cmd
    decreases |rs|
  {
    if |rs| == 0 then c else Redir(Wrap(c, rs[..|rs| - 1]), rs[|rs| - 1])
  }

  // ----- the grammar -----

  // t is words and redirections mixed: the words args, the redirections rs, each in its order.
  ghost predicate Items(t: seq<Tok>, args: seq<Span>, rs: seq<Redirection>)
    decreases |t|
  {
    if |t| == 0 then |args| == 0 && |rs| == 0
    else if IsWord(t[0]) then |args| > 0 && args[0] == t[0].span && Items(t[1..], args[1..], rs)
    else
      && IsRedirSign(t[0].kind) && |t| > 1 && t[1].kind == Plain
      && |rs| > 0 && rs[0] == Redirection(t[0].kind, t[1].span) && Items(t[2..], args, rs[1..])
  }

  // A simple command, or a line in parentheses with redirections behind it.
  ghost predicate IsSimple(c: Cmd, t: seq<Tok>)
    decreases |t|, 1
  {
    || (exists args, rs :: |args| < MAXARGS && Items(t, args, rs) && c == Wrap(Exec(args), rs))
    || (exists k: nat, inner, rs :: IsBlock(c, t, k, inner, rs))
  }

  ghost predicate IsBlock(c: Cmd, t: seq<Tok>, k: nat, inner: Cmd, rs: seq<Redirection>)
    decreases |t|, 0
  {
    && 1 <= k < |t| && t[0].kind == Open && t[k].kind == Close && c == Wrap(inner, rs)
    && Items(t[k + 1..], [], rs) && IsLine(inner, t[1..k])
  }

  ghost predicate IsPipe(c: Cmd, t: seq<Tok>)
    decreases |t|, 2
  {
    || IsSimple(c, t)
    || (c.Pipe? && exists k: nat ::
          k < |t| && t[k].kind == Bar && IsSimple(c.left, t[..k]) && IsPipe(c.right, t[k + 1..]))
  }

  ghost predicate IsBacks(c: Cmd, t: seq<Tok>)
    decreases |t|, 3
  {
    || IsPipe(c, t)
    || (c.Back? && |t| > 0 && t[|t| - 1].kind == Amp && IsBacks(c.cmd, t[..|t| - 1]))
  }

  ghost predicate IsLine(c: Cmd, t: seq<Tok>)
    decreases |t|, 4
  {
    || IsBacks(c, t)
    || (c.List? && exists k: nat ::
          k < |t| && t[k].kind == Semi && IsBacks(c.left, t[..k]) && IsLine(c.right, t[k + 1..]))
  }

  // ----- the parser, on tokens -----

  datatype Parse = Parse(cmd: Cmd, rest: seq<Tok>)

  datatype ItemsParse = ItemsParse(args: seq<Span>, rs: seq<Redirection>, rest: seq<Tok>)

  predicate StopsItems(k: Kind) { k == Bar || k == Close || k == Amp || k == Semi }

  // The loop of parseexec with parseredirs in it, argc words being there already.
  function ParseItems(t: seq<Tok>, argc: nat): (r: Option<ItemsParse>)
    ensures r.Some? ==> |r.value.rest| <= |t| && (|r.value.rest| > 0 ==> StopsItems(r.value.rest[0].kind))
    decreases |t|
  {
    if |t| == 0 || StopsItems(t[0].kind) then Some(ItemsParse([], [], t))
    else if IsRedirSign(t[0].kind) then
      if |t| > 1 && t[1].kind == Plain then
        match ParseItems(t[2..], argc)
        case None => None
        case Some(p) => Some(p.(rs := [Redirection(t[0].kind, t[1].span)] + p.rs))
      else None
    else if IsWord(t[0]) then
      if argc + 1 >= MAXARGS then None else
        match ParseItems(t[1..], argc + 1)
        case None => None
        case Some(p) => Some(p.(args := [t[0].span] + p.args))
    else None
  }

  // parseredirs alone, as behind a block.
  function ParseRedirs(t: seq<Tok>): (r: Option<ItemsParse>)
    ensures r.Some? ==> |r.value.rest| <= |t| && r.value.args == []
    decreases |t|
  {
    if |t| == 0 || !IsRedirSign(t[0].kind) then Some(ItemsParse([], [], t))
    else if |t| > 1 && t[1].kind == Plain then
      match ParseRedirs(t[2..])
      case None => None
      case Some(p) => Some(p.(rs := [Redirection(t[0].kind, t[1].span)] + p.rs))
    else None
  }

  function ParseSimple(t: seq<Tok>): (r: Option<Parse>)
    ensures r.Some? ==> |r.value.rest| <= |t|
    decreases |t|, 0
  {
    if |t| > 0 && t[0].kind == Open then
      match ParseLine(t[1..])
      case None => None
      case Some(p) =>
        if |p.rest| == 0 || p.rest[0].kind != Close then None else
          match ParseRedirs(p.rest[1..])
          case None => None
          case Some(q) => Some(Parse(Wrap(p.cmd, q.rs), q.rest))
    else
      match ParseItems(t, 0)
      case None => None
      case Some(p) => Some(Parse(Wrap(Exec(p.args), p.rs), p.rest))
  }

  function ParsePipe(t: seq<Tok>): (r: Option<Parse>)
    ensures r.Some? ==> |r.value.rest| <= |t|
    decreases |t|, 1
  {
    match ParseSimple(t)
    case None => None
    case Some(p) =>
      if |p.rest| > 0 && p.rest[0].kind == Bar then
        match ParsePipe(p.rest[1..])
        case None => None
        case Some(q) => Some(Parse(Pipe(p.cmd, q.cmd), q.rest))
      else Some(p)
  }

  function ParseBacks(p: Parse): (r: Parse)
    ensures |r.rest| <= |p.rest| && (|r.rest| > 0 ==> r.rest[0].kind != Amp)
    decreases |p.rest|
  {
    if |p.rest| > 0 && p.rest[0].kind == Amp then ParseBacks(Parse(Back(p.cmd), p.rest[1..])) else p
  }

  function ParseLine(t: seq<Tok>): (r: Option<Parse>)
    ensures r.Some? ==> |r.value.rest| <= |t|
    decreases |t|, 2
  {
    match ParsePipe(t)
    case None => None
    case Some(p0) =>
      var p := ParseBacks(p0);
      if |p.rest| > 0 && p.rest[0].kind == Semi then
        match ParseLine(p.rest[1..])
        case None => None
        case Some(q) => Some(Parse(List(p.cmd, q.cmd), q.rest))
      else Some(p)
  }

  // parsecmd: a line, and nothing left over.
  function ParseAll(t: seq<Tok>): Option<Cmd> {
    match ParseLine(t)
    case None => None
    case Some(p) => if |p.rest| == 0 then Some(p.cmd) else None
  }

  // ----- what the parser finds is in the grammar -----

  // The tokens that a parse of t has used up.
  function Used(t: seq<Tok>, rest: seq<Tok>): seq<Tok>
    requires |rest| <= |t|
  {
    t[..|t| - |rest|]
  }

  ghost predicate Leaves(t: seq<Tok>, rest: seq<Tok>) { |rest| <= |t| && t[|t| - |rest|..] == rest }

  lemma {:induction false} ItemsSound(t: seq<Tok>, argc: nat)
    requires ParseItems(t, argc).Some?
    ensures var p := ParseItems(t, argc).value;
      Leaves(t, p.rest) && Items(Used(t, p.rest), p.args, p.rs) && (argc < MAXARGS ==> argc + |p.args| < MAXARGS)
    decreases |t|
  {
    if |t| > 0 && !StopsItems(t[0].kind) {
      var d := if IsWord(t[0]) then 1 else 2;
      ItemsSound(t[d..], if IsWord(t[0]) then argc + 1 else argc);
      Further(t, d, ParseItems(t, argc).value.rest);
    }
  }

  // Tokens in front do not change what is left.
  lemma Further(t: seq<Tok>, d: nat, rest: seq<Tok>)
    requires d <= |t| && Leaves(t[d..], rest)
    ensures Leaves(t, rest) && Used(t, rest)[d..] == Used(t[d..], rest) && Used(t, rest)[..d] == t[..d]
    ensures forall i :: 0 <= i < d ==> i < |Used(t, rest)| && Used(t, rest)[i] == t[i]
  {
  }

  lemma {:induction false} RedirsSound(t: seq<Tok>)
    requires ParseRedirs(t).Some?
    ensures var p := ParseRedirs(t).value; Leaves(t, p.rest) && Items(Used(t, p.rest), [], p.rs)
    decreases |t|
  {
    if |t| > 0 && IsRedirSign(t[0].kind) {
      RedirsSound(t[2..]);
      Further(t, 2, ParseRedirs(t).value.rest);
    }
  }

  // Two parses, with a token between them, as one.
  lemma TwoParses(t: seq<Tok>, mid: seq<Tok>, rest: seq<Tok>)
    requires Leaves(t, mid) && |mid| > 0 && Leaves(mid[1..], rest)
    ensures Leaves(t, rest)
    ensures var u, k := Used(t, rest), |t| - |mid|;
      k < |u| && u[..k] == Used(t, mid) && u[k] == mid[0] && u[k + 1..] == Used(mid[1..], rest)
  {
  }

  lemma {:induction false} SimpleSound(t: seq<Tok>)
    requires ParseSimple(t).Some?
    ensures var p := ParseSimple(t).value; Leaves(t, p.rest) && IsSimple(p.cmd, Used(t, p.rest))
    decreases |t|, 0
  {
    var p := ParseSimple(t).value;
    if |t| > 0 && t[0].kind == Open {
      LineSound(t[1..]);
      var l := ParseLine(t[1..]).value;
      RedirsSound(l.rest[1..]);
      var q := ParseRedirs(l.rest[1..]).value;
      BlockSound(t, l, q);
    } else {
      ItemsSound(t, 0);
    }
  }

  lemma BlockSound(t: seq<Tok>, l: Parse, q: ItemsParse)
    requires |t| > 0 && t[0].kind == Open && Leaves(t[1..], l.rest) && IsLine(l.cmd, Used(t[1..], l.rest))
    requires |l.rest| > 0 && l.rest[0].kind == Close
    requires Leaves(l.rest[1..], q.rest) && Items(Used(l.rest[1..], q.rest), [], q.rs)
    ensures Leaves(t, q.rest) && IsSimple(Wrap(l.cmd, q.rs), Used(t, q.rest))
  {
    BlockUsed(t, l.rest, q.rest);
    assert IsBlock(Wrap(l.cmd, q.rs), Used(t, q.rest), |t| - |l.rest|, l.cmd, q.rs);
  }

  lemma BlockUsed(t: seq<Tok>, mid: seq<Tok>, rest: seq<Tok>)
    requires |t| > 0 && Leaves(t[1..], mid) && |mid| > 0 && Leaves(mid[1..], rest)
    ensures Leaves(t, rest)
    ensures var u, k := Used(t, rest), |t| - |mid|;
      1 <= k < |u| && u[0] == t[0] && u[k] == mid[0] && u[1..k] == Used(t[1..], mid)
        && u[k + 1..] == Used(mid[1..], rest)
  {
    TwoParses(t[1..], mid, rest);
    Further(t, 1, rest);
    var u, k := Used(t, rest), |t| - |mid|;
    assert u[1..][..k - 1] == u[1..k] && u[1..][k..] == u[k + 1..] && u[1..][k - 1] == u[k];
  }

  lemma {:induction false} PipeSound(t: seq<Tok>)
    requires ParsePipe(t).Some?
    ensures var p := ParsePipe(t).value; Leaves(t, p.rest) && IsPipe(p.cmd, Used(t, p.rest))
    decreases |t|, 1
  {
    SimpleSound(t);
    var p := ParseSimple(t).value;
    if |p.rest| > 0 && p.rest[0].kind == Bar {
      PipeSound(p.rest[1..]);
      PipeJoin(t, p, ParsePipe(p.rest[1..]).value);
    }
  }

  lemma PipeJoin(t: seq<Tok>, p: Parse, q: Parse)
    requires Leaves(t, p.rest) && IsSimple(p.cmd, Used(t, p.rest)) && |p.rest| > 0 && p.rest[0].kind == Bar
    requires Leaves(p.rest[1..], q.rest) && IsPipe(q.cmd, Used(p.rest[1..], q.rest))
    ensures Leaves(t, q.rest) && IsPipe(Pipe(p.cmd, q.cmd), Used(t, q.rest))
  {
    TwoParses(t, p.rest, q.rest);
  }

  lemma {:induction false} BacksSound(t: seq<Tok>, p: Parse)
    requires Leaves(t, p.rest) && IsBacks(p.cmd, Used(t, p.rest))
    ensures var r := ParseBacks(p); Leaves(t, r.rest) && IsBacks(r.cmd, Used(t, r.rest))
    decreases |p.rest|
  {
    if |p.rest| > 0 && p.rest[0].kind == Amp {
      BackJoin(t, p);
      BacksSound(t, Parse(Back(p.cmd), p.rest[1..]));
    }
  }

  lemma BackJoin(t: seq<Tok>, p: Parse)
    requires Leaves(t, p.rest) && IsBacks(p.cmd, Used(t, p.rest)) && |p.rest| > 0 && p.rest[0].kind == Amp
    ensures Leaves(t, p.rest[1..]) && IsBacks(Back(p.cmd), Used(t, p.rest[1..]))
  {
    OneMore(t, p.rest);
    BackGrows(p.cmd, Used(t, p.rest), p.rest[0]);
  }

  lemma OneMore(t: seq<Tok>, mid: seq<Tok>)
    requires Leaves(t, mid) && |mid| > 0
    ensures Leaves(t, mid[1..]) && Used(t, mid[1..]) == Used(t, mid) + [mid[0]]
  {
    var k := |t| - |mid|;
    assert t[k..][0] == t[k] && t[k..][1..] == t[k + 1..];
    assert t[..k + 1] == t[..k] + [t[k]];
  }

  lemma BackGrows(c: Cmd, u: seq<Tok>, amp: Tok)
    requires IsBacks(c, u) && amp.kind == Amp
    ensures IsBacks(Back(c), u + [amp])
  {
    assert (u + [amp])[..|u|] == u;
  }

  lemma {:induction false} LineSound(t: seq<Tok>)
    requires ParseLine(t).Some?
    ensures var p := ParseLine(t).value; Leaves(t, p.rest) && IsLine(p.cmd, Used(t, p.rest))
    decreases |t|, 2
  {
    PipeSound(t);
    BacksSound(t, ParsePipe(t).value);
    var p := ParseBacks(ParsePipe(t).value);
    if |p.rest| > 0 && p.rest[0].kind == Semi {
      LineSound(p.rest[1..]);
      LineJoin(t, p, ParseLine(p.rest[1..]).value);
    }
  }

  lemma LineJoin(t: seq<Tok>, p: Parse, q: Parse)
    requires Leaves(t, p.rest) && IsBacks(p.cmd, Used(t, p.rest)) && |p.rest| > 0 && p.rest[0].kind == Semi
    requires Leaves(p.rest[1..], q.rest) && IsLine(q.cmd, Used(p.rest[1..], q.rest))
    ensures Leaves(t, q.rest) && IsLine(List(p.cmd, q.cmd), Used(t, q.rest))
  {
    TwoParses(t, p.rest, q.rest);
  }

  // ----- what is in the grammar, the parser finds -----

  ghost predicate Follow(rest: seq<Tok>, bar: bool, amp: bool, semi: bool) {
    |rest| == 0 || rest[0].kind == Close || (bar && rest[0].kind == Bar) || (amp && rest[0].kind == Amp)
      || (semi && rest[0].kind == Semi)
  }

  lemma Head<T>(s: seq<T>)
    requires |s| > 0
    ensures [s[0]] + s[1..] == s
  {
  }

  lemma InFront(t: seq<Tok>, d: nat, rest: seq<Tok>)
    requires d <= |t|
    ensures (t + rest)[d..] == t[d..] + rest && forall i :: 0 <= i < d ==> (t + rest)[i] == t[i]
  {
  }

  lemma {:induction false} ItemsComplete(t: seq<Tok>, args: seq<Span>, rs: seq<Redirection>, rest: seq<Tok>, argc: nat)
    requires Items(t, args, rs) && argc + |args| < MAXARGS && Follow(rest, true, true, true)
    ensures ParseItems(t + rest, argc) == Some(ItemsParse(args, rs, rest))
    decreases |t|
  {
    if |t| == 0 {
      assert t + rest == rest && args == [] && rs == [];
    } else if IsWord(t[0]) {
      InFront(t, 1, rest);
      ItemsComplete(t[1..], args[1..], rs, rest, argc + 1);
      Head(args);
    } else {
      InFront(t, 2, rest);
      ItemsComplete(t[2..], args, rs[1..], rest, argc);
      Head(rs);
    }
  }

  lemma {:induction false} RedirsComplete(t: seq<Tok>, rs: seq<Redirection>, rest: seq<Tok>)
    requires Items(t, [], rs) && Follow(rest, true, true, true)
    ensures ParseRedirs(t + rest) == Some(ItemsParse([], rs, rest))
    decreases |t|
  {
    if |t| == 0 {
      assert t + rest == rest && rs == [];
    } else {
      InFront(t, 2, rest);
      RedirsComplete(t[2..], rs[1..], rest);
      Head(rs);
    }
  }

  lemma {:induction false} SimpleComplete(c: Cmd, t: seq<Tok>, rest: seq<Tok>)
    requires IsSimple(c, t) && Follow(rest, true, true, true)
    ensures ParseSimple(t + rest) == Some(Parse(c, rest))
    decreases |t|, 1
  {
    if k: nat, inner, rs :| IsBlock(c, t, k, inner, rs) {
      Cutting(t, k, rest);
      LineComplete(inner, t[1..k], t[k..] + rest);
      RedirsComplete(t[k + 1..], rs, rest);
    } else {
      var args, rs :| |args| < MAXARGS && Items(t, args, rs) && c == Wrap(Exec(args), rs);
      ItemsComplete(t, args, rs, rest, 0);
      assert |t| > 0 ==> (t + rest)[0] == t[0];
    }
  }

  lemma Cutting(t: seq<Tok>, k: nat, rest: seq<Tok>)
    requires k < |t|
    ensures t + rest == t[..k] + (t[k..] + rest) && (t[k..] + rest)[1..] == t[k + 1..] + rest
      && (t[k..] + rest)[0] == t[k]
    ensures 1 <= k ==> (t + rest)[1..] == t[1..k] + (t[k..] + rest) && (t + rest)[0] == t[0]
  {
  }

  // Where a pipeline, or a line, is put together.
  lemma BarOf(c: Cmd, t: seq<Tok>) returns (k: nat)
    requires IsPipe(c, t) && !IsSimple(c, t)
    ensures c.Pipe? && k < |t| && t[k].kind == Bar && IsSimple(c.left, t[..k]) && IsPipe(c.right, t[k + 1..])
  {
    k :| k < |t| && t[k].kind == Bar && IsSimple(c.left, t[..k]) && IsPipe(c.right, t[k + 1..]);
  }

  lemma SemiOf(c: Cmd, t: seq<Tok>) returns (k: nat)
    requires IsLine(c, t) && !IsBacks(c, t)
    ensures c.List? && k < |t| && t[k].kind == Semi && IsBacks(c.left, t[..k]) && IsLine(c.right, t[k + 1..])
  {
    k :| k < |t| && t[k].kind == Semi && IsBacks(c.left, t[..k]) && IsLine(c.right, t[k + 1..]);
  }

  lemma {:induction false} PipeComplete(c: Cmd, t: seq<Tok>, rest: seq<Tok>)
    requires IsPipe(c, t) && Follow(rest, false, true, true)
    ensures ParsePipe(t + rest) == Some(Parse(c, rest))
    decreases |t|, 2
  {
    if IsSimple(c, t) {
      SimpleComplete(c, t, rest);
    } else {
      var k := BarOf(c, t);
      Cutting(t, k, rest);
      SimpleComplete(c.left, t[..k], t[k..] + rest);
      PipeComplete(c.right, t[k + 1..], rest);
    }
  }

  lemma {:induction false} BacksComplete(c: Cmd, t: seq<Tok>, rest: seq<Tok>)
    requires IsBacks(c, t) && Follow(rest, false, true, true)
    ensures ParsePipe(t + rest).Some? && ParseBacks(ParsePipe(t + rest).value) == ParseBacks(Parse(c, rest))
    decreases |t|, 3
  {
    if IsPipe(c, t) {
      PipeComplete(c, t, rest);
    } else {
      var k := |t| - 1;
      Cutting(t, k, rest);
      assert t[k + 1..] + rest == rest;
      BacksComplete(c.cmd, t[..k], t[k..] + rest);
    }
  }

  lemma {:induction false} LineComplete(c: Cmd, t: seq<Tok>, rest: seq<Tok>)
    requires IsLine(c, t) && Follow(rest, false, false, false)
    ensures ParseLine(t + rest) == Some(Parse(c, rest))
    decreases |t|, 4
  {
    if IsBacks(c, t) {
      BacksComplete(c, t, rest);
    } else {
      var k := SemiOf(c, t);
      Cutting(t, k, rest);
      BacksComplete(c.left, t[..k], t[k..] + rest);
      LineComplete(c.right, t[k + 1..], rest);
    }
  }

  // The parser accepts exactly the lines of the grammar, each as the one command it stands for.
  lemma ParsesTheGrammar(t: seq<Tok>, c: Cmd)
    ensures ParseAll(t) == Some(c) <==> IsLine(c, t)
  {
    if IsLine(c, t) {
      LineComplete(c, t, []);
      assert t + [] == t;
    }
    if ParseAll(t) == Some(c) {
      LineSound(t);
      assert Used(t, []) == t;
    }
  }

  lemma Unambiguous(t: seq<Tok>, c: Cmd, d: Cmd)
    requires IsLine(c, t) && IsLine(d, t)
    ensures c == d
  {
    ParsesTheGrammar(t, c);
    ParsesTheGrammar(t, d);
  }

  // ----- the words of a command -----

  function Files(rs: seq<Redirection>): multiset<Span> {
    if |rs| == 0 then multiset{} else Files(rs[..|rs| - 1]) + multiset{rs[|rs| - 1].file}
  }

  // The words and file names in a command.
  function Spans(c: Cmd): multiset<Span> {
    match c
    case Exec(args) => multiset(args)
    case Redir(cmd, r) => Spans(cmd) + multiset{r.file}
    case Pipe(left, right) => Spans(left) + Spans(right)
    case List(left, right) => Spans(left) + Spans(right)
    case Back(cmd) => Spans(cmd)
  }

  function WordOf(t: Tok): multiset<Span> { if IsWord(t) then multiset{t.span} else multiset{} }

  function Words(t: seq<Tok>): multiset<Span> {
    if |t| == 0 then multiset{} else WordOf(t[0]) + Words(t[1..])
  }

  lemma {:induction false} WordsConcat(a: seq<Tok>, b: seq<Tok>)
    ensures Words(a + b) == Words(a) + Words(b)
  {
    if |a| == 0 {
      assert a + b == b;
    } else {
      assert (a + b)[1..] == a[1..] + b && (a + b)[0] == a[0];
      WordsConcat(a[1..], b);
    }
  }

  lemma WordsSplit(t: seq<Tok>, k: nat)
    requires k < |t|
    ensures Words(t) == Words(t[..k]) + WordOf(t[k]) + Words(t[k + 1..])
  {
    assert t == t[..k] + t[k..] && t[k..][1..] == t[k + 1..];
    WordsConcat(t[..k], t[k..]);
  }

  lemma {:induction false} FilesFirst(r: Redirection, rs: seq<Redirection>)
    ensures Files([r] + rs) == multiset{r.file} + Files(rs)
  {
    if |rs| == 0 {
      assert ([r] + rs)[..0] == [];
    } else {
      assert ([r] + rs)[..|rs|] == [r] + rs[..|rs| - 1];
      FilesFirst(r, rs[..|rs| - 1]);
    }
  }

  lemma {:induction false} WrapSpans(c: Cmd, rs: seq<Redirection>)
    ensures Spans(Wrap(c, rs)) == Spans(c) + Files(rs)
    decreases |rs|
  {
    if |rs| > 0 { WrapSpans(c, rs[..|rs| - 1]); }
  }

  lemma {:induction false} ItemsWords(t: seq<Tok>, args: seq<Span>, rs: seq<Redirection>)
    requires Items(t, args, rs)
    ensures Words(t) == multiset(args) + Files(rs)
    decreases |t|
  {
    if |t| == 0 {
      assert args == [] && rs == [];
    } else if IsWord(t[0]) {
      ItemsWords(t[1..], args[1..], rs);
      ArgsHead(args);
    } else {
      ItemsWords(t[2..], args, rs[1..]);
      FilesHead(rs);
      TwoTokens(t);
    }
  }

  lemma ArgsHead(args: seq<Span>)
    requires |args| > 0
    ensures multiset(args) == multiset{args[0]} + multiset(args[1..])
  {
    assert args == [args[0]] + args[1..];
  }

  lemma FilesHead(rs: seq<Redirection>)
    requires |rs| > 0
    ensures Files(rs) == multiset{rs[0].file} + Files(rs[1..])
  {
    assert rs == [rs[0]] + rs[1..];
    FilesFirst(rs[0], rs[1..]);
  }

  lemma TwoTokens(t: seq<Tok>)
    requires |t| > 1
    ensures Words(t) == WordOf(t[0]) + WordOf(t[1]) + Words(t[2..])
  {
    assert t[1..][1..] == t[2..];
    assert Words(t[1..]) == WordOf(t[1]) + Words(t[2..]);
  }

  lemma {:induction false} SimpleWords(c: Cmd, t: seq<Tok>)
    requires IsSimple(c, t)
    ensures Spans(c) == Words(t)
    decreases |t|, 1
  {
    if k: nat, inner, rs :| IsBlock(c, t, k, inner, rs) {
      LineWords(inner, t[1..k]);
      ItemsWords(t[k + 1..], [], rs);
      WrapSpans(inner, rs);
      BlockWords(t, k);
    } else {
      var args, rs :| |args| < MAXARGS && Items(t, args, rs) && c == Wrap(Exec(args), rs);
      ItemsWords(t, args, rs);
      WrapSpans(Exec(args), rs);
    }
  }

  lemma BlockWords(t: seq<Tok>, k: nat)
    requires 1 <= k < |t| && !IsWord(t[0]) && !IsWord(t[k])
    ensures Words(t) == Words(t[1..k]) + Words(t[k + 1..])
  {
    WordsSplit(t[1..], k - 1);
    assert t[1..][..k - 1] == t[1..k] && t[1..][k..] == t[k + 1..];
  }

  lemma {:induction false} PipeWords(c: Cmd, t: seq<Tok>)
    requires IsPipe(c, t)
    ensures Spans(c) == Words(t)
    decreases |t|, 2
  {
    if IsSimple(c, t) {
      SimpleWords(c, t);
    } else {
      var k := BarOf(c, t);
      SimpleWords(c.left, t[..k]);
      PipeWords(c.right, t[k + 1..]);
      WordsSplit(t, k);
    }
  }

  lemma {:induction false} BacksWords(c: Cmd, t: seq<Tok>)
    requires IsBacks(c, t)
    ensures Spans(c) == Words(t)
    decreases |t|, 3
  {
    if IsPipe(c, t) {
      PipeWords(c, t);
    } else {
      BacksWords(c.cmd, t[..|t| - 1]);
      WordsSplit(t, |t| - 1);
    }
  }

  // Every word of the line is in its command, exactly as often.
  lemma {:induction false} LineWords(c: Cmd, t: seq<Tok>)
    requires IsLine(c, t)
    ensures Spans(c) == Words(t)
    decreases |t|, 4
  {
    if IsBacks(c, t) {
      BacksWords(c, t);
    } else {
      var k := SemiOf(c, t);
      BacksWords(c.left, t[..k]);
      LineWords(c.right, t[k + 1..]);
      WordsSplit(t, k);
    }
  }

  // ----- their order, and the redirections -----

  predicate BehindSign(t: seq<Tok>, i: nat)
    requires i < |t|
  {
    i > 0 && IsRedirSign(t[i - 1].kind)
  }

  // The words of a line that are not behind a redirection sign, in order,
  function ArgsIn(t: seq<Tok>): seq<Span> {
    if |t| == 0 then [] else
      var i := |t| - 1;
      ArgsIn(t[..i]) + if IsWord(t[i]) && !BehindSign(t, i) then [t[i].span] else []
  }

  // and those that are, each with the sign in front of it.
  function RedirsIn(t: seq<Tok>): seq<Redirection> {
    if |t| == 0 then [] else
      var i := |t| - 1;
      RedirsIn(t[..i]) + if IsWord(t[i]) && BehindSign(t, i) then [Redirection(t[i - 1].kind, t[i].span)] else []
  }

  // The same of a command, its parts from left to right, inner redirections before outer ones.
  function ArgsOf(c: Cmd): seq<Span> {
    match c
    case Exec(args) => args
    case Redir(cmd, _) => ArgsOf(cmd)
    case Pipe(left, right) => ArgsOf(left) + ArgsOf(right)
    case List(left, right) => ArgsOf(left) + ArgsOf(right)
    case Back(cmd) => ArgsOf(cmd)
  }

  function RedirsOf(c: Cmd): seq<Redirection> {
    match c
    case Exec(_) => []
    case Redir(cmd, r) => RedirsOf(cmd) + [r]
    case Pipe(left, right) => RedirsOf(left) + RedirsOf(right)
    case List(left, right) => RedirsOf(left) + RedirsOf(right)
    case Back(cmd) => RedirsOf(cmd)
  }

  // The command has these words and redirections.
  ghost predicate InOrder(c: Cmd, t: seq<Tok>) { ArgsOf(c) == ArgsIn(t) && RedirsOf(c) == RedirsIn(t) }

  lemma LastTwo(a: seq<Tok>, b: seq<Tok>)
    requires |b| > 0
    ensures var i, n := |b| - 1, |a + b| - 1;
      && (a + b)[..n] == a + b[..i] && (a + b)[n] == b[i]
      && (n > 0 ==> (a + b)[n - 1] == if i > 0 then b[i - 1] else a[|a| - 1])
  {
  }

  lemma Assoc<T>(a: seq<T>, b: seq<T>, c: seq<T>)
    ensures a + (b + c) == (a + b) + c
  {
  }

  // Two pieces of a line, unless a redirection is cut in two.
  lemma {:induction false} OrderConcat(a: seq<Tok>, b: seq<Tok>)
    requires |a| > 0 && |b| > 0 && IsWord(b[0]) ==> !IsRedirSign(a[|a| - 1].kind)
    ensures ArgsIn(a + b) == ArgsIn(a) + ArgsIn(b) && RedirsIn(a + b) == RedirsIn(a) + RedirsIn(b)
    decreases |b|
  {
    if |b| == 0 {
      assert a + b == a;
    } else {
      var i := |b| - 1;
      LastTwo(a, b);
      OrderConcat(a, b[..i]);
      var x := if IsWord(b[i]) && !BehindSign(b, i) then [b[i].span] else [];
      var r := if IsWord(b[i]) && BehindSign(b, i) then [Redirection(b[i - 1].kind, b[i].span)] else [];
      Assoc(ArgsIn(a), ArgsIn(b[..i]), x);
      Assoc(RedirsIn(a), RedirsIn(b[..i]), r);
    }
  }

  lemma OrderOne(x: Tok)
    ensures ArgsIn([x]) == (if IsWord(x) then [x.span] else []) && RedirsIn([x]) == []
  {
    assert [x][..0] == [];
  }

  lemma OrderTwo(x: Tok, y: Tok)
    requires IsRedirSign(x.kind) && IsWord(y)
    ensures ArgsIn([x, y]) == [] && RedirsIn([x, y]) == [Redirection(x.kind, y.span)]
  {
    assert [x, y][..1] == [x];
    OrderOne(x);
  }

  lemma OrderBehind(x: Tok, b: seq<Tok>)
    requires !IsWord(x) && !IsRedirSign(x.kind)
    ensures ArgsIn([x] + b) == ArgsIn(b) && RedirsIn([x] + b) == RedirsIn(b)
  {
    OrderOne(x);
    OrderConcat([x], b);
    assert [] + ArgsIn(b) == ArgsIn(b) && [] + RedirsIn(b) == RedirsIn(b);
  }

  lemma OrderJoin(a: seq<Tok>, x: Tok, b: seq<Tok>)
    requires !IsWord(x) && !IsRedirSign(x.kind)
    ensures ArgsIn(a + ([x] + b)) == ArgsIn(a) + ArgsIn(b) && RedirsIn(a + ([x] + b)) == RedirsIn(a) + RedirsIn(b)
  {
    OrderBehind(x, b);
    OrderConcat(a, [x] + b);
  }

  // What stands on both sides of a sign that is no redirection.
  lemma OrderSplit(t: seq<Tok>, k: nat)
    requires k < |t| && !IsWord(t[k]) && !IsRedirSign(t[k].kind)
    ensures ArgsIn(t) == ArgsIn(t[..k]) + ArgsIn(t[k + 1..])
    ensures RedirsIn(t) == RedirsIn(t[..k]) + RedirsIn(t[k + 1..])
  {
    Cut(t, k);
    OrderJoin(t[..k], t[k], t[k + 1..]);
  }

  lemma Cut(t: seq<Tok>, k: nat)
    requires k < |t|
    ensures t[..k] + ([t[k]] + t[k + 1..]) == t
  {
  }

  lemma {:induction false} ItemsOrder(t: seq<Tok>, args: seq<Span>, rs: seq<Redirection>)
    requires Items(t, args, rs)
    ensures ArgsIn(t) == args && RedirsIn(t) == rs
    decreases |t|
  {
    if |t| == 0 {
    } else if IsWord(t[0]) {
      ItemsOrder(t[1..], args[1..], rs);
      OrderOne(t[0]);
      OrderConcat([t[0]], t[1..]);
      Head(t);
      Head(args);
    } else {
      ItemsOrder(t[2..], args, rs[1..]);
      OrderTwo(t[0], t[1]);
      assert t == [t[0], t[1]] + t[2..];
      OrderConcat([t[0], t[1]], t[2..]);
      Head(rs);
    }
  }

  lemma {:induction false} WrapOrder(c: Cmd, rs: seq<Redirection>)
    ensures ArgsOf(Wrap(c, rs)) == ArgsOf(c) && RedirsOf(Wrap(c, rs)) == RedirsOf(c) + rs
    decreases |rs|
  {
    if |rs| > 0 {
      var init := rs[..|rs| - 1];
      WrapOrder(c, init);
      assert init + [rs[|rs| - 1]] == rs;
    }
  }

  lemma {:induction false} SimpleOrder(c: Cmd, t: seq<Tok>)
    requires IsSimple(c, t)
    ensures InOrder(c, t)
    decreases |t|, 1
  {
    if k: nat, inner, rs :| IsBlock(c, t, k, inner, rs) {
      LineOrder(inner, t[1..k]);
      ItemsOrder(t[k + 1..], [], rs);
      WrapOrder(inner, rs);
      BlockOrder(t, k);
    } else {
      var args, rs :| |args| < MAXARGS && Items(t, args, rs) && c == Wrap(Exec(args), rs);
      ItemsOrder(t, args, rs);
      WrapOrder(Exec(args), rs);
    }
  }

  lemma CutBlock(t: seq<Tok>, k: nat)
    requires 1 <= k < |t|
    ensures [t[0]] + t[1..] == t && t[1..][..k - 1] == t[1..k] && t[1..][k..] == t[k + 1..] && t[1..][k - 1] == t[k]
  {
  }

  lemma BlockOrder(t: seq<Tok>, k: nat)
    requires 1 <= k < |t| && t[0].kind == Open && t[k].kind == Close
    ensures ArgsIn(t) == ArgsIn(t[1..k]) + ArgsIn(t[k + 1..])
    ensures RedirsIn(t) == RedirsIn(t[1..k]) + RedirsIn(t[k + 1..])
  {
    CutBlock(t, k);
    OrderBehind(t[0], t[1..]);
    OrderSplit(t[1..], k - 1);
  }

  lemma {:induction false} PipeOrder(c: Cmd, t: seq<Tok>)
    requires IsPipe(c, t)
    ensures InOrder(c, t)
    decreases |t|, 2
  {
    if IsSimple(c, t) {
      SimpleOrder(c, t);
    } else {
      var k := BarOf(c, t);
      SimpleOrder(c.left, t[..k]);
      PipeOrder(c.right, t[k + 1..]);
      OrderSplit(t, k);
    }
  }

  lemma {:induction false} BacksOrder(c: Cmd, t: seq<Tok>)
    requires IsBacks(c, t)
    ensures InOrder(c, t)
    decreases |t|, 3
  {
    if IsPipe(c, t) {
      PipeOrder(c, t);
    } else {
      var k := |t| - 1;
      BacksOrder(c.cmd, t[..k]);
      OrderSplit(t, k);
      assert t[k + 1..] == [];
    }
  }

  // The words and redirections of the command are those of its line, in their order.
  lemma {:induction false} LineOrder(c: Cmd, t: seq<Tok>)
    requires IsLine(c, t)
    ensures InOrder(c, t)
    decreases |t|, 4
  {
    if IsBacks(c, t) {
      BacksOrder(c, t);
    } else {
      var k := SemiOf(c, t);
      BacksOrder(c.left, t[..k]);
      LineOrder(c.right, t[k + 1..]);
      OrderSplit(t, k);
    }
  }

  // ----- the text of a redirection -----

  // The k-th token is the sign of r, as its mode says, and what follows it is the file.
  ghost predicate Signed(s: string, t: seq<Tok>, r: Redirection, k: nat) {
    && k + 1 < |t| && t[k + 1].span == r.file && r.file.from <= |s|
    && var w := t[k].span;
    && AllWhite(s, w.to, StartOf(t[k + 1]))
    && match r.mode
      case Less => Reads(s, w, "<")
      case Greater => Reads(s, w, ">") && (w.to < |s| ==> s[w.to] != '>')
      case Append => Reads(s, w, ">>")
      case _ => false
  }

  ghost predicate HasSign(s: string, t: seq<Tok>, r: Redirection) {
    exists k: nat {:trigger Signed(s, t, r, k)} :: Signed(s, t, r, k)
  }

  lemma {:induction false} MadeOfAt(s: string, i: nat, t: seq<Tok>, k: nat)
    requires MadeOf(s, i, t) && k < |t|
    ensures Spelled(s, t[k]) && (k + 1 < |t| ==> AllWhite(s, PastOf(s, t[k]), StartOf(t[k + 1])))
    decreases k
  {
    if k > 0 { MadeOfAt(s, PastOf(s, t[0]), t[1..], k - 1); }
  }

  lemma {:induction false} RedirAmong(t: seq<Tok>, r: Redirection) returns (k: nat)
    requires r in RedirsIn(t)
    ensures k + 1 < |t| && IsRedirSign(t[k].kind) && IsWord(t[k + 1]) && r == Redirection(t[k].kind, t[k + 1].span)
  {
    var i := |t| - 1;
    if r in RedirsIn(t[..i]) { k := RedirAmong(t[..i], r); } else { k := i - 1; }
  }

  // In front of the file of every redirection stands the sign that is its mode.
  lemma RedirsSigned(s: string, t: seq<Tok>, r: Redirection)
    requires MadeOf(s, 0, t) && r in RedirsIn(t)
    ensures HasSign(s, t, r)
  {
    var k := RedirAmong(t, r);
    MadeOfAt(s, 0, t, k);
    MadeOfAt(s, 0, t, k + 1);
    assert Signed(s, t, r, k);
  }
}
