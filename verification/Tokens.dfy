// The shell's tokens and where they stand in the line.
module Tokens {

  datatype Span = Span(from: nat, to: nat)

  // Broken is a quote without its partner.
  datatype Kind = Plain | Quoted | Bar | Open | Close | Semi | Amp | Less | Greater | Append | Broken

  datatype Tok = Tok(kind: Kind, span: Span)

  predicate IsWhite(c: char) { c in " \t\r\n\U{B}" }

  predicate IsSymbol(c: char) { c in "<|>&;()" }

  predicate IsQuote(c: char) { c == '\"' || c == '\'' }

  function SkipWhite(s: string, i: nat): (j: nat)
    ensures i <= j && (i <= |s| ==> j <= |s|) && (j < |s| ==> !IsWhite(s[j]))
    decreases |s| - i
  {
    if i < |s| && IsWhite(s[i]) then SkipWhite(s, i + 1) else i
  }

  // Where a plain word ends: at white space, at a symbol, or with the line.
  function WordEnd(s: string, i: nat): (j: nat)
    ensures i <= j && (i <= |s| ==> j <= |s|)
    ensures j < |s| ==> IsWhite(s[j]) || IsSymbol(s[j])
    ensures forall k :: i <= k < j ==> k < |s| && !IsWhite(s[k]) && !IsSymbol(s[k])
    decreases |s| - i
  {
    if i < |s| && !IsWhite(s[i]) && !IsSymbol(s[i]) then WordEnd(s, i + 1) else i
  }

  function QuoteEnd(s: string, i: nat, c: char): (j: nat)
    ensures i <= j && (i <= |s| ==> j <= |s|) && (j < |s| ==> s[j] == c)
    decreases |s| - i
  {
    if i < |s| && s[i] != c then QuoteEnd(s, i + 1, c) else i
  }

  function SymbolKind(c: char): Kind {
    match c
    case '|' => Bar
    case '(' => Open
    case ')' => Close
    case ';' => Semi
    case '&' => Amp
    case '<' => Less
    case _ => Greater
  }

  // The token at a, where there is no white space, and where the text after it starts.
  function TokenAt(s: string, a: nat): (r: (Tok, nat))
    requires a < |s| && !IsWhite(s[a])
    ensures a < r.1 <= |s|
  {
    var c := s[a];
    if IsQuote(c) then
      var e := QuoteEnd(s, a + 1, c);
      if e == |s| then (Tok(Broken, Span(a, a)), |s|) else (Tok(Quoted, Span(a + 1, e)), e + 1)
    else if c == '>' && a + 1 < |s| && s[a + 1] == '>' then (Tok(Append, Span(a, a + 2)), a + 2)
    else if IsSymbol(c) then (Tok(SymbolKind(c), Span(a, a + 1)), a + 1)
    else (Tok(Plain, Span(a, WordEnd(s, a))), WordEnd(s, a))
  }

  // All tokens from i on.
  function Lex(s: string, i: nat): seq<Tok>
    decreases |s| - i
  {
    var a := SkipWhite(s, i);
    if a >= |s| then [] else
      var (t, p) := TokenAt(s, a);
      [t] + Lex(s, p)
  }

  lemma {:induction false} LexSkips(s: string, i: nat)
    ensures Lex(s, SkipWhite(s, i)) == Lex(s, i)
    decreases |s| - i
  {
    var a := SkipWhite(s, i);
    assert SkipWhite(s, a) == a;
  }

  // ----- what the tokens are, by the text alone -----

  predicate IsWord(t: Tok) { t.kind == Plain || t.kind == Quoted }

  // Where a token begins, and where the text behind it does, its quotes included.
  function StartOf(t: Tok): int { if t.kind == Quoted then t.span.from - 1 else t.span.from }

  function PastOf(s: string, t: Tok): nat {
    if t.kind == Quoted then t.span.to + 1 else if t.kind == Broken then |s| else t.span.to
  }

  ghost predicate Reads(s: string, w: Span, text: string) { w.from <= w.to <= |s| && s[w.from..w.to] == text }

  // A word without white space and symbols that does not start with a quote and goes as far
  // as it can.
  ghost predicate IsPlain(s: string, w: Span) {
    && w.from < w.to <= |s| && s[w.from] != '\"' && s[w.from] != '\''
    && (forall k :: w.from <= k < w.to ==> s[k] !in " \t\r\n\U{B}" && s[k] !in "<|>&;()")
    && (w.to < |s| ==> s[w.to] in " \t\r\n\U{B}" || s[w.to] in "<|>&;()")
  }

  // Text between two equal quotes that does not hold that quote.
  ghost predicate IsQuoted(s: string, w: Span) {
    && 0 < w.from <= w.to < |s| && (s[w.from - 1] == '\"' || s[w.from - 1] == '\'') && s[w.to] == s[w.from - 1]
    && forall k :: w.from <= k < w.to ==> s[k] != s[w.from - 1]
  }

  // A quote that does not come again.
  ghost predicate IsBroken(s: string, w: Span) {
    && w.from == w.to < |s| && (s[w.from] == '\"' || s[w.from] == '\'')
    && forall k :: w.from < k < |s| ==> s[k] != s[w.from]
  }

  // The kind of a token is that of the characters at its place.
  ghost predicate Spelled(s: string, t: Tok) {
    match t.kind
    case Bar => Reads(s, t.span, "|")
    case Open => Reads(s, t.span, "(")
    case Close => Reads(s, t.span, ")")
    case Semi => Reads(s, t.span, ";")
    case Amp => Reads(s, t.span, "&")
    case Less => Reads(s, t.span, "<")
    case Greater => Reads(s, t.span, ">") && (t.span.to < |s| ==> s[t.span.to] != '>')
    case Append => Reads(s, t.span, ">>")
    case Plain => IsPlain(s, t.span)
    case Quoted => IsQuoted(s, t.span)
    case Broken => IsBroken(s, t.span)
  }

  ghost predicate AllWhite(s: string, i: int, j: int) {
    0 <= i <= j <= |s| && forall k :: i <= k < j ==> s[k] in " \t\r\n\U{B}"
  }

  // The text from i on consists of these tokens, one behind the other, and of white space in
  // front of, between and behind them.
  ghost predicate MadeOf(s: string, i: nat, ts: seq<Tok>)
    decreases |ts|
  {
    if |ts| == 0 then AllWhite(s, i, |s|)
    else AllWhite(s, i, StartOf(ts[0])) && Spelled(s, ts[0]) && MadeOf(s, PastOf(s, ts[0]), ts[1..])
  }

  lemma {:induction false} SkipsWhite(s: string, i: nat)
    requires i <= |s|
    ensures AllWhite(s, i, SkipWhite(s, i))
    decreases |s| - i
  {
    if i < |s| && IsWhite(s[i]) { SkipsWhite(s, i + 1); }
  }

  lemma {:induction false} SkipsAll(s: string, i: nat, j: nat)
    requires AllWhite(s, i, j) && (j < |s| ==> !IsWhite(s[j]))
    ensures SkipWhite(s, i) == j
    decreases j - i
  {
    if i < j { SkipsAll(s, i + 1, j); }
  }

  lemma {:induction false} QuoteEndsAt(s: string, i: nat, c: char, j: nat)
    requires i <= j <= |s| && (forall k :: i <= k < j ==> s[k] != c) && (j < |s| ==> s[j] == c)
    ensures QuoteEnd(s, i, c) == j
    decreases j - i
  {
    if i < j { QuoteEndsAt(s, i + 1, c, j); }
  }

  lemma {:induction false} QuoteEndsFirst(s: string, i: nat, c: char)
    requires i <= |s|
    ensures forall k :: i <= k < QuoteEnd(s, i, c) ==> s[k] != c
    decreases |s| - i
  {
    if i < |s| && s[i] != c { QuoteEndsFirst(s, i + 1, c); }
  }

  lemma {:induction false} WordEndsAt(s: string, i: nat, j: nat)
    requires i <= j <= |s| && (forall k :: i <= k < j ==> !IsWhite(s[k]) && !IsSymbol(s[k]))
    requires j < |s| ==> IsWhite(s[j]) || IsSymbol(s[j])
    ensures WordEnd(s, i) == j
    decreases j - i
  {
    if i < j { WordEndsAt(s, i + 1, j); }
  }

  // The scanner's token is spelled as its kind says.
  lemma TokenSpelled(s: string, a: nat)
    requires a < |s| && !IsWhite(s[a])
    ensures var (t, p) := TokenAt(s, a); StartOf(t) == a && PastOf(s, t) == p && Spelled(s, t)
  {
    if IsQuote(s[a]) {
      QuoteEndsFirst(s, a + 1, s[a]);
    } else if IsSymbol(s[a]) {
      assert s[a..a + 1] == [s[a]];
      assert a + 1 < |s| ==> s[a..a + 2] == [s[a], s[a + 1]];
    } else {
      WordEndsAt(s, a, WordEnd(s, a));
    }
  }

  // And a token that is spelled as its kind says is the one that the scanner finds there.
  lemma SpelledIsToken(s: string, t: Tok)
    requires Spelled(s, t)
    ensures var a := StartOf(t); 0 <= a < |s| && !IsWhite(s[a]) && TokenAt(s, a) == (t, PastOf(s, t))
  {
    if IsWord(t) || t.kind == Broken { WordIsToken(s, t); } else { SymbolIsToken(s, t); }
  }

  lemma WordIsToken(s: string, t: Tok)
    requires Spelled(s, t) && (IsWord(t) || t.kind == Broken)
    ensures var a := StartOf(t); 0 <= a < |s| && !IsWhite(s[a]) && TokenAt(s, a) == (t, PastOf(s, t))
  {
    var w := t.span;
    if t.kind == Plain {
      WordEndsAt(s, w.from, w.to);
    } else if t.kind == Quoted {
      QuoteEndsAt(s, w.from, s[w.from - 1], w.to);
    } else {
      QuoteEndsAt(s, w.from + 1, s[w.from], |s|);
    }
  }

  lemma SymbolIsToken(s: string, t: Tok)
    requires Spelled(s, t) && !IsWord(t) && t.kind != Broken
    ensures var a := StartOf(t); 0 <= a < |s| && !IsWhite(s[a]) && TokenAt(s, a) == (t, PastOf(s, t))
  {
    var w := t.span;
    assert s[w.from] == s[w.from..w.to][0];
    if t.kind == Append { assert s[w.from + 1] == s[w.from..w.to][1]; }
  }

  // The tokens found are the only ones that the text is made of.
  lemma {:induction false} LexIff(s: string, i: nat, ts: seq<Tok>)
    requires i <= |s|
    ensures MadeOf(s, i, ts) <==> ts == Lex(s, i)
    decreases |s| - i
  {
    var a := SkipWhite(s, i);
    SkipsWhite(s, i);
    if a < |s| {
      TokenSpelled(s, a);
      var (t, p) := TokenAt(s, a);
      if |ts| > 0 {
        LexIff(s, p, ts[1..]);
        if Spelled(s, ts[0]) && AllWhite(s, i, StartOf(ts[0])) {
          SpelledIsToken(s, ts[0]);
          SkipsAll(s, i, StartOf(ts[0]));
        }
        assert ts == [ts[0]] + ts[1..];
      }
    } else if |ts| > 0 && Spelled(s, ts[0]) {
      SpelledIsToken(s, ts[0]);
    }
  }

  // ----- where the words stand -----

  // Words come one behind the other, and there is a character, or the end of the line,
  // between a word and the next that belongs to neither.
  ghost predicate Before(ts: seq<Tok>, i: int, j: int) {
    0 <= i < |ts| && 0 <= j < |ts| && (IsWord(ts[i]) && IsWord(ts[j]) ==> ts[i].span.to < ts[j].span.from)
  }

  ghost predicate InLine(s: string, ts: seq<Tok>, i: int) {
    0 <= i < |ts| && (IsWord(ts[i]) ==> ts[i].span.from <= ts[i].span.to <= |s|)
  }

  ghost predicate Spread(s: string, ts: seq<Tok>) {
    && (forall i {:trigger InLine(s, ts, i)} :: 0 <= i < |ts| ==> InLine(s, ts, i))
    && forall i, j {:trigger Before(ts, i, j)} :: 0 <= i < j < |ts| ==> Before(ts, i, j)
  }

  lemma {:induction false} LexStarts(s: string, i: nat)
    ensures forall k :: 0 <= k < |Lex(s, i)| ==> StartOf(Lex(s, i)[k]) >= i
    decreases |s| - i
  {
    var a := SkipWhite(s, i);
    if a < |s| { LexStarts(s, TokenAt(s, a).1); }
  }

  // Where a plain word ends, no word starts.
  lemma LexBehind(s: string, p: nat)
    requires p < |s| && (IsWhite(s[p]) || IsSymbol(s[p]))
    ensures forall k :: 0 <= k < |Lex(s, p)| && IsWord(Lex(s, p)[k]) ==> p < Lex(s, p)[k].span.from
  {
    if IsWhite(s[p]) {
      assert SkipWhite(s, p) == SkipWhite(s, p + 1) && Lex(s, p) == Lex(s, p + 1);
      LexStarts(s, p + 1);
    } else {
      var (t, q) := TokenAt(s, p);
      LexStarts(s, q);
      assert SkipWhite(s, p) == p && Lex(s, p) == [t] + Lex(s, q);
    }
  }

  // The token behind a word starts behind the character that ends it.
  lemma FirstBehind(s: string, p: nat, t: Tok, a: nat)
    requires a < |s| && !IsWhite(s[a]) && TokenAt(s, a) == (t, p)
    ensures IsWord(t) ==> forall k :: 0 <= k < |Lex(s, p)| && IsWord(Lex(s, p)[k]) ==>
      t.span.to < Lex(s, p)[k].span.from
  {
    LexStarts(s, p);
    if t.kind == Plain && p < |s| { LexBehind(s, p); }
  }

  lemma {:induction false} LexSpread(s: string, i: nat)
    ensures Spread(s, Lex(s, i))
    decreases |s| - i
  {
    var a := SkipWhite(s, i);
    if a < |s| {
      var (t, p) := TokenAt(s, a);
      var rest := Lex(s, p);
      LexSpread(s, p);
      var ts := [t] + rest;
      FirstBehind(s, p, t, a);
      forall k | 0 <= k < |ts| ensures InLine(s, ts, k) {
        if k > 0 { assert InLine(s, rest, k - 1); }
      }
      forall j, k | 0 <= j < k < |ts| ensures Before(ts, j, k) {
        if j > 0 { assert Before(rest, j - 1, k - 1); }
      }
    }
  }
}
