// Paths as stacks of names: what appending one path to another means.
module Paths {

  // Names that can be on the stack: not empty, no slash, not "." or "..".
  predicate IsName(c: string) { c != "" && c != "." && c != ".." && '/' !in c }

  ghost predicate Names(stack: seq<string>) { forall i :: 0 <= i < |stack| ==> IsName(stack[i]) }

  // The parts of a path between its slashes.
  function Components(s: string): (c: seq<string>)
    ensures |c| > 0
    decreases |s|
  {
    if |s| == 0 then [""]
    else
      var rest := Components(s[1..]);
      if s[0] == '/' then [""] + rest else [[s[0]] + rest[0]] + rest[1..]
  }

  // One part of a path: "" and "." stay, ".." goes up, but not past the root.
  function Enter(stack: seq<string>, c: string): seq<string> {
    if c == "" || c == "." then stack
    else if c == ".." then (if |stack| == 0 then stack else stack[..|stack| - 1])
    else stack + [c]
  }

  function Walk(stack: seq<string>, path: seq<string>): seq<string>
    decreases |path|
  {
    if |path| == 0 then stack else Walk(Enter(stack, path[0]), path[1..])
  }

  // The stack as a directory with a slash at the end.
  function Opened(stack: seq<string>): string {
    if |stack| == 0 then "/" else Opened(stack[..|stack| - 1]) + stack[|stack| - 1] + "/"
  }

  // The stack as a path: no slash at the end but for the root.
  function Render(stack: seq<string>): (s: string)
    ensures |s| > 0
  {
    if |stack| == 0 then "/" else Opened(stack[..|stack| - 1]) + stack[|stack| - 1]
  }

  // What appending src to the directory `stack` gives.
  function Appended(stack: seq<string>, src: string): seq<string> {
    Walk(if |src| > 0 && src[0] == '/' then [] else stack, Components(src))
  }

  // ----- about components -----

  lemma {:induction false} ComponentsHaveNoSlash(s: string)
    ensures forall i :: 0 <= i < |Components(s)| ==> '/' !in Components(s)[i]
    decreases |s|
  {
    if |s| > 0 { ComponentsHaveNoSlash(s[1..]); }
  }

  lemma ComponentsCons(x: char, t: string)
    ensures var rest := Components(t);
      Components([x] + t) == if x == '/' then [""] + rest else [[x] + rest[0]] + rest[1..]
  {
    assert ([x] + t)[1..] == t;
  }

  // A path p, a slash and a path q have the parts of p and then those of q.
  lemma {:induction false} ComponentsOfJoin(p: string, q: string)
    ensures Components(p + "/" + q) == Components(p) + Components(q)
    decreases |p|
  {
    var cq := Components(q);
    if |p| == 0 {
      assert p + "/" + q == ['/'] + q;
      ComponentsCons('/', q);
    } else {
      var x, t := p[0], p[1..];
      var rest := Components(t);
      ComponentsOfJoin(t, q);
      assert p == [x] + t && p + "/" + q == [x] + (t + "/" + q);
      ComponentsCons(x, t);
      ComponentsCons(x, t + "/" + q);
      HeadOfConcat(rest, cq, x);
    }
  }

  lemma HeadOfConcat(rest: seq<string>, more: seq<string>, x: char)
    requires |rest| > 0
    ensures [""] + (rest + more) == ([""] + rest) + more
    ensures [[x] + (rest + more)[0]] + (rest + more)[1..] == ([[x] + rest[0]] + rest[1..]) + more
  {
  }

  lemma {:induction false} NoSlash(s: string)
    requires '/' !in s
    ensures Components(s) == [s]
    decreases |s|
  {
    if |s| > 0 {
      NoSlash(s[1..]);
      assert [s[0]] + s[1..] == s;
    }
  }

  lemma {:induction false} WalkConcat(stack: seq<string>, a: seq<string>, b: seq<string>)
    ensures Walk(stack, a + b) == Walk(Walk(stack, a), b)
    decreases |a|
  {
    if |a| == 0 {
      assert a + b == b;
    } else {
      assert (a + b)[1..] == a[1..] + b;
      WalkConcat(Enter(stack, a[0]), a[1..], b);
    }
  }

  lemma {:induction false} WalkKeepsNames(stack: seq<string>, path: seq<string>)
    requires Names(stack) && forall i :: 0 <= i < |path| ==> '/' !in path[i]
    ensures Names(Walk(stack, path))
    decreases |path|
  {
    if |path| > 0 { WalkKeepsNames(Enter(stack, path[0]), path[1..]); }
  }

  // Whatever is appended, the result is a normal path.
  lemma AppendedIsNormal(stack: seq<string>, src: string)
    requires Names(stack)
    ensures Names(Appended(stack, src))
  {
    ComponentsHaveNoSlash(src);
    WalkKeepsNames(if |src| > 0 && src[0] == '/' then [] else stack, Components(src));
  }

  // Appending p and then a relative q is appending p/q.
  lemma AppendTwice(stack: seq<string>, p: string, q: string)
    requires p != "" && (|q| > 0 ==> q[0] != '/')
    ensures Appended(Appended(stack, p), q) == Appended(stack, p + "/" + q)
  {
    ComponentsOfJoin(p, q);
    WalkConcat(if p[0] == '/' then [] else stack, Components(p), Components(q));
  }

  // What one part does: a name goes on top, and ".." takes it off again; at the root it
  // stays, as "." and "" do everywhere.
  lemma AppendOne(stack: seq<string>, n: string)
    requires '/' !in n
    ensures IsName(n) ==> Appended(stack, n) == stack + [n] && Appended(stack + [n], "..") == stack
    ensures Appended([], "..") == []
    ensures Appended(stack, ".") == stack && Appended(stack, "") == stack
  {
    NoSlash(n);
    NoSlash("..");
    NoSlash(".");
    WalkOne(stack, n);
    WalkOne(stack + [n], "..");
    WalkOne([], "..");
    WalkOne(stack, ".");
    WalkOne(stack, "");
    assert (stack + [n])[..|stack|] == stack;
  }

  lemma WalkOne(stack: seq<string>, c: string)
    ensures Walk(stack, [c]) == Enter(stack, c)
  {
    assert [c][1..] == [];
  }

  // An absolute path leads to the same place from everywhere.
  lemma AppendAbsolute(stack: seq<string>, p: string)
    ensures Appended(stack, "/" + p) == Appended([], p)
  {
    ComponentsCons('/', p);
    assert ["/"[0]] + p == "/" + p;
    assert ([""] + Components(p))[1..] == Components(p);
  }

  // A rendered path read again gives the stack back; so no two stacks render alike.
  lemma {:induction false} RenderedReadsBack(stack: seq<string>)
    requires Names(stack)
    ensures Appended([], Render(stack)) == stack && Walk([], Components(Opened(stack))) == stack
    decreases |stack|
  {
    if |stack| == 0 {
      assert Components("/") == ["", ""];
      assert Walk([], ["", ""]) == Walk([], [""]);
    } else {
      var init, c := stack[..|stack| - 1], stack[|stack| - 1];
      RenderedReadsBack(init);
      OpenedEnds(init);
      var o := Opened(init);
      assert o + c == o[..|o| - 1] + "/" + c;
      ComponentsOfJoin(o[..|o| - 1], c);
      NoSlash(c);
      assert o == o[..|o| - 1] + "/" + "";
      ComponentsOfJoin(o[..|o| - 1], "");
      ReadOne(o[..|o| - 1], c, init);
      assert stack == init + [c];
      assert o + c + "/" == o + c + "/" + "";
      ComponentsOfJoin(o + c, "");
      WalkConcat([], Components(o + c), [""]);
    }
  }

  lemma ReadOne(o: string, c: string, init: seq<string>)
    requires IsName(c) && Walk([], Components(o) + [""]) == init
    ensures Walk([], Components(o) + [c]) == init + [c]
  {
    WalkConcat([], Components(o), [""]);
    WalkConcat([], Components(o), [c]);
  }

  lemma OpenedEnds(stack: seq<string>)
    ensures |Opened(stack)| > 0 && Opened(stack)[0] == '/' && Opened(stack)[|Opened(stack)| - 1] == '/'
    ensures |stack| > 0 && stack[|stack| - 1] != "" ==> |Opened(stack)| > 2
  {
  }

  lemma RenderInjective(a: seq<string>, b: seq<string>)
    requires Names(a) && Names(b) && Render(a) == Render(b)
    ensures a == b
  {
    RenderedReadsBack(a);
    RenderedReadsBack(b);
  }
}
