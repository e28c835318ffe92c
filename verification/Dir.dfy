// dir_cat: a path appended to another, in the buffer that holds it.
module Dir {
  import opened Paths

  // The buffer holds the C string s.
  ghost predicate Text(buf: seq<char>, s: string) {
    |s| < |buf| && buf[..|s|] == s && buf[|s|] == '\0' && '\0' !in s
  }

  lemma Cut(buf: seq<char>, s: string, k: nat)
    requires Text(buf, s) && k <= |s|
    ensures Text(buf[k := '\0'], s[..k])
  {
    assert buf[k := '\0'][..k] == buf[..|s|][..k];
  }

  // The index of the first slash from idx on, or -1.
  method GetFirstSlashFrom(path: string, idx: nat) returns (r: int)
    requires idx <= |path|
    ensures r == -1 || (idx <= r < |path| && path[r] == '/')
    ensures forall i :: idx <= i < (if r == -1 then |path| else r) ==> path[i] != '/'
  {
    r := idx;
    while r < |path|
      invariant idx <= r <= |path| && forall i :: idx <= i < r ==> path[i] != '/'
    {
      if path[r] == '/' { return; }
      r := r + 1;
    }
    r := -1;
  }

  method StrLen(buf: array<char>, ghost s: string) returns (n: nat)
    requires Text(buf[..], s)
    ensures n == |s|
  {
    SameChars(buf[..], s);
    n := 0;
    while buf[n] != '\0'
      invariant n <= |s|
      decreases |s| - n
    {
      n := n + 1;
    }
  }

  lemma SameChars(buf: seq<char>, s: string)
    requires Text(buf, s)
    ensures forall i {:trigger buf[i]} :: 0 <= i < |s| ==> buf[i] == s[i] && buf[i] != '\0'
  {
    forall i | 0 <= i < |s| ensures buf[i] == s[i] && buf[i] != '\0' {
      assert buf[..|s|][i] == buf[i] && s[i] in s;
    }
  }

  // The index of the last slash, or -1.
  method GetLastSlash(buf: array<char>, ghost s: string) returns (r: int)
    requires Text(buf[..], s)
    ensures -1 <= r < |s| && (r >= 0 ==> s[r] == '/')
    ensures forall i :: r < i < |s| ==> s[i] != '/'
  {
    r := StrLen(buf, s);
    SameChars(buf[..], s);
    while r >= 0
      invariant -1 <= r <= |s| && forall i :: r < i < |s| ==> s[i] != '/'
    {
      if buf[r] == '/' { return; }
      r := r - 1;
    }
  }

  // strncat of at most n characters from src[off..].
  method StrNCat(dest: array<char>, src: string, off: nat, n: nat, ghost s: string)
    requires Text(dest[..], s) && off <= |src| && '\0' !in src
    requires |s| + |Part(src, off, n)| < dest.Length
    modifies dest
    ensures Text(dest[..], s + Part(src, off, n))
  {
    var at := StrLen(dest, s);
    var i := 0;
    ghost var part := Part(src, off, n);
    while i < n && off + i < |src|
      invariant 0 <= i <= |part| && dest[..|s|] == s
      invariant forall j :: 0 <= j < i ==> dest[|s| + j] == part[j]
    {
      dest[at + i] := src[off + i];
      i := i + 1;
    }
    dest[at + i] := '\0';
    assert dest[..|s| + i] == s + part;
    assert forall c :: c in part ==> c in src;
  }

  function Part(src: string, off: nat, n: nat): string
    requires off <= |src|
  {
    if off + n <= |src| then src[off..off + n] else src[off..]
  }

  // ".." takes the last name off the directory in the buffer, but not the root.
  method GoUp(dest: array<char>, ghost stack: seq<string>)
    requires Names(stack) && Text(dest[..], Opened(stack))
    modifies dest
    ensures Text(dest[..], Opened(Enter(stack, "..")))
    ensures Text(dest[..], if |stack| == 0 then "/" else Opened(stack[..|stack| - 1]))
  {
    var n := StrLen(dest, Opened(stack));
    OpenedEnds(stack);
    if !(n == 1 && dest[0] == '/') {
      ghost var init, c := stack[..|stack| - 1], stack[|stack| - 1];
      ghost var o := Opened(init);
      OpenedEnds(init);
      assert Opened(stack) == o + c + "/";
      var k := GetLastSlash(dest, Opened(stack));
      assert Opened(stack)[|Opened(stack)| - 1] == '/';
      Cut(dest[..], Opened(stack), k);
      dest[k] := '\0';
      assert Opened(stack)[..k] == o + c;
      k := GetLastSlash(dest, o + c);
      LastSlashOf(o, c, k);
      Cut(dest[..], o + c, k + 1);
      dest[k + 1] := '\0';
      assert (o + c)[..k + 1] == o;
    }
  }

  lemma LastSlashOf(o: string, c: string, k: int)
    requires |o| > 0 && o[|o| - 1] == '/' && '/' !in c
    requires -1 <= k < |o + c| && (k >= 0 ==> (o + c)[k] == '/') && forall i :: k < i < |o + c| ==> (o + c)[i] != '/'
    ensures k == |o| - 1
  {
    assert (o + c)[|o| - 1] == '/';
    forall i | |o| <= i < |o + c| ensures (o + c)[i] != '/' { assert c[i - |o|] in c; }
  }

  // The part of src from off on up to its next slash, and what follows it.
  lemma NextPart(src: string, off: nat, next: nat)
    requires off + next <= |src| && forall i :: off <= i < off + next ==> src[i] != '/'
    ensures off + next == |src| ==> Components(src[off..]) == [src[off..]]
    ensures off + next < |src| && src[off + next] == '/' ==>
      Components(src[off..]) == [src[off..off + next]] + Components(src[off + next + 1..])
  {
    var c := src[off..off + next];
    assert '/' !in c by { forall i | 0 <= i < |c| ensures c[i] != '/' { assert c[i] == src[off + i]; } }
    NoSlash(c);
    if off + next == |src| {
      assert c == src[off..];
    } else if src[off + next] == '/' {
      ComponentsOfJoin(c, src[off + next + 1..]);
      assert src[off..] == c + "/" + src[off + next + 1..];
    }
  }

  // One round of dir_cat_real: the part of src at off goes onto the directory in the buffer.
  method CatPart(dest: array<char>, src: string, off: nat, next: nat, ghost stack: seq<string>)
    requires Names(stack) && Text(dest[..], Opened(stack)) && '\0' !in src
    requires off + next <= |src| && (off + next < |src| ==> src[off + next] == '/')
    requires '/' !in src[off..off + next]
    requires |Opened(stack)| + next + 1 < dest.Length
    modifies dest
    ensures var after := Enter(stack, src[off..off + next]);
      && Names(after) && |Opened(after)| <= |Opened(stack)| + next + 1
      && (Text(dest[..], Opened(after)) || (off + next == |src| && |after| > 0 && Text(dest[..], Render(after))))
      && (off + next < |src| ==> Text(dest[..], Opened(after)))
  {
    ghost var c := src[off..off + next];
    var flag, up := Classify(src, off, next);
    if up {
      GoUp(dest, stack);
    } else if flag {
      Pushed(stack, c, src, off, next);
      StrNCat(dest, src, off, next + 1, Opened(stack));
    }
    EnterBounds(stack, c);
  }

  lemma EnterBounds(stack: seq<string>, c: string)
    requires Names(stack) && '/' !in c
    ensures Names(Enter(stack, c)) && |Opened(Enter(stack, c))| <= |Opened(stack)| + |c| + 1
  {
    if c != "" && c != "." && c != ".." { assert (stack + [c])[..|stack|] == stack; }
  }

  // The switch over the length of the part: whether it is a name to add, or "..".
  method Classify(src: string, off: nat, next: nat) returns (flag: bool, up: bool)
    requires off + next <= |src|
    ensures var c := src[off..off + next];
      (flag <==> c != "" && c != "." && c != "..") && (up <==> c == "..")
  {
    ShortNames(src[off..off + next]);
    flag, up := false, false;
    if next == 0 {
    } else if next == 1 {
      if src[off] != '.' { flag := true; }
    } else if next == 2 {
      if !(src[off] == '.' && src[off + 1] == '.') { flag := true; } else { up := true; }
    } else {
      flag := true;
    }
  }

  lemma ShortNames(c: string)
    ensures c == "." <==> |c| == 1 && c[0] == '.'
    ensures c == ".." <==> |c| == 2 && c[0] == '.' && c[1] == '.'
  {
  }

  // A name put behind the directory, with its slash if it has one.
  lemma Pushed(stack: seq<string>, c: string, src: string, off: nat, next: nat)
    requires off + next <= |src| && c == src[off..off + next] && (off + next < |src| ==> src[off + next] == '/')
    ensures Opened(stack + [c]) == Opened(stack) + c + "/" && Render(stack + [c]) == Opened(stack) + c
    ensures Opened(stack) + Part(src, off, next + 1) == if off + next < |src| then Opened(stack + [c])
      else Render(stack + [c])
  {
    assert (stack + [c])[..|stack|] == stack;
    if off + next < |src| {
      assert Part(src, off, next + 1) == c + "/";
      assert Opened(stack) + (c + "/") == Opened(stack) + c + "/";
    } else {
      assert Part(src, off, next + 1) == c;
    }
  }

  // dir_cat_real: each part of src in turn, on the directory in the buffer.
  method DirCatReal(dest: array<char>, src: string, ghost stack: seq<string>)
    requires Names(stack) && Text(dest[..], Opened(stack)) && '\0' !in src
    requires |Opened(stack)| + |src| + 1 < dest.Length
    modifies dest
    ensures var after := Walk(stack, Components(src));
      Names(after) && (Text(dest[..], Opened(after)) || (|after| > 0 && Text(dest[..], Render(after))))
  {
    var end, off: nat := false, 0;
    ghost var cur := stack;
    assert src[0..] == src;
    while !end
      invariant Names(cur)
      invariant !end ==> off <= |src| && Text(dest[..], Opened(cur)) && |Opened(cur)| + |src| - off + 1 < dest.Length
      invariant !end ==> Walk(cur, Components(src[off..])) == Walk(stack, Components(src))
      invariant end ==> cur == Walk(stack, Components(src))
      invariant end ==> Text(dest[..], Opened(cur)) || (|cur| > 0 && Text(dest[..], Render(cur)))
      decreases if end then 0 else |src| - off + 1
    {
      var slash := GetFirstSlashFrom(src, off);
      var next: nat := if slash == -1 then |src| - off else slash - off;
      NextPart(src, off, next);
      CatPart(dest, src, off, next, cur);
      cur := Enter(cur, src[off..off + next]);
      if slash == -1 {
        end := true;
        assert src[off..off + next] == src[off..];
      } else {
        off := off + next + 1;
      }
    }
  }

  lemma RenderEnds(stack: seq<string>)
    requires Names(stack)
    ensures if |stack| == 0 then Render(stack) == "/" else Render(stack)[|Render(stack)| - 1] != '/'
    ensures |stack| > 0 ==> Opened(stack) == Render(stack) + "/"
  {
    if |stack| > 0 {
      var c := stack[|stack| - 1];
      assert IsName(c) && c[|c| - 1] in c;
    }
  }

  // Leaves the directory to start from, with its slash: the one in the buffer, or the root.
  method OpenDirectory(dest: array<char>, src: string, ghost stack: seq<string>)
    requires Names(stack) && Text(dest[..], Render(stack)) && |Render(stack)| + 1 < dest.Length
    modifies dest
    ensures Text(dest[..], Opened(if |src| > 0 && src[0] == '/' then [] else stack))
  {
    if |src| > 0 && src[0] == '/' {
      RenderStarts(stack);
      Cut(dest[..], Render(stack), 1);
      dest[1] := '\0';
      assert Render(stack)[..1] == "/";
    } else {
      RenderEnds(stack);
      var len := StrLen(dest, Render(stack));
      LastChar(dest[..], Render(stack));
      if dest[len - 1] != '/' { PutSlash(dest, len, Render(stack)); }
    }
  }

  // What a single part appended comes to as a text.
  lemma OnePart(stack: seq<string>, src: string)
    requires Names(stack)
    ensures IsName(src) ==>
      Render(Appended(stack, src)) == if |stack| == 0 then "/" + src else Render(stack) + "/" + src
    ensures src == ".." ==> Appended(stack, src) == if |stack| == 0 then [] else stack[..|stack| - 1]
    ensures src == "." || src == "" ==> Appended(stack, src) == stack
  {
    if '/' !in src { AppendOne(stack, src); }
    if IsName(src) {
      RenderEnds(stack);
      assert (stack + [src])[..|stack|] == stack;
    }
    if src == ".." && |stack| > 0 {
      var init, n := stack[..|stack| - 1], stack[|stack| - 1];
      assert IsName(n) && stack == init + [n];
      AppendOne(init, n);
    }
  }

  // dir_cat: the buffer, holding a normal path, then holds the path that src leads to from there.
  method DirCat(dest: array<char>, src: string, ghost stack: seq<string>)
    requires Names(stack) && Text(dest[..], Render(stack)) && '\0' !in src
    requires |Render(stack)| + |src| + 2 < dest.Length
    modifies dest
    ensures Names(Appended(stack, src)) && Text(dest[..], Render(Appended(stack, src)))
    ensures IsName(src) ==> Text(dest[..], if |stack| == 0 then "/" + src else Render(stack) + "/" + src)
    ensures src == ".." ==> Text(dest[..], if |stack| == 0 then "/" else Render(stack[..|stack| - 1]))
    ensures src == "." || src == "" ==> Text(dest[..], Render(stack))
  {
    AppendedIsNormal(stack, src);
    OpenDirectory(dest, src, stack);
    DirCatReal(dest, src, if |src| > 0 && src[0] == '/' then [] else stack);
    TrimSlash(dest, Appended(stack, src));
    OnePart(stack, src);
  }

  lemma RenderStarts(stack: seq<string>)
    ensures Render(stack)[0] == '/'
  {
    if |stack| > 0 { OpenedEnds(stack[..|stack| - 1]); }
  }

  lemma LastChar(buf: seq<char>, s: string)
    requires Text(buf, s) && |s| > 0
    ensures buf[|s| - 1] == s[|s| - 1]
  {
    assert buf[..|s|][|s| - 1] == buf[|s| - 1];
  }

  method PutSlash(dest: array<char>, len: nat, ghost s: string)
    requires Text(dest[..], s) && len == |s| && len + 1 < dest.Length
    modifies dest
    ensures Text(dest[..], s + "/")
  {
    dest[len] := '/';
    dest[len + 1] := '\0';
    assert dest[..len + 1] == s + "/";
  }

  // The slash at the end goes, unless it is all there is.
  method TrimSlash(dest: array<char>, ghost stack: seq<string>)
    requires Names(stack) && (Text(dest[..], Opened(stack)) || (|stack| > 0 && Text(dest[..], Render(stack))))
    modifies dest
    ensures Text(dest[..], Render(stack))
  {
    RenderEnds(stack);
    OpenedEnds(stack);
    ghost var s := if Text(dest[..], Opened(stack)) then Opened(stack) else Render(stack);
    var len := StrLen(dest, s);
    LastChar(dest[..], s);
    if dest[len - 1] == '/' && len > 1 {
      Cut(dest[..], s, len - 1);
      dest[len - 1] := '\0';
      assert s[..len - 1] == Render(stack);
    }
  }
}
