// Strings as the key-value store keeps them: cut into blocks of 28 characters,
// compared and copied block by block with the C string functions.
module KvStrings {

  const BLOCK_LEN := 28

  // A C string: no NUL inside.  The terminator is implicit.
  ghost predicate IsText(s: string) {
    forall i :: 0 <= i < |s| ==> s[i] != '\0'
  }

  function CharAt(s: string): char { if |s| > 0 then s[0] else '\0' }

  // strncmp on two C strings; b may also carry its NULs explicitly.
  function StrNCmp(a: string, b: string, n: nat): int
    decreases |a|
  {
    if n == 0 then 0
    else if CharAt(a) != CharAt(b) then CharAt(a) as int - CharAt(b) as int
    else if CharAt(a) == '\0' then 0
    else StrNCmp(a[1..], b[1..], n - 1)
  }

  // The characters up to the first NUL.
  function CStr(s: string): string {
    if |s| == 0 || s[0] == '\0' then "" else [s[0]] + CStr(s[1..])
  }

  function Zeros(n: nat): (z: string)
    ensures |z| == n && forall i :: 0 <= i < n ==> z[i] == '\0'
  {
    seq(n, _ => '\0')
  }

  function Chunks(s: string): nat { (|s| + BLOCK_LEN - 1) / BLOCK_LEN }

  // The j-th block of s, filled up with NULs.
  function Chunk(s: string, j: nat): (c: string)
    requires j < Chunks(s)
    ensures |c| == BLOCK_LEN
  {
    if |s| - BLOCK_LEN * j < BLOCK_LEN then s[BLOCK_LEN * j..] + Zeros(BLOCK_LEN - (|s| - BLOCK_LEN * j))
    else s[BLOCK_LEN * j..BLOCK_LEN * j + BLOCK_LEN]
  }

  // What a search for `key` accepts as equal to the stored string: the string
  // itself, and, if it fills its last block, everything it is a prefix of.
  predicate Matches(stored: string, key: string) {
    key == stored || (|stored| % BLOCK_LEN == 0 && stored <= key)
  }

  // ----- comparing -----

  lemma {:induction false} StrNCmpFull(key: string, info: string, n: nat)
    requires IsText(key) && |info| == n && IsText(info)
    ensures StrNCmp(key, info, n) == 0 <==> info <= key
    decreases n
  {
    if n > 0 {
      if key != "" && key[0] == info[0] {
        StrNCmpFull(key[1..], info[1..], n - 1);
        assert info <= key <==> info[1..] <= key[1..];
      }
    }
  }

  lemma {:induction false} StrNCmpShort(key: string, text: string, n: nat)
    requires IsText(key) && IsText(text) && |text| < n
    ensures StrNCmp(key, text + Zeros(n - |text|), n) == 0 <==> key == text
    decreases n
  {
    var info := text + Zeros(n - |text|);
    if text != "" && key != "" && key[0] == text[0] {
      StrNCmpShort(key[1..], text[1..], n - 1);
      assert info[1..] == text[1..] + Zeros(n - 1 - |text[1..]|);
      assert key == text <==> key[1..] == text[1..];
    }
  }

  // The block walk, on values: compare block by block from block j on.
  function BlocksCmp(key: string, s: string, j: nat): int
    requires j < Chunks(s)
    decreases Chunks(s) - j
  {
    var c := StrNCmp(key, Chunk(s, j), BLOCK_LEN);
    if j + 1 == Chunks(s) || c != 0 then c
    else BlocksCmp(if BLOCK_LEN <= |key| then key[BLOCK_LEN..] else "", s, j + 1)
  }

  lemma {:induction false} BlocksCmpIsMatch(key: string, s: string, j: nat)
    requires IsText(key) && IsText(s) && j < Chunks(s)
    ensures BlocksCmp(key, s, j) == 0 <==> Matches(s[BLOCK_LEN * j..], key)
    decreases Chunks(s) - j
  {
    var rest := s[BLOCK_LEN * j..];
    if |rest| < BLOCK_LEN {
      StrNCmpShort(key, rest, BLOCK_LEN);
    } else {
      StrNCmpFull(key, Chunk(s, j), BLOCK_LEN);
      if j + 1 < Chunks(s) && Chunk(s, j) <= key {
        BlocksCmpIsMatch(key[BLOCK_LEN..], s, j + 1);
        assert rest[BLOCK_LEN..] == s[BLOCK_LEN * (j + 1)..];
      }
      MatchesByBlock(rest, key);
    }
  }

  lemma MatchesByBlock(s: string, key: string)
    requires BLOCK_LEN <= |s|
    ensures Matches(s, key) <==>
      s[..BLOCK_LEN] <= key && (|s| == BLOCK_LEN || Matches(s[BLOCK_LEN..], key[BLOCK_LEN..]))
  {
    var n := BLOCK_LEN;
    assert s == s[..n] + s[n..];
    if n <= |key| { assert key == key[..n] + key[n..]; }
  }

  // ----- copying -----

  lemma {:induction false} CStrOfPadded(text: string, n: nat)
    requires IsText(text) && 0 < n
    ensures CStr(text + Zeros(n)) == text
  {
    var s := text + Zeros(n);
    if text != "" {
      CStrOfPadded(text[1..], n);
      assert s[1..] == text[1..] + Zeros(n);
    }
  }

  // The last block of a string, followed by the four zero bytes of its empty link.
  lemma CStrOfLastChunk(s: string)
    requires IsText(s) && s != ""
    ensures var j := Chunks(s) - 1;
      CStr(Chunk(s, j) + Zeros(4)) == s[BLOCK_LEN * j..]
  {
    var j := Chunks(s) - 1;
    var rest := s[BLOCK_LEN * j..];
    assert Chunk(s, j) + Zeros(4) == rest + Zeros(BLOCK_LEN - |rest| + 4);
    CStrOfPadded(rest, BLOCK_LEN - |rest| + 4);
  }

  // strncpy: stops at a NUL and fills up with NULs.
  method StrNCpy(dst: array<char>, off: nat, src: string, n: nat)
    requires off + n <= dst.Length && n <= |src|
    modifies dst
    ensures dst[..off] == old(dst[..off]) && dst[off + n..] == old(dst[off + n..])
    ensures IsText(src[..n]) ==> dst[off..off + n] == src[..n]
  {
    var k := 0;
    var ended := false;
    while k < n
      invariant 0 <= k <= n && (IsText(src[..n]) ==> !ended)
      invariant forall i :: 0 <= i < off || off + n <= i < dst.Length ==> dst[i] == old(dst[i])
      invariant !ended ==> forall i :: 0 <= i < k ==> dst[off + i] == src[i]
    {
      if src[k] == '\0' {
        assert !IsText(src[..n]) by { assert src[..n][k] == '\0'; }
        ended := true;
      }
      dst[off + k] := if ended then '\0' else src[k];
      k := k + 1;
    }
  }

  // strcpy: copies up to and including the first NUL of src.
  method StrCpy(dst: array<char>, off: nat, src: string)
    requires |CStr(src)| < |src| && off + |CStr(src)| < dst.Length
    modifies dst
    ensures dst[..off] == old(dst[..off])
    ensures dst[off..off + |CStr(src)|] == CStr(src) && dst[off + |CStr(src)|] == '\0'
  {
    CStrIsPrefix(src);
    var k := 0;
    while src[k] != '\0'
      invariant 0 <= k <= |CStr(src)|
      invariant forall i :: 0 <= i < off ==> dst[i] == old(dst[i])
      invariant forall i :: 0 <= i < k ==> dst[off + i] == src[i]
      decreases |src| - k
    {
      dst[off + k] := src[k];
      k := k + 1;
    }
    dst[off + k] := '\0';
  }

  lemma {:induction false} CStrIsPrefix(s: string)
    ensures CStr(s) <= s && IsText(CStr(s))
    ensures |CStr(s)| < |s| ==> s[|CStr(s)|] == '\0'
  {
    if |s| > 0 && s[0] != '\0' { CStrIsPrefix(s[1..]); }
  }
}
