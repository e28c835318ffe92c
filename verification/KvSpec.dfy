// What the store means: a list of key-value pairs searched from the front, and
// when that list behaves as a dictionary.
module KvSpec {
  import opened KvStrings

  datatype Pair = Pair(key: string, value: string)

  datatype Option<+T> = None | Some(value: T)

  // The position of the first pair the search accepts for key.
  function Find(ps: seq<Pair>, key: string): (i: nat)
    ensures i <= |ps|
    ensures i < |ps| ==> Matches(ps[i].key, key)
    ensures forall j :: 0 <= j < i ==> !Matches(ps[j].key, key)
  {
    if |ps| == 0 || Matches(ps[0].key, key) then 0 else 1 + Find(ps[1..], key)
  }

  function Put(ps: seq<Pair>, key: string, value: string): seq<Pair> {
    var i := Find(ps, key);
    if i < |ps| then ps[i := Pair(ps[i].key, value)] else ps + [Pair(key, value)]
  }

  function Get(ps: seq<Pair>, key: string): Option<string> {
    var i := Find(ps, key);
    if i < |ps| then Some(ps[i].value) else None
  }

  // A history of puts, oldest first, and the store it leaves.
  function Replay(puts: seq<Pair>): seq<Pair> {
    if |puts| == 0 then []
    else var p := puts[|puts| - 1]; Put(Replay(puts[..|puts| - 1]), p.key, p.value)
  }

  // What a dictionary would answer: the value last put under this very key.
  function LastPut(puts: seq<Pair>, key: string): Option<string> {
    if |puts| == 0 then None
    else var p := puts[|puts| - 1]; if p.key == key then Some(p.value) else LastPut(puts[..|puts| - 1], key)
  }

  // No key that fills its last block is a proper prefix of another key.
  ghost predicate PrefixSafe(keys: iset<string>) {
    forall a, b :: a in keys && b in keys && Matches(a, b) ==> a == b
  }

  ghost predicate KeysIn(ps: seq<Pair>, keys: iset<string>) {
    forall i :: 0 <= i < |ps| ==> ps[i].key in keys
  }

  lemma {:induction false} ReplayKeys(puts: seq<Pair>, keys: iset<string>)
    requires KeysIn(puts, keys)
    ensures KeysIn(Replay(puts), keys)
  {
    if |puts| > 0 { ReplayKeys(puts[..|puts| - 1], keys); }
  }

  lemma PutThenGet(ps: seq<Pair>, key: string, value: string, other: string, keys: iset<string>)
    requires KeysIn(ps, keys) && key in keys && other in keys && PrefixSafe(keys)
    ensures Get(Put(ps, key, value), other) == if other == key then Some(value) else Get(ps, other)
  {
    var i, ps' := Find(ps, key), Put(ps, key, value);
    forall j, x | 0 <= j < |ps| && x in keys ensures Matches(ps[j].key, x) <==> ps[j].key == x {}
    assert i < |ps| ==> ps[i].key == key;
    assert Matches(other, other);
    var k := Find(ps, other);
    FindIs(ps', other, if other == key then i else if k < |ps| then k else |ps'|);
  }

  lemma FindIs(ps: seq<Pair>, key: string, i: nat)
    requires i <= |ps| && (i < |ps| ==> Matches(ps[i].key, key))
    requires forall j :: 0 <= j < i ==> !Matches(ps[j].key, key)
    ensures Find(ps, key) == i
  {
  }

  // Over any run, a get answers with the last put of its key, or nothing.
  lemma {:induction false} RunsAsDictionary(puts: seq<Pair>, key: string, keys: iset<string>)
    requires KeysIn(puts, keys) && key in keys && PrefixSafe(keys)
    ensures Get(Replay(puts), key) == LastPut(puts, key)
  {
    if |puts| > 0 {
      var before, p := puts[..|puts| - 1], puts[|puts| - 1];
      RunsAsDictionary(before, key, keys);
      ReplayKeys(before, keys);
      PutThenGet(Replay(before), p.key, p.value, key, keys);
    }
  }

  // The condition is needed: if it fails for two keys, one put and one get show it.
  lemma FailsOnPrefix(a: string, b: string, value: string)
    requires Matches(a, b) && a != b
    ensures Get(Replay([Pair(a, value)]), b) == Some(value) && LastPut([Pair(a, value)], b) == None
  {
    var puts := [Pair(a, value)];
    assert Replay(puts[..0]) == [];
    assert LastPut(puts[..0], b) == None;
  }

  // What can be stored.
  ghost predicate GoodPair(p: Pair) {
    p.key != "" && IsText(p.key) && p.value != "" && IsText(p.value)
  }

  // A history of puts under these keys.
  ghost predicate GoodRun(puts: seq<Pair>, keys: iset<string>) {
    KeysIn(puts, keys) && forall i :: 0 <= i < |puts| ==> GoodPair(puts[i])
  }

  // Exactly the prefix-safe sets of keys make a dictionary of the store.
  lemma DictionaryIffPrefixSafe(keys: iset<string>)
    requires forall k :: k in keys ==> k != "" && IsText(k)
    ensures PrefixSafe(keys) <==>
      forall puts, key :: GoodRun(puts, keys) && key in keys ==> Get(Replay(puts), key) == LastPut(puts, key)
  {
    if PrefixSafe(keys) {
      forall puts, key | GoodRun(puts, keys) && key in keys ensures Get(Replay(puts), key) == LastPut(puts, key) {
        RunsAsDictionary(puts, key, keys);
      }
    } else {
      var a, b :| a in keys && b in keys && Matches(a, b) && a != b;
      FailsOnPrefix(a, b, "v");
      assert GoodRun([Pair(a, "v")], keys);
    }
  }

  // Keys whose length is no multiple of the block length are always safe.
  lemma OddLengthsAreSafe(keys: iset<string>)
    requires forall k :: k in keys ==> |k| % BLOCK_LEN != 0
    ensures PrefixSafe(keys)
  {
    forall a, b | a in keys && b in keys && Matches(a, b) ensures a == b {
      assert |a| % BLOCK_LEN != 0;
    }
  }
}
