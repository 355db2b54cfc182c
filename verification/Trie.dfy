// The search tree behind the block lists: keys are stored letter by letter, and a walk along a text meets exactly
// the stored keys that start the text.
module Trie {
  import opened Wrappers

  datatype Node = Node(value: Option<nat>, children: map<char, Node>)

  const EMPTY := Node(None, map[])

  function Child(t: Node, c: char): Node {
    if c in t.children then t.children[c] else EMPTY
  }

  /** Stores `v` under `key`, replacing an earlier value. */
  function Insert(t: Node, key: string, v: nat): Node
    decreases |key|
  {
    if key == "" then t.(value := Some(v))
    else t.(children := t.children[key[0] := Insert(Child(t, key[0]), key[1..], v)])
  }

  function Lookup(t: Node, key: string): Option<nat>
    decreases |key|
  {
    if key == "" then t.value
    else if key[0] in t.children then Lookup(t.children[key[0]], key[1..])
    else None
  }

  /** The values met on the walk along `text`, shortest key first. */
  function CommonPrefixes(t: Node, text: string): seq<nat>
    decreases |text|
  {
    (if t.value.Some? then [t.value.value] else []) +
    (if text != "" && text[0] in t.children then CommonPrefixes(t.children[text[0]], text[1..]) else [])
  }

  lemma {:induction false} LookupInEmpty(key: string)
    ensures Lookup(EMPTY, key) == None
  {
  }

  lemma {:induction false} LookupAfterInsert(t: Node, key: string, v: nat, q: string)
    ensures Lookup(Insert(t, key, v), q) == if q == key then Some(v) else Lookup(t, q)
    decreases |key|
  {
    if key != "" && q != "" && key[0] == q[0] {
      LookupAfterInsert(Child(t, key[0]), key[1..], v, q[1..]);
      LookupInEmpty(q[1..]);
      assert q == [q[0]] + q[1..] && key == [key[0]] + key[1..];
    }
  }

  /** The walk is sound and complete: it yields a value iff some prefix of the text is stored with it. */
  lemma {:induction false} CommonPrefixesAreStoredPrefixes(t: Node, text: string, v: nat)
    ensures v in CommonPrefixes(t, text) <==> exists n :: 0 <= n <= |text| && Lookup(t, text[..n]) == Some(v)
    decreases |text|
  {
    assert text[..0] == "";
    if text != "" && text[0] in t.children {
      var sub, rest := t.children[text[0]], text[1..];
      CommonPrefixesAreStoredPrefixes(sub, rest, v);
      forall n | 0 <= n <= |rest|
        ensures Lookup(t, text[..n + 1]) == Lookup(sub, rest[..n])
      {
        assert text[..n + 1][1..] == rest[..n];
      }
      if v in CommonPrefixes(sub, rest) {
        var n :| 0 <= n <= |rest| && Lookup(sub, rest[..n]) == Some(v);
        assert Lookup(t, text[..n + 1]) == Some(v);
      }
      if n :| 0 <= n <= |text| && Lookup(t, text[..n]) == Some(v) {
        if n > 0 {
          assert Lookup(t, text[..(n - 1) + 1]) == Lookup(sub, rest[..n - 1]);
        }
      }
    } else {
      forall n | 0 < n <= |text|
        ensures Lookup(t, text[..n]) == None
      {
      }
      if v in CommonPrefixes(t, text) {
        assert Lookup(t, text[..0]) == Some(v);
      }
    }
  }

  /** The tree after the first `n` keys of `keys` went in, each under its own position. */
  function Filled(keys: seq<string>, n: nat): Node
    requires n <= |keys|
  {
    if n == 0 then EMPTY else Insert(Filled(keys, n - 1), keys[n - 1], n - 1)
  }

  /** `Cedar::build` over the pairs (key, position). */
  method Build(keys: seq<string>) returns (t: Node)
    ensures t == Filled(keys, |keys|)
  {
    t := EMPTY;
    for i := 0 to |keys|
      invariant t == Filled(keys, i)
    {
      t := Insert(t, keys[i], i);
    }
  }

  /** A filled tree knows its keys: a stored position leads back to the key, and every key is stored. */
  lemma {:induction false} FilledKnowsItsKeys(keys: seq<string>, n: nat, q: string)
    requires n <= |keys|
    ensures Lookup(Filled(keys, n), q).Some? <==> q in keys[..n]
    ensures Lookup(Filled(keys, n), q).Some? ==>
              Lookup(Filled(keys, n), q).value < n && keys[Lookup(Filled(keys, n), q).value] == q
  {
    if n == 0 {
      LookupInEmpty(q);
    } else {
      FilledKnowsItsKeys(keys, n - 1, q);
      LookupAfterInsert(Filled(keys, n - 1), keys[n - 1], n - 1, q);
      assert keys[..n] == keys[..n - 1] + [keys[n - 1]];
    }
  }
}
