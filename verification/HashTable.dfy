/** The hash table: chained buckets whose number doubles, refining a map from
    32-octet hashes to the objects that carry them. A chain is the sequence of its
    entries, newest first; an entry is the object it points to. */
module HashTable {
  import opened Bytes

  /** An object stored in a table. Its hash never changes while it is stored. */
  class Item {
    const hash: seq<byte>

    constructor (hash: seq<byte>)
      requires |hash| == 32
      ensures this.hash == hash
    {
      this.hash := hash;
    }
  }

  predicate PowerOfTwo(n: nat)
  {
    n == 1 || (n > 1 && n % 2 == 0 && PowerOfTwo(n / 2))
  }

  /** The first four octets, little-endian, masked with size - 1: since the size is
      a power of two, that is the remainder. */
  function Index(hash: seq<byte>, size: nat): (r: nat)
    requires size > 0
    ensures r < size
  {
    if |hash| < 4 then 0
    else (hash[0] + 0x100 * hash[1] + 0x1_0000 * hash[2] + 0x100_0000 * hash[3]) % size
  }

  // ------------------------------------------------------- buckets as values

  /** The object sits in the bucket its hash names, and the map knows it. */
  ghost predicate Placed(b: seq<seq<Item>>, m: map<seq<byte>, Item>, i: nat, item: Item)
    requires |b| > 0
  {
    Index(item.hash, |b|) == i && item.hash in m && m[item.hash] == item
  }

  /** What the map gives for a hash carries it and is in the hash's bucket. */
  ghost predicate Found(b: seq<seq<Item>>, m: map<seq<byte>, Item>, h: seq<byte>)
    requires |b| > 0 && h in m
  {
    m[h].hash == h && m[h] in b[Index(h, |b|)]
  }

  /** The buckets hold exactly the entries of the map, each in its own bucket and
      once. */
  ghost predicate Represents(b: seq<seq<Item>>, m: map<seq<byte>, Item>)
  {
    && |b| > 0
    && (forall i, item :: 0 <= i < |b| && item in b[i] ==> Placed(b, m, i, item))
    && (forall h :: h in m ==> Found(b, m, h))
    && (forall i :: 0 <= i < |b| ==> Distinct(b[i]))
  }

  function Insert(b: seq<seq<Item>>, item: Item): (r: seq<seq<Item>>)
    requires |b| > 0
    ensures |r| == |b|
  {
    var i := Index(item.hash, |b|);
    b[i := [item] + b[i]]
  }

  lemma InsertKeeps(b: seq<seq<Item>>, m: map<seq<byte>, Item>, item: Item)
    requires Represents(b, m) && item.hash !in m
    ensures Represents(Insert(b, item), m[item.hash := item])
  {
    var b', m' := Insert(b, item), m[item.hash := item];
    var k := Index(item.hash, |b|);
    assert b'[k] == [item] + b[k];
    forall i, x | 0 <= i < |b'| && x in b'[i] ensures Placed(b', m', i, x) {
      if x != item || i != k { assert x in b[i] && Placed(b, m, i, x); }
    }
    forall h | h in m' ensures Found(b', m', h) {
      if h != item.hash { assert Found(b, m, h); }
    }
    assert item in b[k] ==> Placed(b, m, k, item);
  }

  lemma ReplaceKeeps(b: seq<seq<Item>>, m: map<seq<byte>, Item>, i: nat, j: nat, item: Item)
    requires Represents(b, m) && i < |b| && j < |b[i]| && b[i][j].hash == item.hash
    ensures item.hash in m && m[item.hash] == b[i][j]
    ensures Represents(b[i := b[i][j := item]], m[item.hash := item])
  {
    var b', m' := b[i := b[i][j := item]], m[item.hash := item];
    var was := b[i][j];
    assert Placed(b, m, i, was);
    forall x | x in b'[i] && x != item ensures x in b[i] && x != was {
      var k :| 0 <= k < |b'[i]| && b'[i][k] == x;
      assert k != j && b[i][k] == x;
    }
    forall k, x | 0 <= k < |b'| && x in b'[k] ensures Placed(b', m', k, x) {
      if x != item { assert Placed(b, m, k, x); }
      else if k != i { assert Placed(b, m, k, x); }
    }
    forall h | h in m' ensures Found(b', m', h) {
      if h == item.hash {
        assert b'[i][j] == item;
      } else {
        assert Found(b, m, h);
        if Index(h, |b|) == i {
          var k :| 0 <= k < |b[i]| && b[i][k] == m[h];
          assert b'[i][k] == m[h];
        }
      }
    }
    forall p, q | 0 <= p < q < |b'[i]| ensures b'[i][p] != b'[i][q] {
      if p == j || q == j {
        var o := if p == j then q else p;
        assert b[i][o] != was && Placed(b, m, i, b[i][o]);
      }
    }
  }

  lemma RemoveKeeps(b: seq<seq<Item>>, m: map<seq<byte>, Item>, i: nat, j: nat)
    requires Represents(b, m) && i < |b| && j < |b[i]|
    ensures b[i][j].hash in m && m[b[i][j].hash] == b[i][j]
    ensures Represents(b[i := b[i][..j] + b[i][j + 1..]], m - {b[i][j].hash})
  {
    var c, was := b[i], b[i][j];
    var c' := c[..j] + c[j + 1..];
    var b', m' := b[i := c'], m - {was.hash};
    assert Placed(b, m, i, was);
    assert c == c[..j] + [was] + c[j + 1..];
    assert was !in c' by {
      assert forall k :: 0 <= k < |c'| ==> c'[k] == if k < j then c[k] else c[k + 1];
    }
    forall k, x | 0 <= k < |b'| && x in b'[k] ensures Placed(b', m', k, x) {
      assert x in b[k] && Placed(b, m, k, x);
    }
    forall h | h in m' ensures Found(b', m', h) {
      assert Found(b, m, h);
    }
    assert Distinct(c') by {
      assert forall k :: 0 <= k < |c'| ==> c'[k] == if k < j then c[k] else c[k + 1];
    }
  }

  lemma EmptyRepresents(b: seq<seq<Item>>)
    requires |b| > 0 && forall i :: 0 <= i < |b| ==> b[i] == []
    ensures Represents(b, map[])
  {
  }

  lemma RemoveSize(m: map<seq<byte>, Item>, h: seq<byte>)
    requires h in m
    ensures |m - {h}| == |m| - 1
  {
    assert m.Keys == (m - {h}).Keys + {h};
  }

  // --------------------------------------------------------------- the table

  /** The chain of a bucket holds exactly the hashes of that bucket. */
  lemma InChain(b: seq<seq<Item>>, m: map<seq<byte>, Item>, i: nat, h: seq<byte>)
    requires Represents(b, m) && i < |b|
    ensures (exists k :: 0 <= k < |b[i]| && b[i][k].hash == h) <==> h in m && Index(h, |b|) == i
  {
    if h in m && Index(h, |b|) == i {
      assert Found(b, m, h);
    }
    if k :| 0 <= k < |b[i]| && b[i][k].hash == h {
      assert Placed(b, m, i, b[i][k]);
    }
  }

  class Table {
    var entries: array<seq<Item>>
    var size: nat
    var nEntries: nat
    /** The map that the table stands for. */
    ghost var contents: map<seq<byte>, Item>

    ghost predicate Valid()
      reads this, entries
    {
      && size == entries.Length >= 8 && PowerOfTwo(size)
      && Represents(entries[..], contents)
      && nEntries == |contents| <= size * 3 / 4
    }

    constructor ()
      ensures Valid() && fresh(entries) && contents == map[]
    {
      var a := new seq<Item>[8](_ => []);
      entries, size, nEntries, contents := a, 8, 0, map[];
      new;
      EmptyRepresents(entries[..]);
    }

    method Get(hash: seq<byte>) returns (r: Option<Item>)
      requires Valid()
      ensures r == if hash in contents then Some(contents[hash]) else None
    {
      var index := Index(hash, size);
      var chain, j := entries[index], 0;
      assert entries[..][index] == chain;
      while j < |chain|
        invariant j <= |chain|
        invariant forall k :: 0 <= k < j ==> chain[k].hash != hash
      {
        assert chain[j] in entries[..][index] && Placed(entries[..], contents, index, chain[j]);
        if chain[j].hash == hash {
          return Some(chain[j]);
        }
        j := j + 1;
      }
      return None;
    }

    /** Doubles the number of buckets. No lookup changes. */
    method Grow()
      requires size == entries.Length >= 8 && PowerOfTwo(size) && Represents(entries[..], contents)
      modifies this
      ensures size == entries.Length == 2 * old(size) && PowerOfTwo(size) && fresh(entries)
      ensures Represents(entries[..], contents)
      ensures contents == old(contents) && nEntries == old(nEntries)
    {
      var oldSize, oldEntries := size, entries;
      ghost var b := oldEntries[..];
      entries := new seq<Item>[2 * oldSize](_ => []);
      size := 2 * oldSize;
      assert PowerOfTwo(size) by { assert size / 2 == oldSize; }
      EmptyRepresents(entries[..]);
      ghost var done: map<seq<byte>, Item> := map[];
      var i := 0;
      while i < oldSize
        invariant i <= oldSize && entries.Length == size == 2 * oldSize && fresh(entries)
        invariant contents == old(contents) && nEntries == old(nEntries)
        invariant oldEntries[..] == b && entries != oldEntries
        invariant Represents(entries[..], done)
        invariant forall h :: h in done <==> h in contents && Index(h, oldSize) < i
        invariant forall h :: h in done ==> done[h] == contents[h]
      {
        done := MoveChain(b, oldEntries[i], i, done);
        i := i + 1;
      }
      assert done == contents;
    }

    /** The inner loop of growing: one old chain is moved to the new buckets. */
    method MoveChain(ghost b: seq<seq<Item>>, chain: seq<Item>, ghost i: nat, ghost done: map<seq<byte>, Item>)
      returns (ghost done': map<seq<byte>, Item>)
      requires Represents(b, contents) && i < |b| && chain == b[i]
      requires size == entries.Length > 0 && Represents(entries[..], done)
      requires forall h :: h in done <==> h in contents && Index(h, |b|) < i
      requires forall h :: h in done ==> done[h] == contents[h]
      modifies entries
      ensures Represents(entries[..], done')
      ensures forall h :: h in done' ==> h in contents && done'[h] == contents[h]
      ensures forall h :: h in done' <==> h in contents && Index(h, |b|) < i + 1
    {
      done' := done;
      var j := 0;
      while j < |chain|
        invariant j <= |chain|
        invariant Represents(entries[..], done')
        invariant forall h :: h in done' <==> h in done || exists k :: 0 <= k < j && chain[k].hash == h
        invariant forall h :: h in done' ==> h in contents && done'[h] == contents[h]
      {
        var item := chain[j];
        assert Placed(b, contents, i, item);
        assert forall k :: 0 <= k < j ==> chain[k].hash != item.hash by {
          assert forall k :: 0 <= k < j ==> Placed(b, contents, i, chain[k]);
        }
        assert item.hash !in done';
        InsertKeeps(entries[..], done', item);
        var index := Index(item.hash, size);
        ghost var was := entries[..];
        entries[index] := [item] + entries[index];
        assert entries[..] == Insert(was, item);
        done' := done'[item.hash := item];
        j := j + 1;
      }
      forall h ensures h in done' <==> h in contents && Index(h, |b|) < i + 1 {
        InChain(b, contents, i, h);
      }
    }

    /** Stores an object, replacing one with the same hash. */
    method Set(item: Item) returns (was: Option<Item>)
      requires Valid()
      modifies this, entries
      ensures Valid() && (entries == old(entries) || fresh(entries))
      ensures contents == old(contents)[item.hash := item]
      ensures was == if item.hash in old(contents) then Some(old(contents)[item.hash]) else None
    {
      var index := Index(item.hash, size);
      var chain, j := entries[index], 0;
      assert entries[..][index] == chain;
      while j < |chain|
        invariant j <= |chain|
        invariant forall k :: 0 <= k < j ==> chain[k].hash != item.hash
      {
        if chain[j].hash == item.hash {
          ghost var b := entries[..];
          ReplaceKeeps(b, contents, index, j, item);
          was := Some(chain[j]);
          entries[index] := chain[j := item];
          assert entries[..] == b[index := b[index][j := item]];
          contents := contents[item.hash := item];
          return;
        }
        j := j + 1;
      }
      if nEntries >= size * 3 / 4 {
        Grow();
        index := Index(item.hash, size);
      }
      InsertKeeps(entries[..], contents, item);
      ghost var b := entries[..];
      entries[index] := [item] + entries[index];
      assert entries[..] == Insert(b, item);
      contents := contents[item.hash := item];
      nEntries := nEntries + 1;
      was := None;
    }

    method Unlink(index: nat, j: nat)
      requires Valid() && index < size && j < |entries[index]|
      modifies this, entries
      ensures Valid() && entries == old(entries) && size == old(size)
      ensures var item := old(entries[index][j]);
        && item.hash in old(contents) && old(contents)[item.hash] == item
        && contents == old(contents) - {item.hash}
    {
      var chain := entries[index];
      ghost var b := entries[..];
      assert b[index] == chain;
      RemoveKeeps(b, contents, index, j);
      RemoveSize(contents, chain[j].hash);
      entries[index] := chain[..j] + chain[j + 1..];
      assert entries[..] == b[index := b[index][..j] + b[index][j + 1..]];
      contents := contents - {chain[j].hash};
      nEntries := nEntries - 1;
    }

    /** Removes an object, compared by identity. */
    method Remove(item: Item) returns (found: bool)
      requires Valid()
      modifies this, entries
      ensures Valid() && entries == old(entries) && size == old(size)
      ensures found == (item.hash in old(contents) && old(contents)[item.hash] == item)
      ensures contents == if found then old(contents) - {item.hash} else old(contents)
    {
      var index := Index(item.hash, size);
      var chain, j := entries[index], 0;
      assert entries[..][index] == chain;
      while j < |chain|
        invariant j <= |chain|
        invariant forall k :: 0 <= k < j ==> chain[k] != item
      {
        if chain[j] == item {
          Unlink(index, j);
          return true;
        }
        j := j + 1;
      }
      return false;
    }
  }

  // ------------------------------------------------- any sequence of operations

  datatype Op = GetOp(hash: seq<byte>) | SetOp(item: Item) | RemoveOp(item: Item)

  datatype Answer = Got(value: Option<Item>) | Removed(found: bool)

  /** The same operations on a plain map. */
  ghost function Step(m: map<seq<byte>, Item>, op: Op): (map<seq<byte>, Item>, Answer)
  {
    match op
    case GetOp(h) => (m, Got(if h in m then Some(m[h]) else None))
    case SetOp(x) => (m[x.hash := x], Got(if x.hash in m then Some(m[x.hash]) else None))
    case RemoveOp(x) =>
      if x.hash in m && m[x.hash] == x then (m - {x.hash}, Removed(true)) else (m, Removed(false))
  }

  ghost function Run(m: map<seq<byte>, Item>, ops: seq<Op>): (map<seq<byte>, Item>, seq<Answer>)
  {
    if ops == [] then (m, [])
    else
      var before := Run(m, ops[..|ops| - 1]);
      var last := Step(before.0, ops[|ops| - 1]);
      (last.0, before.1 + [last.1])
  }

  method Apply(t: Table, op: Op) returns (answer: Answer)
    requires t.Valid()
    modifies t, t.entries
    ensures t.Valid() && (t.entries == old(t.entries) || fresh(t.entries))
    ensures (t.contents, answer) == Step(old(t.contents), op)
  {
    match op {
      case GetOp(hash) =>
        var r := t.Get(hash);
        answer := Got(r);
      case SetOp(item) =>
        var r := t.Set(item);
        answer := Got(r);
      case RemoveOp(item) =>
        var r := t.Remove(item);
        answer := Removed(r);
    }
  }

  lemma RunLast(m: map<seq<byte>, Item>, ops: seq<Op>, i: nat)
    requires i < |ops|
    ensures var before := Run(m, ops[..i]);
      var last := Step(before.0, ops[i]);
      Run(m, ops[..i + 1]) == (last.0, before.1 + [last.1])
  {
    assert ops[..i + 1][..i] == ops[..i];
  }

  /** Over any sequence of operations a table gives the answers of the map. */
  method Replay(t: Table, ops: seq<Op>) returns (answers: seq<Answer>)
    requires t.Valid()
    modifies t, t.entries
    ensures t.Valid()
    ensures (t.contents, answers) == Run(old(t.contents), ops)
  {
    answers := [];
    var i := 0;
    ghost var start := t.contents;
    while i < |ops|
      modifies t, t.entries
      invariant i <= |ops| && t.Valid() && (t.entries == old(t.entries) || fresh(t.entries))
      invariant (t.contents, answers) == Run(start, ops[..i])
    {
      ghost var before := Run(start, ops[..i]);
      var answer := Apply(t, ops[i]);
      RunLast(start, ops, i);
      assert (t.contents, answer) == Step(before.0, ops[i]);
      answers, i := answers + [answer], i + 1;
    }
    assert ops[..i] == ops;
  }
}
