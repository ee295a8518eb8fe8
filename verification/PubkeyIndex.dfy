/** The pubkey objects known to the keyring: one list, in which those for the same key are
    grouped together, and a table that leads to the first of each group. */
module PubkeyIndex {
  import opened Bytes

  type Key = seq<byte>
  type Hash = seq<byte>

  /** struct ntb_keyring_pubkey_blob; `id` stands for its address. */
  datatype Entry = Entry(id: nat, key: Key, hash: Hash, timestamp: int)

  // ------------------------------------------------------------ as functions

  /** Where a key first occurs. */
  function FirstIndex(list: seq<Entry>, key: Key): (r: nat)
    ensures r <= |list|
    ensures r < |list| ==> list[r].key == key
    ensures forall i :: 0 <= i < r ==> list[i].key != key
  {
    if list == [] || list[0].key == key then 0 else 1 + FirstIndex(list[1..], key)
  }

  predicate HasKey(list: seq<Entry>, key: Key)
  {
    FirstIndex(list, key) < |list|
  }

  /** Entries with the same key have only such entries between them. */
  ghost predicate Between(list: seq<Entry>, i: int, j: int, k: int)
  {
    0 <= i <= j <= k < |list| && list[i].key == list[k].key ==> list[j].key == list[i].key
  }

  ghost predicate Grouped(list: seq<Entry>)
  {
    forall i, j, k {:trigger Between(list, i, j, k)} :: Between(list, i, j, k)
  }

  /** The table leads from each key in the list to the first entry of its group, and has
      no other keys. */
  ghost predicate TableAt(list: seq<Entry>, table: map<Key, Entry>, key: Key)
  {
    && (key in table <==> HasKey(list, key))
    && (key in table ==> table[key] == list[FirstIndex(list, key)])
  }

  ghost predicate Indexed(list: seq<Entry>, table: map<Key, Entry>)
  {
    forall key {:trigger TableAt(list, table, key)} :: TableAt(list, table, key)
  }

  ghost predicate DistinctIds(list: seq<Entry>)
  {
    forall i, j :: 0 <= i < j < |list| ==> list[i].id != list[j].id
  }

  ghost predicate Valid(list: seq<Entry>, table: map<Key, Entry>)
  {
    Grouped(list) && Indexed(list, table) && DistinctIds(list)
  }

  /** All entries with a key, in order. */
  function Group(list: seq<Entry>, key: Key): seq<Entry>
  {
    if list == [] then []
    else (if list[0].key == key then [list[0]] else []) + Group(list[1..], key)
  }

  function InsertedAt(list: seq<Entry>, p: nat, e: Entry): (r: seq<Entry>)
    requires p <= |list|
    ensures |r| == |list| + 1
  {
    list[..p] + [e] + list[p..]
  }

  function RemovedAt(list: seq<Entry>, p: nat): (r: seq<Entry>)
    requires p < |list|
    ensures |r| == |list| - 1
  {
    list[..p] + list[p + 1..]
  }

  // -------------------------------------------------------------- insertion

  /** The first entry of a new group goes to the front, any other after the first entry
      of its group. */
  function InsertPos(list: seq<Entry>, key: Key): (r: nat)
    ensures r <= |list|
  {
    var p := FirstIndex(list, key);
    if p < |list| then p + 1 else 0
  }

  /** Where a place of the new list was in the old; the new entry was its predecessor. */
  function Was(p: nat, x: int): int
  {
    if x < p then x else x - 1
  }

  /** An entry of the new list stands where one with its key stood in the old. */
  lemma KeyStood(list: seq<Entry>, e: Entry, x: int)
    requires InsertPos(list, e.key) > 0 && 0 <= x <= |list|
    ensures var p := InsertPos(list, e.key);
      0 <= Was(p, x) < |list| && InsertedAt(list, p, e)[x].key == list[Was(p, x)].key
  {
  }

  lemma InsertGroups(list: seq<Entry>, e: Entry, i: int, j: int, k: int)
    requires Grouped(list)
    ensures Between(InsertedAt(list, InsertPos(list, e.key), e), i, j, k)
  {
    var p := InsertPos(list, e.key);
    var list' := InsertedAt(list, p, e);
    if 0 <= i <= j <= k < |list'| && list'[i].key == list'[k].key {
      if p > 0 {
        KeyStood(list, e, i);
        KeyStood(list, e, j);
        KeyStood(list, e, k);
        assert Between(list, Was(p, i), Was(p, j), Was(p, k));
      } else if i > 0 {
        assert Between(list, i - 1, j - 1, k - 1);
      }
    }
  }

  lemma FirstIndexIs(list: seq<Entry>, key: Key, p: nat)
    requires p <= |list| && (p < |list| ==> list[p].key == key)
    requires forall i :: 0 <= i < p ==> list[i].key != key
    ensures FirstIndex(list, key) == p
  {
  }

  lemma InsertIndexes(list: seq<Entry>, table: map<Key, Entry>, e: Entry, key: Key)
    requires Indexed(list, table)
    ensures var list' := InsertedAt(list, InsertPos(list, e.key), e);
      TableAt(list', if e.key in table then table else table[e.key := e], key)
  {
    var p := InsertPos(list, e.key);
    var list' := InsertedAt(list, p, e);
    var q := FirstIndex(list, key);
    assert TableAt(list, table, key) && TableAt(list, table, e.key);
    if p > 0 {
      if q >= p {
        FirstIndexIs(list', key, q + 1);
      } else {
        FirstIndexIs(list', key, q);
      }
    } else if key == e.key {
      FirstIndexIs(list', key, 0);
    } else {
      FirstIndexIs(list', key, q + 1);
    }
  }

  /** handle_pubkey keeps the list grouped and indexed. */
  lemma InsertKeeps(list: seq<Entry>, table: map<Key, Entry>, e: Entry)
    requires Valid(list, table) && forall i :: 0 <= i < |list| ==> list[i].id != e.id
    ensures Valid(InsertedAt(list, InsertPos(list, e.key), e), if e.key in table then table else table[e.key := e])
  {
    var list' := InsertedAt(list, InsertPos(list, e.key), e);
    var table' := if e.key in table then table else table[e.key := e];
    forall i, j, k ensures Between(list', i, j, k) { InsertGroups(list, e, i, j, k); }
    forall key ensures TableAt(list', table', key) { InsertIndexes(list, table, e, key); }
    InsertDistinct(list, InsertPos(list, e.key), e);
  }

  lemma InsertedEntry(list: seq<Entry>, p: nat, e: Entry, x: nat)
    requires p <= |list| && x <= |list|
    ensures InsertedAt(list, p, e)[x] == if x < p then list[x] else if x == p then e else list[x - 1]
  {
  }

  lemma InsertDistinct(list: seq<Entry>, p: nat, e: Entry)
    requires p <= |list| && DistinctIds(list) && forall i :: 0 <= i < |list| ==> list[i].id != e.id
    ensures DistinctIds(InsertedAt(list, p, e))
  {
    var list' := InsertedAt(list, p, e);
    forall i, j | 0 <= i < j < |list'| ensures list'[i].id != list'[j].id {
      InsertedEntry(list, p, e, i);
      InsertedEntry(list, p, e, j);
    }
  }

  // ---------------------------------------------------------------- removal

  /** What becomes of the table when the entry at p is taken out of the list. */
  function TableWithout(list: seq<Entry>, table: map<Key, Entry>, p: nat): map<Key, Entry>
    requires p < |list|
  {
    var key := list[p].key;
    if p == 0 || list[p - 1].key != key then
      if p + 1 == |list| || list[p + 1].key != key then table - {key} else table[key := list[p + 1]]
    else table
  }

  lemma RemoveGroups(list: seq<Entry>, p: nat, i: int, j: int, k: int)
    requires Grouped(list) && p < |list|
    ensures Between(RemovedAt(list, p), i, j, k)
  {
    var f := (x: int) => if x < p then x else x + 1;
    assert Between(list, f(i), f(j), f(k));
  }

  /** In a grouped list the first of a group is told by the entry before it. */
  lemma FirstOfGroup(list: seq<Entry>, p: nat)
    requires Grouped(list) && p < |list|
    ensures FirstIndex(list, list[p].key) == p <==> p == 0 || list[p - 1].key != list[p].key
  {
    var q := FirstIndex(list, list[p].key);
    if q < p {
      assert Between(list, q, p - 1, p);
    }
  }

  /** The entry after it tells whether more follow. */
  lemma NextOfGroup(list: seq<Entry>, p: nat, i: nat)
    requires Grouped(list) && p < i < |list| && list[i].key == list[p].key
    ensures list[p + 1].key == list[p].key
  {
    assert Between(list, p, p + 1, i);
  }

  lemma RemoveOther(list: seq<Entry>, p: nat, key: Key)
    requires p < |list| && list[p].key != key
    ensures var list', q := RemovedAt(list, p), FirstIndex(list, key);
      && FirstIndex(list', key) == (if q < p then q else q - 1)
      && (HasKey(list', key) <==> HasKey(list, key))
      && (HasKey(list, key) ==> list'[FirstIndex(list', key)] == list[q])
  {
    var list', q := RemovedAt(list, p), FirstIndex(list, key);
    FirstIndexIs(list', key, if q < p then q else q - 1);
  }

  lemma RemoveSame(list: seq<Entry>, p: nat)
    requires Grouped(list) && p < |list|
    ensures var list', key := RemovedAt(list, p), list[p].key;
      var q := FirstIndex(list, key);
      && (q < p ==> FirstIndex(list', key) == q)
      && (q == p && p + 1 < |list| && list[p + 1].key == key ==> FirstIndex(list', key) == p)
      && (q == p && (p + 1 == |list| || list[p + 1].key != key) ==> !HasKey(list', key))
  {
    var list', key := RemovedAt(list, p), list[p].key;
    var q := FirstIndex(list, key);
    if q < p {
      FirstIndexIs(list', key, q);
    } else if p + 1 < |list| && list[p + 1].key == key {
      FirstIndexIs(list', key, p);
    } else {
      forall i | 0 <= i < |list'| ensures list'[i].key != key {
        if i >= p && list[i + 1].key == key {
          NextOfGroup(list, p, i + 1);
        }
      }
      FirstIndexIs(list', key, |list'|);
    }
  }

  lemma RemoveIndexes(list: seq<Entry>, table: map<Key, Entry>, p: nat, key: Key)
    requires Grouped(list) && Indexed(list, table) && p < |list|
    ensures TableAt(RemovedAt(list, p), TableWithout(list, table, p), key)
  {
    assert TableAt(list, table, key);
    if key != list[p].key {
      RemoveOther(list, p, key);
    } else {
      FirstOfGroup(list, p);
      RemoveSame(list, p);
    }
  }

  /** remove_pubkey_blob keeps the list grouped and indexed. */
  lemma RemoveKeeps(list: seq<Entry>, table: map<Key, Entry>, p: nat)
    requires Valid(list, table) && p < |list|
    ensures Valid(RemovedAt(list, p), TableWithout(list, table, p))
  {
    var list', table' := RemovedAt(list, p), TableWithout(list, table, p);
    forall i, j, k ensures Between(list', i, j, k) { RemoveGroups(list, p, i, j, k); }
    forall key ensures TableAt(list', table', key) { RemoveIndexes(list, table, p, key); }
    RemoveDistinct(list, p);
  }

  lemma RemovedEntry(list: seq<Entry>, p: nat, x: nat)
    requires p < |list| && x < |list| - 1
    ensures RemovedAt(list, p)[x] == if x < p then list[x] else list[x + 1]
  {
  }

  lemma RemoveDistinct(list: seq<Entry>, p: nat)
    requires p < |list| && DistinctIds(list)
    ensures DistinctIds(RemovedAt(list, p))
  {
    var list' := RemovedAt(list, p);
    forall i, j | 0 <= i < j < |list'| ensures list'[i].id != list'[j].id {
      RemovedEntry(list, p, i);
      RemovedEntry(list, p, j);
    }
  }

  // ---------------------------------------------------------------- walking

  /** The entries from p on that have a key, as far as they follow one another. */
  function Walk(list: seq<Entry>, p: nat, key: Key): seq<Entry>
    decreases |list| - p
  {
    if p >= |list| || list[p].key != key then [] else [list[p]] + Walk(list, p + 1, key)
  }

  lemma {:induction false} GroupAppend(a: seq<Entry>, b: seq<Entry>, key: Key)
    ensures Group(a + b, key) == Group(a, key) + Group(b, key)
  {
    if a == [] {
      assert a + b == b;
    } else {
      GroupAppend(a[1..], b, key);
      assert (a + b)[0] == a[0] && (a + b)[1..] == a[1..] + b;
      var first := if a[0].key == key then [a[0]] else [];
      assert first + (Group(a[1..], key) + Group(b, key)) == first + Group(a[1..], key) + Group(b, key);
    }
  }

  lemma {:induction false} NoGroup(list: seq<Entry>, key: Key)
    requires forall i :: 0 <= i < |list| ==> list[i].key != key
    ensures Group(list, key) == []
  {
    if list != [] {
      NoGroup(list[1..], key);
    }
  }

  lemma {:induction false} WalkRest(list: seq<Entry>, p: nat, key: Key)
    requires Grouped(list) && 0 < p <= |list| && list[p - 1].key == key
    ensures Walk(list, p, key) == Group(list[p..], key)
    decreases |list| - p
  {
    if p < |list| && list[p].key == key {
      WalkRest(list, p + 1, key);
      assert list[p..][1..] == list[p + 1..];
    } else {
      forall i | 0 <= i < |list[p..]| ensures list[p..][i].key != key {
        if list[p + i].key == key {
          NextOfGroup(list, p - 1, p + i);
        }
      }
      NoGroup(list[p..], key);
    }
  }

  lemma GroupFrom(list: seq<Entry>, p: nat, key: Key)
    requires p <= |list| && forall i :: 0 <= i < p ==> list[i].key != key
    ensures Group(list, key) == Group(list[p..], key)
  {
    NoGroup(list[..p], key);
    GroupAppend(list[..p], list[p..], key);
    assert list == list[..p] + list[p..];
    assert [] + Group(list[p..], key) == Group(list[p..], key);
  }

  /** Going from the entry the table leads to as long as the key stays the same meets
      exactly the entries of the group. */
  lemma WalkIsGroup(list: seq<Entry>, key: Key)
    requires Grouped(list) && HasKey(list, key)
    ensures Walk(list, FirstIndex(list, key), key) == Group(list, key)
  {
    var p := FirstIndex(list, key);
    WalkRest(list, p + 1, key);
    GroupFrom(list, p, key);
    assert list[p..][1..] == list[p + 1..];
  }

  /** Taking an entry out makes its group smaller by that entry and changes no other. */
  lemma GroupRemoved(list: seq<Entry>, p: nat, key: Key)
    requires p < |list|
    ensures |Group(RemovedAt(list, p), key)| == |Group(list, key)| - (if list[p].key == key then 1 else 0)
  {
    assert list == list[..p] + ([list[p]] + list[p + 1..]);
    GroupAppend(list[..p], [list[p]] + list[p + 1..], key);
    GroupAppend([list[p]], list[p + 1..], key);
    GroupAppend(list[..p], list[p + 1..], key);
    assert [list[p]][1..] == [];
  }

  lemma GroupOne(e: Entry, key: Key)
    ensures Group([e], key) == if e.key == key then [e] else []
  {
    assert [e][1..] == [];
  }

  /** The groups of a list that has got an entry in its midst. */
  lemma GroupSplit(list: seq<Entry>, p: nat, e: Entry, key: Key)
    requires p <= |list|
    ensures Group(list, key) == Group(list[..p], key) + Group(list[p..], key)
    ensures Group(InsertedAt(list, p, e), key)
      == Group(list[..p], key) + ((if e.key == key then [e] else []) + Group(list[p..], key))
  {
    var before, after := list[..p], list[p..];
    assert list == before + after;
    assert InsertedAt(list, p, e) == before + ([e] + after);
    GroupAppend(before, after, key);
    GroupAppend(before, [e] + after, key);
    GroupAppend([e], after, key);
    GroupOne(e, key);
  }

  lemma SecondPlace<T>(front: seq<T>, e: T, rest: seq<T>)
    requires |front| <= 1
    ensures front == [] ==> front + ([e] + rest) == [e] + rest && front + rest == rest
    ensures front != [] ==> front + ([e] + rest) == [(front + rest)[0], e] + (front + rest)[1..]
    ensures front + ([] + rest) == front + rest
  {
  }

  /** A new entry becomes the second of its group, or the first of a new one, and changes no
      other group. */
  lemma GroupInserted(list: seq<Entry>, e: Entry, key: Key)
    ensures var g := Group(list, key);
      Group(InsertedAt(list, InsertPos(list, e.key), e), key) ==
        if key != e.key then g else if g == [] then [e] else [g[0], e] + g[1..]
  {
    var p := InsertPos(list, e.key);
    GroupSplit(list, p, e, key);
    if key != e.key {
      assert [] + Group(list[p..], key) == Group(list[p..], key);
    } else if p == 0 {
      NoGroup(list, key);
      assert list[..0] == [] && list[0..] == list;
      assert Group(list[..0], key) == [];
      SecondPlace([], e, Group(list[0..], key));
      assert [e] + [] == [e];
    } else {
      FrontOfGroup(list, key);
      SecondPlace(Group(list[..p], key), e, Group(list[p..], key));
    }
  }

  lemma FrontOfGroup(list: seq<Entry>, key: Key)
    requires HasKey(list, key)
    ensures var p := FirstIndex(list, key); Group(list[..p + 1], key) == [list[p]]
  {
    var p := FirstIndex(list, key);
    assert list[..p + 1] == list[..p] + [list[p]];
    NoGroup(list[..p], key);
    GroupAppend(list[..p], [list[p]], key);
    assert [list[p]][1..] == [];
  }

  lemma {:induction false} GroupMembers(list: seq<Entry>, key: Key, e: Entry)
    ensures e in Group(list, key) <==> e in list && e.key == key
  {
    if list != [] {
      GroupMembers(list[1..], key, e);
      assert list == [list[0]] + list[1..];
    }
  }

  function PosOf(list: seq<Entry>, e: Entry): (r: nat)
    requires e in list
    ensures r < |list| && list[r] == e
  {
    if list[0] == e then 0 else 1 + PosOf(list[1..], e)
  }

  // ---------------------------------------------------------------- in place

  class Index {
    var list: seq<Entry>
    var table: map<Key, Entry>

    constructor ()
      ensures list == [] && table == map[] && Valid(list, table)
    {
      list, table := [], map[];
      new;
      forall key ensures TableAt(list, table, key) {}
      forall i, j, k ensures Between(list, i, j, k) {}
    }

    /** The insertion of handle_pubkey. */
    method Insert(e: Entry)
      requires Valid(list, table) && forall i :: 0 <= i < |list| ==> list[i].id != e.id
      modifies this
      ensures Valid(list, table)
      ensures list == InsertedAt(old(list), InsertPos(old(list), e.key), e)
      ensures table == if e.key in old(table) then old(table) else old(table)[e.key := e]
    {
      InsertKeeps(list, table, e);
      assert TableAt(list, table, e.key);
      if e.key !in table {
        list := [e] + list;
        table := table[e.key := e];
        assert list == InsertedAt(old(list), 0, e);
      } else {
        var p := FindEntry(table[e.key]);
        DistinctPos(list, p, FirstIndex(list, e.key));
        list := list[..p + 1] + [e] + list[p + 1..];
      }
    }

    method FindEntry(e: Entry) returns (p: nat)
      requires e in list
      ensures p < |list| && list[p] == e
    {
      p := 0;
      while list[p] != e
        invariant p < |list| && e !in list[..p]
        decreases |list| - p
      {
        p := p + 1;
      }
    }

    /** remove_pubkey_blob; an entry that is not in the list any more is left alone. */
    method Remove(e: Entry) returns (removed: bool)
      requires Valid(list, table)
      modifies this
      ensures Valid(list, table) && removed == (e in old(list))
      ensures removed ==>
        exists p: nat :: p < |old(list)| && old(list)[p] == e
          && list == RemovedAt(old(list), p) && table == TableWithout(old(list), old(table), p)
      ensures !removed ==> list == old(list) && table == old(table)
    {
      if e !in list {
        return false;
      }
      var p := FindEntry(e);
      RemoveKeeps(list, table, p);
      var table' := table;
      if p == 0 || list[p - 1].key != e.key {
        if p + 1 == |list| || list[p + 1].key != e.key {
          table' := table - {e.key};
        } else {
          table' := table[e.key := list[p + 1]];
        }
      }
      list, table := list[..p] + list[p + 1..], table';
      return true;
    }

    /** The entries that load_public_key_for_message goes through. */
    method Candidates(key: Key) returns (r: seq<Entry>)
      requires Valid(list, table)
      ensures r == Group(list, key)
    {
      assert TableAt(list, table, key);
      if key !in table {
        NoGroup(list, key);
        return [];
      }
      var p := FindEntry(table[key]);
      DistinctPos(list, p, FirstIndex(list, key));
      WalkIsGroup(list, key);
      r := [];
      while p < |list| && list[p].key == key
        invariant p <= |list| && Group(list, key) == r + Walk(list, p, key)
      {
        assert r + ([list[p]] + Walk(list, p + 1, key)) == r + [list[p]] + Walk(list, p + 1, key);
        r, p := r + [list[p]], p + 1;
      }
      assert r + [] == r;
    }
  }

  lemma DistinctPos(list: seq<Entry>, p: nat, q: nat)
    requires DistinctIds(list) && p < |list| && q < |list| && list[p] == list[q]
    ensures p == q
  {
  }
}
