/** The skip list of `utils`, as its tests use it: a mutable map from key to
    entry where `Add` inserts or overwrites and `Search` returns the entry or
    nil, plus the ordering `compare` puts on (score, key) pairs. The list's
    own code (levels, random heights, `calcScore`) is not part of this
    model. */
module Skiplist {
  import opened Base
  import opened Codec

  // ---------------------------------------------------------------------
  // Ordering of elements

  /** Go's `bytes.Compare`: lexicographic order on byte strings. */
  function CompareBytes(a: Bytes, b: Bytes): (c: int)
    ensures -1 <= c <= 1
  {
    if a == [] && b == [] then 0
    else if a == [] then -1
    else if b == [] then 1
    else if a[0] < b[0] then -1
    else if a[0] > b[0] then 1
    else CompareBytes(a[1..], b[1..])
  }

  /** bytes.Compare reports 0 exactly for equal strings. */
  lemma {:induction false} CompareBytesZeroIff(a: Bytes, b: Bytes)
    ensures CompareBytes(a, b) == 0 <==> a == b
  {
    if a != [] && b != [] && a[0] == b[0] {
      CompareBytesZeroIff(a[1..], b[1..]);
      if a[1..] == b[1..] {
        assert a == [a[0]] + a[1..] && b == [b[0]] + b[1..];
      }
    }
  }

  /** Swapping the arguments of bytes.Compare flips the sign. */
  lemma {:induction false} CompareBytesAntisymmetric(a: Bytes, b: Bytes)
    ensures CompareBytes(a, b) == -CompareBytes(b, a)
  {
    if a != [] && b != [] && a[0] == b[0] {
      CompareBytesAntisymmetric(a[1..], b[1..]);
    }
  }

  /** SkipList.compare: a search key against an element, by score first and
      by key bytes when the scores tie. */
  function Compare(score: int, key: Bytes, elemScore: int, elemKey: Bytes): (c: int)
    ensures -1 <= c <= 1
    ensures score != elemScore ==> (c == -1 <==> score < elemScore)
  {
    if score == elemScore then CompareBytes(key, elemKey)
    else if score < elemScore then -1
    else 1
  }

  /** A search key whose score is below the element's sorts before it. */
  lemma CompareLowerScore(score: int, key: Bytes, elemScore: int, elemKey: Bytes)
    requires score < elemScore
    ensures Compare(score, key, elemScore, elemKey) == -1
  {
  }

  /** compare is a total order on (score, key): antisymmetric, and 0 only for
      the same score and key. */
  lemma CompareOrder(score: int, key: Bytes, elemScore: int, elemKey: Bytes)
    ensures Compare(score, key, elemScore, elemKey) == -Compare(elemScore, elemKey, score, key)
    ensures Compare(score, key, elemScore, elemKey) == 0 <==> score == elemScore && key == elemKey
  {
    CompareBytesAntisymmetric(key, elemKey);
    CompareBytesZeroIff(key, elemKey);
  }

  // ---------------------------------------------------------------------
  // The list as a map

  /** The index after adding `es` in order to `m`: later entries overwrite
      earlier ones with the same key. */
  function Inserted(m: map<Bytes, Entry>, es: seq<Entry>): (r: map<Bytes, Entry>)
    decreases |es|
  {
    if es == [] then m
    else Inserted(m, es[..|es| - 1])[es[|es| - 1].key := es[|es| - 1]]
  }

  /** After a run of adds a key is present exactly when it was present
      before or some added entry carries it. */
  lemma {:induction false} InsertedKeys(m: map<Bytes, Entry>, es: seq<Entry>, key: Bytes)
    ensures key in Inserted(m, es) <==> key in m || exists i :: 0 <= i < |es| && es[i].key == key
    decreases |es|
  {
    if es != [] {
      var init := es[..|es| - 1];
      InsertedKeys(m, init, key);
      if exists i :: 0 <= i < |init| && init[i].key == key {
        var i :| 0 <= i < |init| && init[i].key == key;
        assert es[i].key == key;
      }
      if exists i :: 0 <= i < |es| && es[i].key == key {
        var i :| 0 <= i < |es| && es[i].key == key;
        if i < |init| {
          assert init[i].key == key;
        }
      }
    }
  }

  /** The last added entry with a key is the one the index holds for it. */
  lemma {:induction false} InsertedLastWins(m: map<Bytes, Entry>, es: seq<Entry>, i: nat)
    requires i < |es|
    requires forall j :: i < j < |es| ==> es[j].key != es[i].key
    ensures es[i].key in Inserted(m, es) && Inserted(m, es)[es[i].key] == es[i]
    decreases |es|
  {
    if i < |es| - 1 {
      var init := es[..|es| - 1];
      assert forall j :: i < j < |init| ==> init[j] == es[j];
      InsertedLastWins(m, init, i);
    }
  }

  /** Keys nobody added keep what they had. */
  lemma {:induction false} InsertedUntouched(m: map<Bytes, Entry>, es: seq<Entry>, key: Bytes)
    requires forall j :: 0 <= j < |es| ==> es[j].key != key
    ensures key in Inserted(m, es) <==> key in m
    ensures key in m ==> Inserted(m, es)[key] == m[key]
    decreases |es|
  {
    if es != [] {
      InsertedUntouched(m, es[..|es| - 1], key);
    }
  }

  /** The skip list, holding its elements as a map from key to entry. The
      fault fields stand for the outcomes of the list's own code, which is
      not part of this model; a new list reports none. */
  class SkipList {
    var entries: map<Bytes, Entry>
    var addFault: Option<Error>
    var closeFault: Option<Error>

    /** NewSkipList. */
    constructor ()
      ensures entries == map[] && addFault.None? && closeFault.None?
    {
      entries := map[];
      addFault := None;
      closeFault := None;
    }

    /** The entry held for `key`, or nil. */
    function Find(key: Bytes): Entry?
      reads this
    {
      if key in entries then entries[key] else null
    }

    /** Add: insert the entry, overwriting the one held for its key. */
    method Add(e: Entry) returns (err: Option<Error>)
      modifies this
      ensures err == old(addFault)
      ensures entries == if err.None? then old(entries)[e.key := e] else old(entries)
      ensures addFault == old(addFault) && closeFault == old(closeFault)
    {
      err := addFault;
      if err.None? {
        entries := entries[e.key := e];
      }
    }

    /** Search: the entry for `key`, or nil. */
    method Search(key: Bytes) returns (r: Entry?)
      ensures r == Find(key)
      ensures r != null <==> key in entries
      ensures r != null ==> r == entries[key]
    {
      if key in entries {
        r := entries[key];
      } else {
        r := null;
      }
    }

    /** Close. */
    method Close() returns (err: Option<Error>)
      ensures err == closeFault
    {
      err := closeFault;
    }
  }

  /** The add loop of the concurrent test, run in order: every add reports
      nil and the list becomes `Inserted` of the entries. */
  method AddAll(list: SkipList, es: seq<Entry>) returns (errs: seq<Option<Error>>)
    requires list.addFault.None?
    modifies list
    ensures |errs| == |es| && forall i :: 0 <= i < |es| ==> errs[i].None?
    ensures list.entries == Inserted(old(list.entries), es)
    ensures list.addFault == old(list.addFault) && list.closeFault == old(list.closeFault)
  {
    errs := [];
    var i := 0;
    while i < |es|
      invariant 0 <= i <= |es| && |errs| == i
      invariant forall j :: 0 <= j < i ==> errs[j].None?
      invariant list.entries == Inserted(old(list.entries), es[..i])
      invariant list.addFault == old(list.addFault) && list.closeFault == old(list.closeFault)
    {
      var err := list.Add(es[i]);
      assert es[..i + 1][..i] == es[..i];
      errs := errs + [err];
      i := i + 1;
    }
    assert es[..|es|] == es;
  }

  // ---------------------------------------------------------------------
  // The tests, read sequentially

  const Key1: Bytes := [0x6b, 0x65, 0x79, 0x31]               // "key1"
  const Key2: Bytes := [0x6b, 0x65, 0x79, 0x32]               // "key2"
  const Val1: Bytes := [0x76, 0x61, 0x6c, 0x31]               // "val1"
  const Val2: Bytes := [0x76, 0x61, 0x6c, 0x32]               // "val2"
  const Val1Plus1: Bytes := [0x76, 0x61, 0x6c, 0x31, 0x2b, 0x31] // "val1+1"
  const NoExist: Bytes := [0x6e, 0x6f, 0x65, 0x78, 0x69, 0x73, 0x74] // "noexist"

  /** TestSkipListBasicCRUD: the adds report nil, each search right after an
      add sees the added value, a key never added is absent, and re-adding
      key1 makes the newest value visible. */
  method BasicCRUD() returns (addErrs: seq<Option<Error>>, seen: seq<Bytes>, missing: Entry?)
    ensures addErrs == [None, None, None]
    ensures seen == [Val1, Val2, Val1Plus1]
    ensures missing == null
  {
    var list := new SkipList();

    var entry1 := new Entry(Key1, Val1, 0);
    var err1 := list.Add(entry1);
    var found1 := list.Search(entry1.key);

    var entry2 := new Entry(Key2, Val2, 0);
    var err2 := list.Add(entry2);
    var found2 := list.Search(entry2.key);

    missing := list.Search(NoExist);

    var entry2New := new Entry(Key1, Val1Plus1, 0);
    var err3 := list.Add(entry2New);
    var found3 := list.Search(entry2New.key);

    addErrs := [err1, err2, err3];
    seen := [found1.value, found2.value, found3.value];
  }

  /** TestConcurrentBasic with its goroutines run one after another: after
      adding an entry whose value is its key for each of `keys` (all
      distinct), every key is found with its own value. */
  method ConcurrentBasic(keys: seq<Bytes>) returns (addErrs: seq<Option<Error>>, found: seq<Option<Bytes>>)
    requires forall i, j :: 0 <= i < j < |keys| ==> keys[i] != keys[j]
    ensures |addErrs| == |keys| && forall i :: 0 <= i < |keys| ==> addErrs[i].None?
    ensures |found| == |keys| && forall i :: 0 <= i < |keys| ==> found[i] == Some(keys[i])
  {
    var l := new SkipList();
    var es: seq<Entry> := [];
    var i := 0;
    while i < |keys|
      invariant 0 <= i <= |keys| && |es| == i
      invariant forall j :: 0 <= j < i ==> es[j].key == keys[j] && es[j].value == keys[j]
      invariant l.entries == map[] && l.addFault.None?
    {
      var e := new Entry(keys[i], keys[i], 0);
      es := es + [e];
      i := i + 1;
    }
    addErrs := AddAll(l, es);
    found := [];
    i := 0;
    while i < |keys|
      invariant 0 <= i <= |keys| && |found| == i
      invariant forall j :: 0 <= j < i ==> found[j] == Some(keys[j])
      invariant l.entries == Inserted(map[], es)
      invariant forall j :: 0 <= j < |es| ==> es[j].key == keys[j] && es[j].value == keys[j]
    {
      InsertedLastWins(map[], es, i);
      var v := l.Search(keys[i]);
      if v != null {
        found := found + [Some(v.value)];
      } else {
        found := found + [None];
      }
      i := i + 1;
    }
  }
}
