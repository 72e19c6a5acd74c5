/** lsm/levels.go: the level manager, its eight level handlers, and the
    lookup and close order over them. Table contents, the manifest format
    and the block cache are not part of this model. */
module Levels {
  import opened Base
  import opened Codec
  import opened Lookup
  import opened Memtable

  /** utils.MaxLevelNum: the number of levels, which is also the length of
      the slice build allocates. */
  const MaxLevelNum := 8

  /** file.SSTable: a table file, whose contents are not modelled. */
  class SSTable {
    /** file.OpenSStable. */
    constructor ()
    {
    }
  }

  /** table: a handle on one SSTable. */
  class Table {
    const ss: SSTable

    /** openTable: a handle on a newly opened SSTable. */
    constructor ()
      ensures fresh(ss)
    {
      ss := new SSTable();
    }
  }

  /** The block cache; only the outcome of its close is modelled. */
  class Cache {
    var closeFault: Option<Error>

    constructor ()
      ensures closeFault.None?
    {
      closeFault := None;
    }

    method Close() returns (err: Option<Error>)
      ensures err == closeFault
    {
      err := closeFault;
    }
  }

  /** file.Manifest; only the outcome of its close is modelled. */
  class Manifest {
    var closeFault: Option<Error>

    /** file.OpenManifest. */
    constructor ()
      ensures closeFault.None?
    {
      closeFault := None;
    }

    method Close() returns (err: Option<Error>)
      ensures err == closeFault
    {
      err := closeFault;
    }
  }

  class LevelHandler {
    const levelNum: int
    const tables: seq<Table>

    constructor (levelNum: int, tables: seq<Table>)
      ensures this.levelNum == levelNum && this.tables == tables
    {
      this.levelNum := levelNum;
      this.tables := tables;
    }

    /** What a lookup at this level finds: both the level-0 branch and the
        other-levels branch of levelHandler.Get are empty, so nothing. */
    function Lookup(key: Bytes): Entry?
    {
      null
    }

    /** levelHandler.Get: (nil, nil) on every level. */
    method Get(key: Bytes) returns (r: Entry?, err: Option<Error>)
      ensures r == Lookup(key) && r == null
      ensures err.None?
    {
      r, err := null, None;
    }

    /** levelHandler.close: always nil. */
    method Close() returns (err: Option<Error>)
      ensures err.None?
    {
      err := None;
    }
  }

  /** What each handler of `hs` finds for `key`, level by level. */
  function Hits(hs: seq<LevelHandler>, key: Bytes): (r: seq<Entry?>)
    ensures |r| == |hs|
    ensures forall i :: 0 <= i < |hs| ==> r[i] == hs[i].Lookup(key)
  {
    if hs == [] then [] else [hs[0].Lookup(key)] + Hits(hs[1..], key)
  }

  /** The closes of `hs`, one per handler, none of which can fail. */
  function HandlerSteps(hs: seq<LevelHandler>): (steps: seq<Step>)
    ensures |steps| == |hs|
    ensures forall i :: 0 <= i < |hs| ==> steps[i] == Step(hs[i], None)
  {
    if hs == [] then [] else [Step(hs[0], None)] + HandlerSteps(hs[1..])
  }

  /** levelManager.build: a slice of MaxLevelNum handlers, handler i at
      level i and holding one newly opened table. */
  method Build() returns (levels: seq<LevelHandler>)
    ensures |levels| == MaxLevelNum
    ensures forall i :: 0 <= i < |levels| ==>
      levels[i].levelNum == i && |levels[i].tables| == 1 && fresh(levels[i])
  {
    var t0 := new Table();
    var l0 := new LevelHandler(0, [t0]);
    levels := [l0];
    var num := 1;
    while num < MaxLevelNum
      invariant 1 <= num <= MaxLevelNum && |levels| == num
      invariant forall i :: 0 <= i < num ==>
        levels[i].levelNum == i && |levels[i].tables| == 1 && fresh(levels[i])
    {
      var t := new Table();
      var l := new LevelHandler(num, [t]);
      levels := levels + [l];
      num := num + 1;
    }
  }

  class LevelManager {
    const cache: Cache
    const manifest: Manifest
    const levels: seq<LevelHandler>

    /** The shape build gives the levels. */
    ghost predicate Valid()
    {
      && |levels| == MaxLevelNum
      && forall i :: 0 <= i < |levels| ==> levels[i].levelNum == i && |levels[i].tables| == 1
    }

    /** newLevelManager: open the manifest, then build the levels. */
    constructor ()
      ensures Valid()
      ensures fresh(cache) && fresh(manifest)
      ensures cache.closeFault.None? && manifest.closeFault.None?
    {
      cache := new Cache();
      manifest := new Manifest();
      var ls := Build();
      levels := ls;
    }

    /** levelManager.flush: a stub that reports nil. */
    method Flush(immutable: MemTable) returns (err: Option<Error>)
      ensures err.None?
    {
      err := None;
    }

    /** levelManager.Get: level 0, then levels 1 to 7 in order; the first
        non-nil entry wins, and a miss everywhere is (nil, nil). */
    method Get(key: Bytes) returns (r: Entry?, err: Option<Error>)
      requires Valid()
      ensures r == FirstEntry(Hits(levels, key))
      ensures err.None?
    {
      var hits := Hits(levels, key);
      r, err := levels[0].Get(key);
      if r != null {
        return r, err;
      }
      var level := 1;
      while level < 8
        invariant 1 <= level <= 8
        invariant FirstEntry(hits[..level]) == null && r == null && err.None?
      {
        var ld := levels[level];
        r, err := ld.Get(key);
        FirstEntryAppend(hits[..level], [hits[level]]);
        assert hits[..level + 1] == hits[..level] + [hits[level]];
        if r != null {
          return r, err;
        }
        level := level + 1;
      }
      assert hits[..8] == hits;
      return r, None;
    }

    /** The closes levelManager.close makes, in order. */
    function CloseSteps(): seq<Step>
      reads cache, manifest
    {
      [Step(cache, cache.closeFault), Step(manifest, manifest.closeFault)] + HandlerSteps(levels)
    }

    /** The levels loop of levelManager.close; no handler close fails. */
    method CloseLevels() returns (err: Option<Error>, ghost closed: seq<object>)
      ensures ChainResult(err, closed) == RunChain(HandlerSteps(levels))
    {
      closed := [];
      var i := 0;
      while i < |levels|
        invariant 0 <= i <= |levels|
        invariant RunChain(HandlerSteps(levels[..i])) == ChainResult(None, closed)
      {
        RunChainSnoc(HandlerSteps(levels[..i]), Step(levels[i], None));
        assert HandlerSteps(levels[..i + 1]) == HandlerSteps(levels[..i]) + [Step(levels[i], None)];
        closed := closed + [levels[i]];
        err := levels[i].Close();
        if err.Some? {
          return err, closed;
        }
        i := i + 1;
      }
      assert levels[..|levels|] == levels;
      return None, closed;
    }

    /** levelManager.close: the cache, the manifest, then each level in
        order, stopping at the first error. */
    method Close() returns (err: Option<Error>, ghost closed: seq<object>)
      ensures ChainResult(err, closed) == RunChain(CloseSteps())
    {
      ghost var a := [Step(cache, cache.closeFault)];
      ghost var b := [Step(manifest, manifest.closeFault)];
      ghost var c := HandlerSteps(levels);
      assert CloseSteps() == a + b + c;
      RunChainAppend(a, b);
      RunChainAppend(a + b, c);
      assert a[1..] == [] && b[1..] == [];
      ghost var cc;
      err := cache.Close();
      if err.Some? {
        return err, [cache];
      }
      err := manifest.Close();
      if err.Some? {
        return err, [cache, manifest];
      }
      err, cc := CloseLevels();
      return err, [cache, manifest] + cc;
    }
  }
}
