/** lsm/lsm.go: the LSM tree's active memtable, its immutable memtables
    and its level manager, with the order in which writes, reads and closes
    visit them. Merging runs in a goroutine and is not part of this model. */
module Lsm {
  import opened Base
  import opened Codec
  import opened Lookup
  import opened Skiplist
  import opened Memtable
  import opened Levels

  /** utils.Closer: only whether it has been told to close. */
  class Closer {
    var signalled: bool

    /** utils.NewCloser. */
    constructor ()
      ensures !signalled
    {
      signalled := false;
    }

    /** Close: signal the goroutines waiting on this closer. */
    method Close()
      modifies this
      ensures signalled
    {
      signalled := true;
    }
  }

  /** What each memtable of `ts` finds for `key`, in order. */
  function TableHits(ts: seq<MemTable>, key: Bytes): (r: seq<Entry?>)
    reads set t <- ts :: t.sl
    ensures |r| == |ts|
    ensures forall i :: 0 <= i < |ts| ==> r[i] == ts[i].sl.Find(key)
  {
    if ts == [] then [] else [ts[0].sl.Find(key)] + TableHits(ts[1..], key)
  }

  /** The closes of the memtables of `ts`, table after table. */
  function TableSteps(ts: seq<MemTable>): seq<Step>
    reads set t <- ts :: t.wal, set t <- ts :: t.sl
  {
    if ts == [] then [] else ts[0].CloseSteps() + TableSteps(ts[1..])
  }

  lemma {:induction false} TableStepsAppend(a: seq<MemTable>, b: seq<MemTable>)
    ensures TableSteps(a + b) == TableSteps(a) + TableSteps(b)
  {
    if a == [] {
      assert a + b == b;
    } else {
      assert (a + b)[0] == a[0];
      assert (a + b)[1..] == a[1..] + b;
      TableStepsAppend(a[1..], b);
    }
  }

  /** The close steps of a prefix of `ts`, one table longer. */
  lemma TableStepsSnoc(ts: seq<MemTable>, i: nat)
    requires i < |ts|
    ensures TableSteps(ts[..i + 1]) == TableSteps(ts[..i]) + ts[i].CloseSteps()
  {
    TableStepsAppend(ts[..i], [ts[i]]);
    assert ts[..i] + [ts[i]] == ts[..i + 1];
    assert [ts[i]][1..] == [];
  }

  /** The close steps of `ts`, split after table `i`. */
  lemma TableStepsSplit(ts: seq<MemTable>, i: nat)
    requires i < |ts|
    ensures TableSteps(ts) == TableSteps(ts[..i + 1]) + TableSteps(ts[i + 1..])
  {
    TableStepsAppend(ts[..i + 1], ts[i + 1..]);
    assert ts[..i + 1] + ts[i + 1..] == ts;
  }

  class LSM {
    var memTable: MemTable
    var immutables: seq<MemTable>
    var levels: LevelManager
    var closer: Closer

    ghost predicate Valid()
      reads this
    {
      levels.Valid()
    }

    /** NewLSM: recover the memtables, build the level manager, make the
        closer. */
    constructor ()
      ensures Valid()
      ensures fresh(memTable) && fresh(memTable.wal) && fresh(memTable.sl)
      ensures memTable.wal.records == [] && memTable.sl.entries == map[]
      ensures memTable.wal.writeFault.None? && memTable.wal.closeFault.None?
      ensures memTable.sl.addFault.None? && memTable.sl.closeFault.None?
      ensures immutables == []
      ensures fresh(levels) && fresh(levels.cache) && fresh(levels.manifest)
      ensures levels.cache.closeFault.None? && levels.manifest.closeFault.None?
      ensures fresh(closer) && !closer.signalled
    {
      var mt, imms := Recovery();
      memTable := mt;
      immutables := imms;
      levels := new LevelManager();
      closer := new Closer();
    }

    /** Everything a read may consult, in the order it consults it: the
        active memtable, the immutables in slice order, then levels 0 to 7. */
    function Candidates(key: Bytes): seq<Entry?>
      reads this, memTable.sl, set t <- immutables :: t.sl
    {
      [memTable.sl.Find(key)] + TableHits(immutables, key) + Hits(levels.levels, key)
    }

    /** The immutables loop of LSM.Get: the first hit in slice order. `n` is
        its position, or |immutables| on a miss; `calls` counts the Get
        calls the loop makes. */
    method SearchImmutables(key: Bytes) returns (r: Entry?, err: Option<Error>, ghost n: nat, ghost calls: nat)
      ensures n == HitIndex(TableHits(immutables, key))
      ensures calls == if n < |immutables| then n + 1 else n
      ensures r == FirstEntry(TableHits(immutables, key))
      ensures err.None?
    {
      ghost var ms := TableHits(immutables, key);
      FirstEntryIsFirstHit(ms);
      calls := 0;
      var i := 0;
      while i < |immutables|
        invariant 0 <= i <= |immutables|
        invariant i <= HitIndex(ms) && calls == i
      {
        r, err := immutables[i].Get(key);
        calls := calls + 1;
        assert ms[i] == r;
        if r != null {
          return r, err, i, calls;
        }
        assert HitIndex(ms) != i;
        i := i + 1;
      }
      return null, None, i, calls;
    }

    /** LSM.Get: the first non-nil entry among the memtables and then the
        levels, never an error. `asked` counts the memtable Get calls made
        and `levelsAsked` says whether the level manager was reached. */
    method Get(key: Bytes) returns (r: Entry?, err: Option<Error>, ghost asked: nat, ghost levelsAsked: bool)
      requires Valid()
      ensures r == FirstEntry(Candidates(key))
      ensures err.None?
      ensures memTable.sl.Find(key) != null ==> asked == 1 && !levelsAsked
      ensures memTable.sl.Find(key) == null ==>
        var n := HitIndex(TableHits(immutables, key));
        && asked == (if n < |immutables| then n + 2 else |immutables| + 1)
        && (levelsAsked <==> n == |immutables|)
    {
      ghost var m := [memTable.sl.Find(key)];
      ghost var ms := TableHits(immutables, key);
      ghost var lh := Hits(levels.levels, key);
      FirstEntryAppend(m, ms);
      FirstEntryAppend(m + ms, lh);
      assert m[1..] == [];
      levelsAsked := false;
      asked := 0;
      r, err := memTable.Get(key);
      asked := asked + 1;
      if r != null {
        return r, err, asked, levelsAsked;
      }
      ghost var n, calls;
      r, err, n, calls := SearchImmutables(key);
      asked := asked + calls;
      FirstEntryIsFirstHit(ms);
      if r != null {
        return r, err, asked, levelsAsked;
      }
      r, err := levels.Get(key);
      levelsAsked := true;
    }

    /** Flushing the immutables: each goes to the level manager in slice
        order, and the loop stops at the first failing flush. `flushed`
        lists the tables handed over. */
    method FlushImmutables() returns (ghost flushed: seq<MemTable>)
      ensures flushed == immutables
    {
      flushed := [];
      var i := 0;
      while i < |immutables|
        invariant 0 <= i <= |immutables| && flushed == immutables[..i]
      {
        var err := levels.Flush(immutables[i]);
        flushed := flushed + [immutables[i]];
        if err.Some? {
          return flushed;
        }
        i := i + 1;
      }
      assert immutables[..|immutables|] == immutables;
    }

    /** LSM.Set: write to the active memtable and return its error; when it
        succeeds, flush the immutables and return nil, also when a flush
        fails. The memtables and the level manager stay in place. */
    method Set(e: Entry) returns (err: Option<Error>, ghost flushed: seq<MemTable>)
      modifies memTable.wal, memTable.sl
      ensures memTable == old(memTable) && immutables == old(immutables)
      ensures levels == old(levels) && closer == old(closer)
      ensures memTable.SetDone(e, e.Snapshot(), err)
      ensures e.Snapshot() == old(e.Snapshot())
      ensures flushed == if err.Some? then [] else immutables
    {
      err := memTable.Set(e);
      if err.Some? {
        return err, [];
      }
      flushed := FlushImmutables();
      return None, flushed;
    }

    /** The closes LSM.Close makes, in order: the active memtable, each
        immutable, the level manager, and the closer, which cannot fail. */
    function CloseSteps(): seq<Step>
      reads this, memTable.wal, memTable.sl, set t <- immutables :: t.wal, set t <- immutables :: t.sl
      reads levels.cache, levels.manifest
    {
      memTable.CloseSteps() + TableSteps(immutables) + levels.CloseSteps() + [Step(closer, None)]
    }

    /** The immutables loop of LSM.Close: close each in slice order,
        stopping at the first error. */
    method CloseImmutables() returns (err: Option<Error>, ghost closed: seq<object>)
      ensures ChainResult(err, closed) == RunChain(TableSteps(immutables))
    {
      closed := [];
      var i := 0;
      while i < |immutables|
        invariant 0 <= i <= |immutables|
        invariant RunChain(TableSteps(immutables[..i])) == ChainResult(None, closed)
      {
        var e, ci := immutables[i].Close();
        ghost var p := TableSteps(immutables[..i]);
        ghost var s := immutables[i].CloseSteps();
        TableStepsSnoc(immutables, i);
        TableStepsSplit(immutables, i);
        RunChainAppend(p, s);
        if e.Some? {
          RunChainAppend(p + s, TableSteps(immutables[i + 1..]));
          return e, closed + ci;
        }
        closed := closed + ci;
        i := i + 1;
      }
      assert immutables[..|immutables|] == immutables;
      return None, closed;
    }

    /** LSM.Close: close in CloseSteps order, stopping at the first error;
        the closer is signalled only when every close before it succeeded. */
    method Close() returns (err: Option<Error>, ghost closed: seq<object>)
      modifies closer
      ensures ChainResult(err, closed) == RunChain(old(CloseSteps()))
      ensures closer.signalled == (old(closer.signalled) || err.None?)
    {
      ghost var a := memTable.CloseSteps();
      ghost var b := TableSteps(immutables);
      ghost var c := levels.CloseSteps();
      ghost var d := [Step(closer, None)];
      assert CloseSteps() == a + b + c + d;
      RunChainAppend(a, b);
      RunChainAppend(a + b, c);
      RunChainAppend(a + b + c, d);
      ghost var ca, cb, cc;
      err, ca := memTable.Close();
      if err.Some? {
        return err, ca;
      }
      err, cb := CloseImmutables();
      if err.Some? {
        return err, ca + cb;
      }
      err, cc := levels.Close();
      if err.Some? {
        return err, ca + cb + cc;
      }
      closer.Close();
      RunChainSnoc(a + b + c, Step(closer, None));
      return None, ca + cb + cc + [closer];
    }
  }
}
