/** lsm/memtable.go: a memtable pairs a write-ahead log with a skip list.
    The log's file format is not part of this model; the log is the list of
    records it has accepted. */
module Memtable {
  import opened Base
  import opened Codec
  import opened Skiplist

  /** file.WalFile: the records written so far. The fault fields stand for
      the outcomes of the file code, which is not part of this model; a
      newly opened log reports none. */
  class WalFile {
    var records: seq<Record>
    var writeFault: Option<Error>
    var closeFault: Option<Error>

    /** file.OpenWalFile. */
    constructor ()
      ensures records == [] && writeFault.None? && closeFault.None?
    {
      records := [];
      writeFault := None;
      closeFault := None;
    }

    /** Write: append the entry's current contents to the log. */
    method Write(e: Entry) returns (err: Option<Error>)
      modifies this
      ensures err == old(writeFault)
      ensures records == if err.None? then old(records) + [e.Snapshot()] else old(records)
      ensures writeFault == old(writeFault) && closeFault == old(closeFault)
    {
      err := writeFault;
      if err.None? {
        records := records + [e.Snapshot()];
      }
    }

    /** Close. */
    method Close() returns (err: Option<Error>)
      ensures err == closeFault
    {
      err := closeFault;
    }
  }

  class MemTable {
    const wal: WalFile
    const sl: SkipList

    constructor (wal: WalFile, sl: SkipList)
      ensures this.wal == wal && this.sl == sl
    {
      this.wal := wal;
      this.sl := sl;
    }

    /** The outcome of set, stated over the state before and after the
        call: `snap` is what the entry held when it was written. The log is
        written first; when that fails its error is returned and the skip
        list is left alone. When it succeeds the log keeps the record
        whatever the skip list then reports, and a successful add maps the
        entry's key to the entry. No fault flag changes. */
    twostate predicate SetDone(new e: Entry, snap: Record, new err: Option<Error>)
      reads this, wal, sl
    {
      && wal.writeFault == old(wal.writeFault) && wal.closeFault == old(wal.closeFault)
      && sl.addFault == old(sl.addFault) && sl.closeFault == old(sl.closeFault)
      && if old(wal.writeFault).Some? then
           && err == old(wal.writeFault)
           && wal.records == old(wal.records)
           && sl.entries == old(sl.entries)
         else
           && wal.records == old(wal.records) + [snap]
           && err == old(sl.addFault)
           && sl.entries == (if err.None? then old(sl.entries)[e.key := e] else old(sl.entries))
    }

    /** memTable.set: the log first, then the skip list, returning the first
        error. */
    method Set(e: Entry) returns (err: Option<Error>)
      modifies wal, sl
      ensures SetDone(e, e.Snapshot(), err)
      ensures e.Snapshot() == old(e.Snapshot())
    {
      err := wal.Write(e);
      if err.Some? {
        return err;
      }
      err := sl.Add(e);
      if err.Some? {
        return err;
      }
      return None;
    }

    /** memTable.Get: the skip list's search result, never an error. */
    method Get(key: Bytes) returns (r: Entry?, err: Option<Error>)
      ensures r == sl.Find(key) && err.None?
    {
      r := sl.Search(key);
      err := None;
    }

    /** The closes memTable.close makes, in order. */
    function CloseSteps(): (steps: seq<Step>)
      reads wal, sl
      ensures |steps| == 2 && steps[0].target == wal && steps[1].target == sl
    {
      [Step(wal, wal.closeFault), Step(sl, sl.closeFault)]
    }

    /** memTable.close: the log, then the skip list, stopping at the first
        error. `closed` lists the objects whose close was called. */
    method Close() returns (err: Option<Error>, ghost closed: seq<object>)
      ensures ChainResult(err, closed) == RunChain(CloseSteps())
      ensures err == if wal.closeFault.Some? then wal.closeFault else sl.closeFault
    {
      closed := [wal];
      err := wal.Close();
      if err.Some? {
        return err, closed;
      }
      closed := closed + [sl];
      assert CloseSteps()[1..] == [Step(sl, sl.closeFault)] && CloseSteps()[1..][1..] == [];
      err := sl.Close();
      if err.Some? {
        return err, closed;
      }
      assert RunChain(CloseSteps()[1..]) == ChainResult(None, [sl]);
      return None, closed;
    }
  }

  /** recovery: nothing is replayed; one new memtable over a new log and a
      new skip list, and no immutable tables. */
  method Recovery() returns (mt: MemTable, immutables: seq<MemTable>)
    ensures fresh(mt) && fresh(mt.wal) && fresh(mt.sl)
    ensures mt.wal.records == [] && mt.wal.writeFault.None? && mt.wal.closeFault.None?
    ensures mt.sl.entries == map[] && mt.sl.addFault.None? && mt.sl.closeFault.None?
    ensures immutables == []
  {
    var wal := new WalFile();
    var sl := new SkipList();
    mt := new MemTable(wal, sl);
    immutables := [];
  }
}
