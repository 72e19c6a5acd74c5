/** db.go: the database handle. Small values go straight to the LSM tree;
    a value larger than the threshold is first written to the value log
    and the LSM tree then receives the entry with its value replaced by an
    encoded pointer. The value log's file format and garbage collection are
    not part of this model. */
module Db {
  import opened Base
  import opened Codec
  import opened Lookup
  import opened Skiplist
  import opened Memtable
  import opened Levels
  import opened Lsm

  /** vlog.VLog: the records written so far, and the entries its pointers
      resolve to. The fault fields stand for the outcomes of the value
      log's code, which is not part of this model; a new log reports none. */
  class VLog {
    var records: seq<Record>
    var resolved: map<Bytes, Entry>
    var setFault: Option<Error>
    var getFault: Option<Error>
    var closeFault: Option<Error>

    /** vlog.NewVLog. */
    constructor ()
      ensures records == [] && resolved == map[]
      ensures setFault.None? && getFault.None? && closeFault.None?
    {
      records := [];
      resolved := map[];
      setFault := None;
      getFault := None;
      closeFault := None;
    }

    /** Set: append the entry's current contents. */
    method Set(e: Entry) returns (err: Option<Error>)
      modifies this
      ensures err == old(setFault)
      ensures records == if err.None? then old(records) + [e.Snapshot()] else old(records)
      ensures resolved == old(resolved)
      ensures setFault == old(setFault) && getFault == old(getFault) && closeFault == old(closeFault)
    {
      err := setFault;
      if err.None? {
        records := records + [e.Snapshot()];
      }
    }

    /** What the pointer held in `ptr`'s value resolves to, or nil. */
    function Resolve(ptr: Entry): Entry?
      reads this, ptr
    {
      if ptr.value in resolved then resolved[ptr.value] else null
    }

    /** Get: the entry a pointer entry refers to. */
    method Get(ptr: Entry) returns (r: Entry?, err: Option<Error>)
      ensures err == getFault
      ensures r == if err.None? then Resolve(ptr) else null
    {
      err := getFault;
      if err.None? {
        r := Resolve(ptr);
      } else {
        r := null;
      }
    }

    method Close() returns (err: Option<Error>)
      ensures err == closeFault
    {
      err := closeFault;
    }
  }

  /** Stats: its counter starts at 1; its close always reports nil. */
  class Stats {
    var entryNum: int

    /** newStats. */
    constructor ()
      ensures entryNum == 1
    {
      entryNum := 1;
    }

    method Close() returns (err: Option<Error>)
      ensures err.None?
    {
      err := None;
    }
  }

  class DB {
    const threshold: int
    const codec: ValueCodec
    const lsm: LSM
    const vlog: VLog
    const stats: Stats

    /** Open: a new LSM tree, value log and statistics. The background
        goroutines it starts are not part of this model. */
    constructor Open(valueThreshold: int, codec: ValueCodec)
      ensures threshold == valueThreshold && this.codec == codec
      ensures fresh(lsm) && fresh(vlog) && fresh(stats)
      ensures lsm.Valid() && lsm.immutables == []
      ensures fresh(lsm.memTable) && fresh(lsm.memTable.wal) && fresh(lsm.memTable.sl)
      ensures lsm.memTable.wal.records == [] && lsm.memTable.sl.entries == map[]
      ensures lsm.memTable.wal.writeFault.None? && lsm.memTable.wal.closeFault.None?
      ensures lsm.memTable.sl.addFault.None? && lsm.memTable.sl.closeFault.None?
      ensures fresh(lsm.levels) && fresh(lsm.levels.cache) && fresh(lsm.levels.manifest)
      ensures lsm.levels.cache.closeFault.None? && lsm.levels.manifest.closeFault.None?
      ensures fresh(lsm.closer) && !lsm.closer.signalled
      ensures vlog.records == [] && vlog.resolved == map[]
      ensures vlog.setFault.None? && vlog.getFault.None? && vlog.closeFault.None?
      ensures stats.entryNum == 1
    {
      threshold := valueThreshold;
      this.codec := codec;
      lsm := new LSM();
      vlog := new VLog();
      stats := new Stats();
    }

    /** Whether a value goes to the value log: its size is strictly above
        the threshold. */
    predicate Oversized(value: Bytes)
    {
      codec.valueSize(value) > threshold
    }

    /** The outcome of Set for an entry that held `r0` when Set was called.
        An oversized value is written to the value log first; when that
        fails its error is returned and neither the entry nor the LSM tree
        changes. No fault flag of the log or the skip list ever changes. Otherwise the entry's value is overwritten in place by the
        encoded pointer (oversized values only) and the entry then goes to
        the active memtable, with the outcome MemTable.SetDone states. */
    twostate predicate SetDone(new data: Entry, r0: Record, new err: Option<Error>)
      reads this, data, vlog, lsm, lsm.memTable, lsm.memTable.wal, lsm.memTable.sl
    {
      var big := Oversized(r0.value);
      && data.key == r0.key && data.expiresAt == r0.expiresAt
      && vlog.resolved == old(vlog.resolved)
      && vlog.setFault == old(vlog.setFault) && vlog.getFault == old(vlog.getFault)
      && vlog.closeFault == old(vlog.closeFault)
      && lsm.memTable == old(lsm.memTable) && lsm.immutables == old(lsm.immutables)
      && lsm.memTable.wal.writeFault == old(lsm.memTable.wal.writeFault)
      && lsm.memTable.wal.closeFault == old(lsm.memTable.wal.closeFault)
      && lsm.memTable.sl.addFault == old(lsm.memTable.sl.addFault)
      && lsm.memTable.sl.closeFault == old(lsm.memTable.sl.closeFault)
      && if big && old(vlog.setFault).Some? then
           && err == old(vlog.setFault)
           && vlog.records == old(vlog.records)
           && data.value == r0.value
           && lsm.memTable.wal.records == old(lsm.memTable.wal.records)
           && lsm.memTable.sl.entries == old(lsm.memTable.sl.entries)
         else
           && vlog.records == (if big then old(vlog.records) + [r0] else old(vlog.records))
           && data.value == (if big then codec.encodePtr(r0) else r0.value)
           && lsm.memTable.SetDone(data, data.Snapshot(), err)
    }

    /** DB.Set. */
    method Set(data: Entry) returns (err: Option<Error>)
      modifies data, vlog, lsm.memTable.wal, lsm.memTable.sl
      ensures SetDone(data, old(data.Snapshot()), err)
    {
      var valuePtr: Option<Bytes> := None;
      if codec.valueSize(data.value) > threshold {
        valuePtr := Some(codec.encodePtr(data.Snapshot()));
        err := vlog.Set(data);
        if err.Some? {
          return err;
        }
      }
      if valuePtr.Some? {
        data.value := valuePtr.value;
      }
      ghost var flushed;
      err, flushed := lsm.Set(data);
    }

    /** DB.Del: Set of a new entry with the key, an empty value and no
        expiry; `e` is that entry. */
    method Del(key: Bytes) returns (err: Option<Error>, ghost e: Entry)
      modifies vlog, lsm.memTable.wal, lsm.memTable.sl
      ensures fresh(e)
      ensures SetDone(e, Record(key, [], 0), err)
    {
      var entry := new Entry(key, [], 0);
      err := Set(entry);
      e := entry;
    }

    /** The part of DB.Get after the LSM lookup: the LSM result when the
        LSM reported no error; otherwise the value log's entry for a value
        pointer when the value log reports no error; otherwise (nil, nil). */
    method FromLsm(entry: Entry?, lsmErr: Option<Error>) returns (r: Entry?, err: Option<Error>)
      ensures err.None?
      ensures lsmErr.None? ==> r == entry
      ensures lsmErr.Some? ==>
        r == if entry != null && codec.isValuePtr(entry.Snapshot()) && vlog.getFault.None?
             then vlog.Resolve(entry) else null
    {
      if lsmErr.None? {
        return entry, lsmErr;
      }
      if entry != null && codec.isValuePtr(entry.Snapshot()) {
        r, err := vlog.Get(entry);
        if err.None? {
          return r, err;
        }
      }
      return null, None;
    }

    /** DB.Get: the LSM lookup passed through FromLsm. The LSM tree never
        reports an error, so the result is the LSM's entry itself (a value
        pointer is returned unresolved) and the error is always nil. */
    method Get(key: Bytes) returns (r: Entry?, err: Option<Error>)
      requires lsm.Valid()
      ensures r == FirstEntry(lsm.Candidates(key))
      ensures err.None?
    {
      var entry, lsmErr;
      ghost var asked, levelsAsked;
      entry, lsmErr, asked, levelsAsked := lsm.Get(key);
      r, err := FromLsm(entry, lsmErr);
    }

    /** No object of the database reports a fault, and there are no
        immutable memtables: the state Open leaves. */
    ghost predicate Clean()
      reads this, lsm, lsm.levels, lsm.memTable, lsm.memTable.wal, lsm.memTable.sl
      reads lsm.levels.cache, lsm.levels.manifest, vlog
    {
      && lsm.Valid() && lsm.immutables == []
      && lsm.memTable.wal.writeFault.None? && lsm.memTable.wal.closeFault.None?
      && lsm.memTable.sl.addFault.None? && lsm.memTable.sl.closeFault.None?
      && lsm.levels.cache.closeFault.None? && lsm.levels.manifest.closeFault.None?
      && vlog.setFault.None? && vlog.getFault.None? && vlog.closeFault.None?
    }

    /** A write and then a read of the same key, with no collaborator
        failing: Set reports nil and Get returns the very entry written,
        whose value is the encoded pointer when it was oversized. */
    method SetThenGet(data: Entry) returns (err: Option<Error>, r: Entry?)
      requires lsm.Valid()
      requires Oversized(data.value) ==> vlog.setFault.None?
      requires lsm.memTable.wal.writeFault.None? && lsm.memTable.sl.addFault.None?
      modifies data, vlog, lsm.memTable.wal, lsm.memTable.sl
      ensures err.None? && r == data
      ensures data.value == if Oversized(old(data.value)) then codec.encodePtr(old(data.Snapshot())) else old(data.value)
      ensures data.expiresAt == old(data.expiresAt)
      ensures old(Clean()) ==> Clean()
    {
      err := Set(data);
      var getErr;
      r, getErr := Get(data.key);
    }

    /** A delete and then a read of the same key, with no collaborator
        failing: Del reports nil and Get returns its new deletion marker. */
    method DelThenGet(key: Bytes) returns (err: Option<Error>, r: Entry?)
      requires Clean()
      modifies vlog, lsm.memTable.wal, lsm.memTable.sl
      ensures Clean()
      ensures err.None? && r != null && fresh(r)
      ensures r.key == key && r.expiresAt == 0
      ensures r.value == if Oversized([]) then codec.encodePtr(Record(key, [], 0)) else []
    {
      ghost var marker;
      err, marker := Del(key);
      var getErr;
      r, getErr := Get(key);
    }

    /** Closing a database in the state Open leaves: every close succeeds
        and the LSM closer is signalled. */
    method CloseClean() returns (err: Option<Error>)
      requires Clean()
      modifies lsm.closer
      ensures err.None? && lsm.closer.signalled
    {
      ghost var steps := CloseSteps();
      assert steps == lsm.memTable.CloseSteps() + [] + lsm.levels.CloseSteps()
        + [Step(lsm.closer, None)] + [Step(vlog, vlog.closeFault), Step(stats, None)];
      NoFaultChain(steps);
      NoFaultChain(lsm.CloseSteps());
      ghost var closed;
      err, closed := Close();
    }

    /** The closes DB.Close makes, in order: the LSM tree's, the value log,
        the statistics. */
    function CloseSteps(): seq<Step>
      reads this, lsm, lsm.memTable.wal, lsm.memTable.sl
      reads set t <- lsm.immutables :: t.wal, set t <- lsm.immutables :: t.sl
      reads lsm.levels.cache, lsm.levels.manifest, vlog
    {
      lsm.CloseSteps() + [Step(vlog, vlog.closeFault), Step(stats, None)]
    }

    /** DB.Close: close in CloseSteps order, stopping at the first error. */
    method Close() returns (err: Option<Error>, ghost closed: seq<object>)
      modifies lsm.closer
      ensures ChainResult(err, closed) == RunChain(old(CloseSteps()))
      ensures lsm.closer.signalled == (old(lsm.closer.signalled) || RunChain(old(lsm.CloseSteps())).err.None?)
    {
      ghost var a := lsm.CloseSteps();
      ghost var b := [Step(vlog, vlog.closeFault)];
      ghost var c := [Step(stats, None)];
      assert CloseSteps() == a + b + c;
      RunChainAppend(a, b);
      RunChainAppend(a + b, c);
      assert b[1..] == [] && c[1..] == [];
      ghost var ca;
      err, ca := lsm.Close();
      if err.Some? {
        return err, ca;
      }
      err := vlog.Close();
      if err.Some? {
        return err, ca + [vlog];
      }
      err := stats.Close();
      if err.Some? {
        return err, ca + [vlog, stats];
      }
      return None, ca + [vlog, stats];
    }
  }

  /** The steps of TestAPI without its TTL, iterator and statistics: open
      a database, set an entry, read its key back, delete the key, and
      close. The collaborators of a new database report no faults, so every
      step succeeds. Beyond what TestAPI checks (only that the read reports
      no error), the first read returns the entry that was set, with the
      encoded pointer as its value when it was oversized, and a second read
      after the delete, which TestAPI does not make, returns the deletion
      marker. */
  method Api(threshold: int, codec: ValueCodec, key: Bytes, value: Bytes, expiresAt: nat)
    returns (setErr: Option<Error>, got: Entry?, delErr: Option<Error>, gone: Entry?, closeErr: Option<Error>)
    ensures setErr.None? && delErr.None? && closeErr.None?
    ensures got != null && got.key == key && got.expiresAt == expiresAt
    ensures got.value == if codec.valueSize(value) > threshold then codec.encodePtr(Record(key, value, expiresAt)) else value
    ensures gone != null && gone != got && gone.key == key && gone.expiresAt == 0
    ensures gone.value == if codec.valueSize([]) > threshold then codec.encodePtr(Record(key, [], 0)) else []
  {
    var db := new DB.Open(threshold, codec);
    var e := new Entry(key, value, expiresAt);
    setErr, got := db.SetThenGet(e);
    delErr, gone := db.DelThenGet(key);
    closeErr := db.CloseClean();
  }
}
