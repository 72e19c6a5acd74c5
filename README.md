# minikv core in Dafny

This project models the core of minikv, a small Go key-value store built as
an LSM tree with a separate value log. Three parts are modelled and proved:

- **The bloom filter and its key hash** (`utils/bloom.go`).
  - `appendFilter` builds a byte array from 32-bit key hashes. It uses
    double hashing: probe `i` of hash `h` is `(h + i*delta) mod 2^32 mod
    nBits`, where `delta` is `h` rotated left by 15 bits. The probe count
    `k` goes in the trailing byte.
  - `MayContain` replays the same probe sequence.
  - `Hash` is LevelDB's seeded multiply/xor hash, over little-endian 4-byte
    words and then a fall-through tail.
  - The filter loops are imperative Dafny over an `array<byte>`: they OR
    bits in place, and they advance `h` with 32-bit wrap-around. The hash
    loop re-slices a `seq<byte>`, as the Go loop re-slices `b`. Each loop is proved
    equal to a recursive specification function. Then the headline property
    is proved on those functions: a freshly built filter has no false
    negatives.
- **The read, write and close order of the storage layer** (`lsm/memtable.go`,
  `lsm/lsm.go`, `lsm/levels.go`, `db.go`).
  - The Go structs are Dafny classes with their fields. The collaborators
    whose code is not part of this model are small classes holding abstract
    state:
    - the write-ahead log and the value log: a `seq` of records; the
      value log's pointer resolution is a free map, which its `Set` does
      not extend;
    - the skip list: a `map` from key to entry;
    - each close, write or add: a fault field that says what it reports.
  - The contracts state what the code does:
    - the WAL is written before the skip list;
    - the value log is written before the LSM tree;
    - a failure leaves the later stores alone;
    - lookups are first-hit-wins: active memtable, then the immutables in
      slice order, then level 0, then levels 1 to 7;
    - every close chain stops at its first error;
    - errors are swallowed exactly where the Go code swallows them.

    The close chains and the lookup chains are stated through two small
    reference functions, `Base.RunChain` and `Lookup.FirstEntry`. Lemmas
    give those functions their meaning: where a chain stops, and which
    candidate wins.
- **The skip-list contract** that `utils/skiplist_test.go` asserts:
  - `Add` inserts or overwrites;
  - `Search` returns the entry or nil;
  - `compare` orders by score, then by key.

  The two tests are methods whose postconditions are those assertions. The
  concurrent test's goroutines are run one after another.

## Model

| member | source | states |
|---|---|---|
| Base.RunChainFirstFault | lsm/lsm.go:21-36 | a chain of closes reports the error of its first failing step and has called exactly the closes up to and including it; with no failing step it reports nil and every close was called |
| Base.RunChainAppend | db.go:48-59 | running a chain and then a second one equals one chain over both lists, and the second runs only when the first reported nil |
| Base.RunChainSnoc | lsm/lsm.go:30-35 | a step appended to a chain runs only when the chain so far succeeded, and its fault then becomes the result |
| Base.NoFaultChain | db.go:48-59 | a chain in which no step fails reports nil and calls every close, in order |
| Codec.Entry.constructor | db.go:63-67 | a new entry holds the given key, value and expiry |
| Bloom.SetBit | utils/bloom.go:77 | OR-ing one bit changes only the byte at `pos/8` |
| Bloom.SetBitMonotone | utils/bloom.go:77 | OR-ing a bit sets it and clears no bit that was set |
| Bloom.SetProbes | utils/bloom.go:75-79 | setting the probes of a hash keeps the filter's length and never writes a byte at or past `nBits/8`, so the trailing `k` byte is never touched |
| Bloom.ProbeStep | utils/bloom.go:78 | the wrapped `h += delta` moves the probe sequence on by one: probe `i` of the new `h` is probe `i+1` of the old |
| Bloom.AllProbesSetSound | utils/bloom.go:27-33 | when the probe loop's test holds, every probe position `(h + i*delta) mod 2^32 mod nBits` with `i < n` is set |
| Bloom.AllProbesSetComplete | utils/bloom.go:27-33 | when every one of the `n` probe positions is set, the probe loop's test holds |
| Bloom.AllProbesSetIff | utils/bloom.go:26-33 | the probe loop's test holds exactly when all `n` closed-form probe positions are set (both directions) |
| Bloom.AllProbesSetCovered | utils/bloom.go:73-80 | setting more bits never makes a probe test that held fail |
| Bloom.SetProbesCovers | utils/bloom.go:75-79 | setting one key's probes keeps every bit already set |
| Bloom.SetProbesSetsAll | utils/bloom.go:75-79 | after setting one key's probes, the query's probe test for that key holds |
| Bloom.InsertKeysCovers | utils/bloom.go:73-80 | inserting a list of keys keeps every bit already set |
| Bloom.InsertKeysSetsAll | utils/bloom.go:73-80 | after inserting a list of keys, the probe test holds for every key of the list |
| Bloom.ProbeCount | utils/bloom.go:55-64 | the stored probe count is between 1 and 30 |
| Bloom.DataBytes | utils/bloom.go:66-70 | there are at least 8 data bytes, since the bit count is raised to 64 |
| Bloom.ByteRoundTrip | utils/bloom.go:81 | `uint8(k)` keeps `k` for every probe count up to 30 |
| Bloom.BuildFilterShape | utils/bloom.go:66-81 | a built filter has `nBytes + 1` bytes, so at least 9; its last byte is the probe count; its data bytes are exactly the bits the keys' probes set |
| Bloom.ShortFilterRejects | utils/bloom.go:18-20 | a filter shorter than two bytes reports every hash absent |
| Bloom.LargeProbeCountAccepts | utils/bloom.go:21-24 | a filter whose trailing byte exceeds 30 reports every hash possibly present |
| Bloom.MayContainIff | utils/bloom.go:25-33 | otherwise every probe position lies in the data bytes, and the answer is true exactly when all `k` probe positions are set |
| Bloom.NoFalseNegatives | utils/bloom.go:54-84 | a filter built from `keys` answers true for every hash in `keys` |
| Bloom.FilterParams | utils/bloom.go:55-71 | the Go parameter code yields the probe count, the data-byte count and `nBits = 8*nBytes` of the specification |
| Bloom.SetBitInPlace | utils/bloom.go:77 | the in-place OR leaves the array equal to `SetBit` of its old contents |
| Bloom.AddProbes | utils/bloom.go:74-79 | the inner loop leaves the array equal to `SetProbes` of its old contents |
| Bloom.AppendFilter | utils/bloom.go:54-84 | appendFilter returns a new array whose contents are `BuildFilter(keys, bitsPerKey)` |
| Bloom.NewFilter | utils/bloom.go:37-39 | NewFilter returns a filter of `nBytes + 1` bytes that answers true for every key hash it was built from |
| Bloom.MayContain | utils/bloom.go:17-35 | the early-exit probe loop answers exactly `MayContainSpec`: false for short filters, true for `k > 30`, else all probes set |
| Bloom.AddTail | utils/bloom.go:97-108 | the fall-through switch adds the 1 to 3 tail bytes as `HashTail` does, and an empty tail leaves `h` unchanged |
| Bloom.Hash | utils/bloom.go:86-110 | the re-slicing word loop plus the tail switch computes `HashSpec(b)`, the 32-bit word-by-word definition |
| Bloom.HashEmpty | utils/bloom.go:91 | the hash of the empty input is the seed `0xbc9f1d34` |
| Bloom.HashVectorsTail | utils/bloom.go:97-108 | one-, two- and three-byte inputs hash to LevelDB's published test values |
| Bloom.HashVectorWord | utils/bloom.go:92-96 | a four-byte input goes through one word round and hashes to LevelDB's published test value |
| Bloom.MayContainKey | utils/bloom.go:9-11 | MayContainKey answers MayContain of the key's hash |
| Bloom.NoFalseNegativesByKey | utils/bloom.go:9-11 | a filter built from the keys' hashes answers MayContainKey true for every key it was built from |
| Lookup.HitIndex | lsm/lsm.go:85-89 | the position of the first non-nil candidate: all before it are nil, and it is `|s|` only when every candidate is nil |
| Lookup.FirstEntryIsFirstHit | lsm/lsm.go:85-89 | the first-hit lookup returns the candidate at the first non-nil position, and it is nil exactly when every candidate is nil |
| Lookup.FirstEntryAppend | lsm/lsm.go:82-91 | looking up in `a` then in `b` is one lookup over `a + b`: `b` is consulted only when all of `a` misses |
| Lookup.HitIndexAppend | lsm/lsm.go:82-89 | the first hit of `a + b` is in `a` when `a` has one, else at `|a|` plus the first hit of `b` |
| Skiplist.CompareBytes | utils/skiplist_test.go:42 | byte-string comparison returns -1, 0 or 1 |
| Skiplist.CompareBytesZeroIff | utils/skiplist_test.go:21-43 | byte-string comparison is 0 exactly for equal strings |
| Skiplist.CompareBytesAntisymmetric | utils/skiplist_test.go:21-43 | swapping the arguments of byte-string comparison flips its sign |
| Skiplist.Compare | utils/skiplist_test.go:42 | compare returns -1, 0 or 1, and when the scores differ it is -1 exactly when the search key's score is the lower |
| Skiplist.CompareLowerScore | utils/skiplist_test.go:33-42 | a search key whose score is below the element's compares as -1, whatever the keys |
| Skiplist.CompareOrder | utils/skiplist_test.go:21-43 | compare is antisymmetric, and it is 0 exactly for the same score and key |
| Skiplist.InsertedKeys | utils/skiplist_test.go:84-91 | after a run of adds, a key is present exactly when it was before or some added entry carries it |
| Skiplist.InsertedLastWins | utils/skiplist_test.go:58-60 | after a run of adds, a key maps to the last entry added with it |
| Skiplist.InsertedUntouched | utils/skiplist_test.go:84-104 | keys that no add names keep what they had |
| Skiplist.SkipList.constructor | utils/skiplist_test.go:46 | a new list is empty and reports no faults |
| Skiplist.SkipList.Add | utils/skiplist_test.go:49 | Add returns the list's fault; on nil it maps the entry's key to the entry, overwriting; on a fault the list is unchanged |
| Skiplist.SkipList.Search | utils/skiplist_test.go:50 | Search returns the entry held for the key, non-nil exactly when the key is present |
| Skiplist.SkipList.Close | lsm/memtable.go:20 | Close returns the list's close outcome |
| Skiplist.AddAll | utils/skiplist_test.go:84-91 | the add loop of the concurrent test, run in order: every add reports nil, and the list becomes `Inserted` of the entries |
| Skiplist.BasicCRUD | utils/skiplist_test.go:45-61 | the three adds report nil; the searches see val1, val2 and then the overwriting val1+1; the key never added is absent |
| Skiplist.ConcurrentBasic | utils/skiplist_test.go:77-105 | after adding n distinct keys each with itself as value, every add reported nil and every key is found with its own value |
| Memtable.WalFile.constructor | lsm/memtable.go:47 | a newly opened log holds no records and reports no faults |
| Memtable.WalFile.Write | lsm/memtable.go:28 | Write returns the log's fault; on nil the entry's current contents are appended, else the log is unchanged |
| Memtable.WalFile.Close | lsm/memtable.go:17 | Close returns the log's close outcome |
| Memtable.MemTable.constructor | lsm/memtable.go:47 | a memtable pairs the given log and skip list |
| Memtable.MemTable.Set | lsm/memtable.go:26-36 | WAL first. A WAL failure is returned and the skip list is unchanged. Then an add failure is returned and the WAL keeps the record. On success the WAL gained exactly this entry and the skip list maps its key to it |
| Memtable.MemTable.Get | lsm/memtable.go:38-42 | Get is the skip list's search result and never an error |
| Memtable.MemTable.CloseSteps | lsm/memtable.go:16-24 | the closes are the WAL's and then the skip list's |
| Memtable.MemTable.Close | lsm/memtable.go:16-24 | close runs the WAL close, then the skip-list close, stopping at the first error |
| Memtable.Recovery | lsm/memtable.go:45-48 | recovery yields one new memtable over a new empty log and an empty skip list, and no immutables |
| Levels.Cache.Close | lsm/levels.go:36 | the cache's close returns its outcome |
| Levels.Manifest.constructor | lsm/levels.go:62-64 | a newly opened manifest reports no close fault |
| Levels.Manifest.Close | lsm/levels.go:39 | the manifest's close returns its outcome |
| Levels.Table.constructor | lsm/table.go:9-11 | openTable gives a handle on a newly opened SSTable |
| Levels.LevelHandler.constructor | lsm/levels.go:69-71 | a handler holds the given level number and tables |
| Levels.LevelHandler.Get | lsm/levels.go:25-33 | the stubbed handler lookup returns (nil, nil) on every level |
| Levels.LevelHandler.Close | lsm/levels.go:21-23 | a handler's close reports nil |
| Levels.Hits | lsm/levels.go:88-97 | the lookups of the handlers, level by level in slice order |
| Levels.HandlerSteps | lsm/levels.go:42-46 | one infallible close per handler, in slice order |
| Levels.Build | lsm/levels.go:66-75 | build allocates 8 new handlers; handler i is at level i and holds one table |
| Levels.LevelManager.constructor | lsm/levels.go:50-57 | newLevelManager opens the manifest and builds the eight levels |
| Levels.LevelManager.Flush | lsm/levels.go:77-80 | flush is a no-op that reports nil |
| Levels.LevelManager.Get | lsm/levels.go:82-99 | level 0 then levels 1..7 in order; the first non-nil entry wins; a miss everywhere is (nil, nil) |
| Levels.LevelManager.CloseLevels | lsm/levels.go:42-46 | the handler loop closes each level in order |
| Levels.LevelManager.Close | lsm/levels.go:35-48 | close runs the cache, then the manifest, then each level, and returns the first error |
| Lsm.Closer.Close | lsm/lsm.go:34 | closing the closer signals it |
| Lsm.Closer.constructor | lsm/lsm.go:46 | a new closer is not signalled |
| Lsm.TableHits | lsm/lsm.go:85-89 | what each immutable's skip list holds for the key, in slice order |
| Lsm.TableStepsAppend | lsm/lsm.go:25-29 | the closes of two lists of memtables are the closes of the first, then those of the second |
| Lsm.TableStepsSnoc | lsm/lsm.go:25-29 | the closes of a prefix one table longer add that table's closes at the end |
| Lsm.TableStepsSplit | lsm/lsm.go:25-29 | the closes of all immutables split after any table into those up to it and those after it |
| Lsm.LSM.constructor | lsm/lsm.go:39-48 | NewLSM recovers an empty memtable with no immutables, builds a valid level manager, and makes an unsignalled closer |
| Lsm.LSM.SearchImmutables | lsm/lsm.go:85-89 | the immutables loop returns the first hit, in slice order from index 0, reports where it was found, and counts one table Get per table it asks |
| Lsm.LSM.Get | lsm/lsm.go:76-92 | Get returns the first hit of memtable, then immutables, then levels, and never errors. A hit in the memtable consults nothing else. A hit in immutable n consults exactly n+2 tables and no level. Levels are reached only when all tables miss |
| Lsm.LSM.FlushImmutables | lsm/lsm.go:68-72 | the flush loop hands each immutable to the level manager in slice order |
| Lsm.LSM.Set | lsm/lsm.go:61-74 | Set returns the memtable's error, then flushes nothing. On success it flushes every immutable and returns nil. It never changes the active memtable, the immutables or the levels |
| Lsm.LSM.CloseImmutables | lsm/lsm.go:25-29 | the immutables are closed in slice order, stopping at the first error |
| Lsm.LSM.Close | lsm/lsm.go:21-36 | Close runs the memtable, the immutables and then the levels, and returns the first error. The closer is signalled only when all of them succeeded |
| Db.VLog.constructor | db.go:36 | a new value log holds no records and reports no faults |
| Db.VLog.Set | db.go:77 | the log's set returns its fault; on nil the entry's contents are appended |
| Db.VLog.Get | db.go:100 | the log's get returns its fault, and on nil the entry the pointer resolves to |
| Db.VLog.Close | db.go:52 | the log's close returns its outcome |
| Db.Stats.constructor | stats.go:27-32 | the statistics counter starts at 1 |
| Db.Stats.Close | stats.go:11-13 | closing statistics reports nil |
| Db.DB.Open | db.go:31-46 | Open makes a new LSM tree, as NewLSM does: an empty memtable over a new log and skip list, no immutables, a new valid level manager with a new cache and manifest, and a new unsignalled closer. It makes an empty value log and statistics whose counter is 1. No new object reports a fault |
| Db.DB.Set | db.go:70-86 | A value with size above the threshold goes to the value log first: a failure is returned, with the entry and the LSM tree unchanged. Otherwise the entry's value is overwritten in place by the encoded pointer and the entry goes to the memtable. A value within the threshold bypasses the value log unchanged |
| Db.DB.Del | db.go:61-68 | Del is Set of a new entry with that key, an empty value and expiry 0 |
| Db.DB.FromLsm | db.go:95-104 | with no LSM error the LSM's result is returned unchanged. Otherwise a value pointer is resolved through the value log when that succeeds, and anything else is (nil, nil). The error is always nil |
| Db.DB.Get | db.go:88-105 | Get returns the LSM's first-hit entry, a value pointer unresolved, and never an error |
| Db.DB.SetThenGet | db.go:70-105 | with no collaborator failing, Set reports nil, and a Get of the same key then returns the entry just written, its value the encoded pointer when oversized |
| Db.DB.DelThenGet | db.go:61-105 | with no collaborator failing, Del reports nil, and a Get of the key then returns the new deletion marker: the key, an empty value (the encoded pointer if even that is oversized) and expiry 0 |
| Db.DB.CloseClean | db.go:48-59 | closing a database in the state Open leaves reports nil and signals the LSM closer |
| Db.Api | db_test.go:10-40 | open, set, get, delete and close in a row all succeed, as TestAPI expects; beyond its checks, the get returns the entry set, and an extra get after the delete returns the deletion marker |
| Db.DB.Close | db.go:48-59 | Close runs the LSM tree's closes, then the value log, then statistics, and returns the first error. The LSM closer is signalled only when the LSM's own closes succeeded |

## Left out

- Goroutines are left out: the `go` launches in `Open`, `StartMerge`, `StartStats`, and the value log's GC. The concurrent skip-list test is read sequentially. The benchmarks (`Benchmark_SkipListBasicCRUD`, `Benchmark_ConcurrentBasic`) only time the same adds and searches at scale and are not modelled.
- `BloomBitsPerKey` uses `math.Log` and `math.Pow` on floating point, so it is not modelled.
- Bloom.ProbeCount: `uint32(float64(bitsPerKey) * 0.69)` is written as `(b * 69) / 100`. This truncates to the same integer for every `b` up to 43, and from 44 on both clamp to 30, as long as `bitsPerKey < 2^32`. Above that Go's float-to-`uint32` conversion is implementation-defined; no caller reaches it, since every operation that uses the probe count requires `FitsUint32`.
- Bloom.FilterParams: requires `FitsUint32`, the bound of Bloom.AppendFilter, so that neither the float conversion nor `len(keys) * int(bitsPerKey)` overflows.
- Bloom.AppendFilter: requires `bitsPerKey < 2^32` and `8 * nBytes < 2^32`, so that Go's `int` product and the `uint32(nBits)` conversion do not overflow. The truncated results of larger filters are not modelled.
- Bloom.NewFilter: carries the same size bound as Bloom.AppendFilter.
- Bloom.MayContain: requires a filter of at most 2^29 bytes, so that `uint32(8 * (len(f) - 1))` does not truncate. A larger filter's wrapped bit count is not modelled.
- Bloom.MayContainKey: carries the same bound as Bloom.MayContain.
- Packages `file`, `vlog`, `codec` and `utils.Closer` are not part of this model, nor is `skiplist.go`.
  - Their operations are small classes.
  - Each outcome is a fault field read by the call, and a new object has no faults.
  - A log or list that reports a fault is taken to keep its contents. That is an assumption, since their code is not part of this model.
  - `codec.NewValuePtr` with `ValuePtrCodec`, `utils.ValueSize` and `IsValuePtr` are function parameters of the database (`Codec.ValueCodec`). `NewValuePtr` is taken never to return nil, so an oversized value is always replaced by its encoded pointer (the `valuePtr != nil` test of `DB.Set`).
- Lsm.Closer.Close: the model only sets a signal. The wait for the merge goroutine (comment at lsm/lsm.go:33) is dropped with the goroutines. `StartMerge`'s loop never exits, so if `utils.Closer.Close` waits for its `Done`, `LSM.Close` would never return; `utils.Closer` is not part of this model.
- Db.VLog.Get: pointer resolution reads a free map, `resolved`, which `VLog.Set` leaves alone. The link between written records and resolvable pointers is not modelled. No proved property depends on it, because `DB.Get` never reaches the value log.
- On-disk formats, checksums, SSTable contents, compaction, merging, value-log GC and TTL expiry are left out.
- Skiplist.Compare: `calcScore` is not part of this model, so scores are free integers. A tie on score is taken to fall back on `bytes.Compare` of the keys. That is an assumption about code that is not part of this model; the test at utils/skiplist_test.go:42 covers only the lower-score case.
- `utils.MaxLevelNum` is taken as 8. `build` allocates 8 handlers and `levelManager.Get` loops to 8 literally.
- Levels.LevelManager.constructor: in Go, `newLevelManager` never assigns `lm.cache`, so `lm.close` would call `close` on a nil cache. The model gives the manager a cache object whose close reports its fault. `loadCache` is empty and is left out.
- Levels.LevelHandler.Get: both branches of the Go stub are empty, so every level misses, and so do `levelManager.Get` and the level part of `LSM.Get`. `Levels.Hits` still carries the level-by-level order, so the precedence lemmas stay meaningful if a handler finds something.
- Lsm.LSM.Set: `flush` always reports nil, so the branch that swallows a flush error (`return nil`) is modelled but cannot be reached.
- Db.DB.Get: `LSM.Get` never reports an error, so the value-log branch of `DB.Get` is never taken. Value pointers are returned unresolved. `Db.DB.FromLsm` models that branch for any LSM outcome.
- The entry's key is a constant field: no code in the modelled core changes a key.
- `DB.Info`, `DB.NewIterator`, the `Stats` closer and `options.go` are thin wrappers and are not modelled. `lsm/table.go` is modelled only as a handle on a new SSTable. `RandString` in the skip-list test is random and is not modelled.
