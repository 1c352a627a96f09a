/** The part of a client that the server calls: its clock, and the stats it keeps in memory and on disk. */
module Clients {
  import opened Base
  import opened Decimal

  /** crdtlib.ValueType. */
  datatype Stats = Stats(numKills: int64, numDeaths: int64)

  type KVMap = map<uint64, Stats>

  type Directory = map<string, string>

  /** Go's zero value, what indexing a map with an absent key yields. */
  const NO_STATS := Stats(0, 0)

  function Lookup(m: KVMap, key: uint64): Stats {
    if key in m then m[key] else NO_STATS
  }

  function FileName(key: uint64): string { FormatUint(key) + ".kv" }

  function FileContents(value: Stats): string {
    FormatInt(value.numKills) + "\n" + FormatInt(value.numDeaths) + "\n"
  }

  /** What filepath.Glob selects with "*.kv". */
  predicate IsStatsFile(name: string) {
    |name| >= 3 && name[|name| - 3..] == ".kv"
  }

  /** The key a file name stands for: an int64 is converted to uint64 by adding 2^64 to a negative number. */
  function KeyOfFile(name: string): uint64 {
    var k := Atoi(Split(name, '.')[0]);
    if k < 0 then k + 0x1_0000_0000_0000_0000 else k
  }

  /** Indexing the second line of a shorter file is a Go panic. */
  predicate Readable(data: string) { |Split(data, '\n')| >= 2 }

  function StatsOfFile(data: string): Stats
    requires Readable(data)
  {
    Stats(Atoi(Split(data, '\n')[0]), Atoi(Split(data, '\n')[1]))
  }

  /** Reading the file of that name yields the entry (k, v). */
  ghost predicate FileYields(dir: Directory, name: string, k: uint64, v: Stats) {
    && name in dir && IsStatsFile(name) && KeyOfFile(name) == k
    && Readable(dir[name]) && StatsOfFile(dir[name]) == v
  }

  /** The names of the other files of the same key come before. */
  ghost predicate IsLastOfKey(names: set<string>, name: string) {
    forall other :: other in names && IsStatsFile(other) && KeyOfFile(other) == KeyOfFile(name) && other != name ==>
      Before(other, name)
  }

  ghost predicate YieldsLast(dir: Directory, name: string, k: uint64, v: Stats) {
    FileYields(dir, name, k, v) && IsLastOfKey(dir.Keys, name)
  }

  /** M is the map that loading the directory produces: when several files name one key, the last one in the order of
      names stays. */
  ghost predicate LoadedFrom(dir: Directory, M: KVMap) {
    && (forall name :: name in dir && IsStatsFile(name) ==> KeyOfFile(name) in M)
    && (forall k {:trigger M[k]} :: k in M ==> exists name :: YieldsLast(dir, name, k, M[k]))
  }

  /** M is what the files that are not pending any more yield. */
  ghost predicate Loading(dir: Directory, pending: set<string>, M: KVMap) {
    && pending <= dir.Keys
    && (forall name :: name in pending ==> IsStatsFile(name))
    && (forall name :: name in dir && IsStatsFile(name) && name !in pending ==>
          Readable(dir[name]) && KeyOfFile(name) in M)
    && (forall name, later :: name in dir && IsStatsFile(name) && name !in pending && later in pending ==>
        Before(name, later))
    && (forall k :: k in M ==> LoadedKey(dir, pending, k, M[k]))
  }

  ghost predicate LoadedKey(dir: Directory, pending: set<string>, k: uint64, v: Stats) {
    exists name :: name !in pending && FileYields(dir, name, k, v) && IsLastOfKey(dir.Keys - pending, name)
  }

  lemma LoadingNext(dir: Directory, pending: set<string>, M: KVMap, file: string)
    requires Loading(dir, pending, M) && IsFirst(pending, file) && Readable(dir[file])
    ensures Loading(dir, pending - {file}, M[KeyOfFile(file) := StatsOfFile(dir[file])])
  {
    var key, v := KeyOfFile(file), StatsOfFile(dir[file]);
    var pending', M' := pending - {file}, M[key := v];
    forall name, later | name in dir && IsStatsFile(name) && name !in pending' && later in pending'
      ensures Before(name, later)
    {
      if name == file {
        assert later in pending && later != file;
      } else {
        assert name !in pending && later in pending;
      }
    }
    forall k | k in M' ensures LoadedKey(dir, pending', k, M'[k]) {
      if k == key {
        assert file !in pending' && FileYields(dir, file, k, v);
        forall other | other in dir.Keys - pending' && IsStatsFile(other) && other != file ensures Before(other, file) {
          assert other !in pending && file in pending;
        }
        assert IsLastOfKey(dir.Keys - pending', file);
      } else {
        var name :| name !in pending && FileYields(dir, name, k, M[k]) && IsLastOfKey(dir.Keys - pending, name);
        assert name !in pending' && IsLastOfKey(dir.Keys - pending', name);
      }
    }
  }

  lemma AllLoaded(dir: Directory, M: KVMap)
    requires Loading(dir, {}, M)
    ensures LoadedFrom(dir, M)
  {
    forall k {:trigger M[k]} | k in M ensures exists name :: YieldsLast(dir, name, k, M[k]) {
      assert LoadedKey(dir, {}, k, M[k]);
      var name :| FileYields(dir, name, k, M[k]) && IsLastOfKey(dir.Keys - {}, name);
      assert dir.Keys - {} == dir.Keys;
      assert YieldsLast(dir, name, k, M[k]);
    }
  }

  /** Rebuilds the map from the files of the stats directory at start-up, in the order of their names, which is that of
      filepath.Glob; None stands for the panic. */
  method KVStoreSetup(dir: Directory) returns (result: Option<KVMap>)
    ensures result.None? <==> exists name :: name in dir && IsStatsFile(name) && !Readable(dir[name])
    ensures result.Some? ==> LoadedFrom(dir, result.value)
  {
    var M: KVMap := map[];
    var files := set name | name in dir && IsStatsFile(name);
    while files != {}
      invariant Loading(dir, files, M)
      decreases |files|
    {
      FirstExists(files);
      ghost var first :| IsFirst(files, first);
      var file :| file in files && forall other :: other in files && other != file ==> Before(file, other);
      assert IsFirst(files, file);
      var dataStr := Split(dir[file], '\n');
      if |dataStr| < 2 {
        assert !Readable(dir[file]);
        return None;
      }
      LoadingNext(dir, files, M, file);
      var v0, v1 := Atoi(dataStr[0]), Atoi(dataStr[1]);
      M := M[KeyOfFile(file) := Stats(v0, v1)];
      files := files - {file};
    }
    AllLoaded(dir, M);
    return Some(M);
  }

  /** clocklib.ClockManager. Time is in nanoseconds; the hardware reading time.Now() is an argument. */
  class ClockManager {
    var offset: int

    constructor ()
      ensures offset == 0
    {
      offset := 0;
    }

    method SetOffset(offset: int)
      modifies this
      ensures this.offset == offset
    {
      this.offset := offset;
    }

    function GetCurrentTime(now: int): int
      reads this
    {
      now + offset
    }
  }

  /** A running client. clockOffset is the field of its ClockManager: a process has exactly one. */
  class ClientProcess {
    const id: uint64
    var kvMap: KVMap
    var files: Directory
    var clockOffset: int

    constructor (id: uint64, dir: Directory, loaded: KVMap)
      requires LoadedFrom(dir, loaded)
      ensures this.id == id && kvMap == loaded && files == dir && clockOffset == 0
    {
      this.id := id;
      kvMap, files, clockOffset := loaded, dir, 0;
    }

    method WriteKVPair(key: uint64, value: Stats)
      modifies this`files
      ensures files == old(files)[FileName(key) := FileContents(value)]
    {
      var fname := FileName(key);
      if fname !in files {
        files := files[fname := ""];
      }
      var v0 := FormatInt(value.numKills);
      var v1 := FormatInt(value.numDeaths);
      files := files[fname := v0 + "\n" + v1 + "\n"];
    }

    method KVClientGet(key: uint64) returns (value: Stats)
      ensures value == Lookup(kvMap, key)
    {
      value := if key in kvMap then kvMap[key] else NO_STATS;
    }

    method KVClientPut(key: uint64, value: Stats)
      modifies this`kvMap, this`files
      ensures kvMap == old(kvMap)[key := value]
      ensures files == old(files)[FileName(key) := FileContents(value)]
    {
      kvMap := kvMap[key := value];
      WriteKVPair(key, value);
    }

    method TimeRequest(now: int) returns (t: int)
      ensures t == now + clockOffset
    {
      t := now + clockOffset;
    }

    method SetOffset(offset: int)
      modifies this`clockOffset
      ensures clockOffset == offset
    {
      clockOffset := offset;
    }
  }
}

/** The stats files are a faithful second copy of the map, up to the range of the parser. */
module StatsRecovery {
  import opened Base
  import opened Decimal
  import opened Clients

  /** The directory holds exactly one file per key, with that key's value. */
  ghost predicate Mirrors(dir: Directory, m: KVMap) {
    && (forall k {:trigger m[k]} :: k in m ==> FileName(k) in dir && dir[FileName(k)] == FileContents(m[k]))
    && (forall name {:trigger dir[name]} :: name in dir ==> exists k :: k in m && name == FileName(k))
  }

  lemma FileNameFacts(key: uint64)
    ensures IsStatsFile(FileName(key))
    ensures Split(FileName(key), '.')[0] == FormatUint(key)
    ensures KeyOfFile(FileName(key)) == Min(key, INT64_MAX)
  {
    assert FileName(key) == FormatUint(key) + ['.'] + "kv";
    assert '.' !in FormatUint(key);
    SplitFirst(FormatUint(key), '.', "kv");
    AtoiFormatUint(key);
  }

  /** A file name that is a negative number stands for the key that a conversion to uint64 makes of it. */
  lemma NegativeFileName(k: uint64, name: string)
    requires 0 < k <= INT64_MAX + 1 && name == "-" + FormatUint(k) + ".kv"
    ensures IsStatsFile(name) && KeyOfFile(name) == 0x1_0000_0000_0000_0000 - k
  {
    var text: string := "-" + FormatUint(k);
    assert name == text + ['.'] + "kv";
    assert '.' !in text;
    SplitFirst(text, '.', "kv");
    var n: int := k;
    AtoiFormatInt(-n);
    assert name[|name| - 3..] == ".kv";
  }

  lemma FileNameInjective(a: uint64, b: uint64)
    requires FileName(a) == FileName(b)
    ensures a == b
  {
    assert FormatUint(a) == FileName(a)[..|FileName(a)| - 3];
    assert FormatUint(b) == FileName(b)[..|FileName(b)| - 3];
    FormatUintInjective(a, b);
  }

  /** A stored value is read back exactly, whatever the signs of the counters. The file has two lines, the kills first
      and then the deaths. */
  lemma FileContentsRoundTrip(value: Stats)
    ensures Readable(FileContents(value)) && StatsOfFile(FileContents(value)) == value
    ensures Split(FileContents(value), '\n') == [FormatInt(value.numKills), FormatInt(value.numDeaths), ""]
  {
    var k, d := FormatInt(value.numKills), FormatInt(value.numDeaths);
    assert '\n' !in k && '\n' !in d;
    assert FileContents(value) == k + ['\n'] + (d + ['\n'] + "");
    SplitFirst(k, '\n', d + ['\n'] + "");
    SplitFirst(d, '\n', "");
    assert Split("", '\n') == [""];
    AtoiFormatInt(value.numKills);
    AtoiFormatInt(value.numDeaths);
  }

  /** One KVClientPut keeps the directory a mirror of the map. */
  lemma PutKeepsMirror(dir: Directory, m: KVMap, key: uint64, value: Stats)
    requires Mirrors(dir, m)
    ensures Mirrors(dir[FileName(key) := FileContents(value)], m[key := value])
  {
    var dir', m' := dir[FileName(key) := FileContents(value)], m[key := value];
    forall k | k in m' ensures FileName(k) in dir' && dir'[FileName(k)] == FileContents(m'[k]) {
      if FileName(k) == FileName(key) {
        FileNameInjective(k, key);
      }
    }
    forall name | name in dir' ensures exists k :: k in m' && name == FileName(k) {
      if name == FileName(key) {
        assert key in m';
      } else {
        var k :| k in m && name == FileName(k);
        assert k in m';
      }
    }
  }

  /** The map and the directory after a sequence of KVClientPut calls on a client that starts with neither. */
  function MapAfter(puts: seq<(uint64, Stats)>): KVMap {
    if puts == [] then map[] else MapAfter(puts[..|puts| - 1])[puts[|puts| - 1].0 := puts[|puts| - 1].1]
  }

  function DirectoryAfter(puts: seq<(uint64, Stats)>): Directory {
    if puts == [] then map[]
    else DirectoryAfter(puts[..|puts| - 1])[FileName(puts[|puts| - 1].0) := FileContents(puts[|puts| - 1].1)]
  }

  lemma {:induction false} PutsMirror(puts: seq<(uint64, Stats)>)
    ensures Mirrors(DirectoryAfter(puts), MapAfter(puts))
  {
    if puts != [] {
      var last := |puts| - 1;
      PutsMirror(puts[..last]);
      PutKeepsMirror(DirectoryAfter(puts[..last]), MapAfter(puts[..last]), puts[last].0, puts[last].1);
    }
  }

  /** The entry read from a mirror's file is that of a stored key, under the nearest key in range. */
  lemma FileOrigin(dir: Directory, m: KVMap, name: string, k: uint64, v: Stats) returns (j: uint64)
    requires Mirrors(dir, m) && FileYields(dir, name, k, v)
    ensures j in m && Min(j, INT64_MAX) == k && m[j] == v
  {
    j :| j in m && name == FileName(j);
    FileNameFacts(j);
    FileContentsRoundTrip(m[j]);
  }

  /** Every loaded entry is the value of a stored key, which is the entry's key unless that key is out of range. */
  lemma LoadedEntryOrigin(dir: Directory, m: KVMap, loaded: KVMap, k: uint64) returns (j: uint64)
    requires Mirrors(dir, m) && LoadedFrom(dir, loaded) && k in loaded
    ensures j in m && Min(j, INT64_MAX) == k && m[j] == loaded[k]
  {
    var name :| YieldsLast(dir, name, k, loaded[k]);
    j := FileOrigin(dir, m, name, k, loaded[k]);
  }

  /** Conversely every stored key is loaded, under the nearest key in range. */
  lemma StoredKeyIsLoaded(dir: Directory, m: KVMap, loaded: KVMap, j: uint64)
    requires Mirrors(dir, m) && LoadedFrom(dir, loaded) && j in m
    ensures Min(j, INT64_MAX) in loaded
  {
    FileNameFacts(j);
    assert dir[FileName(j)] == FileContents(m[j]);
  }

  /** The loaded value of the largest key in range is the stored value of that key or of one beyond it. */
  ghost predicate LimitHolds(m: KVMap, v: Stats) {
    exists j :: j in m && j >= INT64_MAX && m[j] == v
  }

  /** Every stored entry came back under the nearest key in range, and nothing else did. */
  ghost predicate RoundedCopy(m: KVMap, loaded: KVMap) {
    && (forall j :: j in m ==> if j <= INT64_MAX then j in loaded else INT64_MAX in loaded)
    && (forall k :: k in loaded ==> k <= INT64_MAX && (k < INT64_MAX ==> k in m && m[k] == loaded[k]))
    && (INT64_MAX in loaded ==> LimitHolds(m, loaded[INT64_MAX]))
  }

  lemma LoadedEntryIsStored(dir: Directory, m: KVMap, loaded: KVMap, k: uint64)
    requires Mirrors(dir, m) && LoadedFrom(dir, loaded) && k in loaded
    ensures k <= INT64_MAX && if k < INT64_MAX then k in m && m[k] == loaded[k] else LimitHolds(m, loaded[k])
  {
    var j := LoadedEntryOrigin(dir, m, loaded, k);
    assert j >= INT64_MAX ==> LimitHolds(m, m[j]);
  }

  lemma LoadIsRoundedCopy(dir: Directory, m: KVMap, loaded: KVMap)
    requires Mirrors(dir, m) && LoadedFrom(dir, loaded)
    ensures RoundedCopy(m, loaded)
  {
    forall j | j in m ensures if j <= INT64_MAX then j in loaded else INT64_MAX in loaded {
      StoredKeyIsLoaded(dir, m, loaded, j);
    }
    forall k | k in loaded ensures k <= INT64_MAX && (k < INT64_MAX ==> k in m && m[k] == loaded[k]) {
      LoadedEntryIsStored(dir, m, loaded, k);
    }
    if INT64_MAX in loaded {
      LoadedEntryIsStored(dir, m, loaded, INT64_MAX);
    }
  }

  ghost predicate KeysInRange(m: KVMap) { forall k :: k in m ==> k <= INT64_MAX }

  lemma RoundedCopyIsExactIff(m: KVMap, loaded: KVMap)
    requires RoundedCopy(m, loaded)
    ensures loaded == m <==> KeysInRange(m)
  {
    if KeysInRange(m) {
      assert loaded.Keys == m.Keys;
    }
  }

  ghost predicate WrittenInRange(puts: seq<(uint64, Stats)>) {
    forall i :: 0 <= i < |puts| ==> puts[i].0 <= INT64_MAX
  }

  /** The round trip over every sequence of writes: what KVStoreSetup rebuilds is what the client had in memory,
      if and only if no key written is at or above 2^63. */
  lemma RestartRecoversTheMap(puts: seq<(uint64, Stats)>, loaded: KVMap)
    requires LoadedFrom(DirectoryAfter(puts), loaded)
    ensures loaded == MapAfter(puts) <==> WrittenInRange(puts)
  {
    PutsMirror(puts);
    LoadIsRoundedCopy(DirectoryAfter(puts), MapAfter(puts), loaded);
    RoundedCopyIsExactIff(MapAfter(puts), loaded);
    KeysInRangeIff(puts);
  }

  lemma KeysInRangeIff(puts: seq<(uint64, Stats)>)
    ensures KeysInRange(MapAfter(puts)) <==> WrittenInRange(puts)
  {
    KeysWritten(puts);
  }

  lemma {:induction false} KeysWritten(puts: seq<(uint64, Stats)>)
    ensures forall i :: 0 <= i < |puts| ==> puts[i].0 in MapAfter(puts)
    ensures forall k :: k in MapAfter(puts) ==> exists i :: 0 <= i < |puts| && puts[i].0 == k
  {
    if puts != [] {
      var last := |puts| - 1;
      KeysWritten(puts[..last]);
      forall i | 0 <= i < |puts| ensures puts[i].0 in MapAfter(puts) {
        if i < last {
          assert puts[i] == puts[..last][i];
        }
      }
      forall k | k in MapAfter(puts) ensures exists i :: 0 <= i < |puts| && puts[i].0 == k {
        if k == puts[last].0 {
        } else {
          assert k in MapAfter(puts[..last]);
          var i :| 0 <= i < last && puts[..last][i].0 == k;
          assert puts[i].0 == k;
        }
      }
    }
  }

  /** All keys from 2^63 on are lost at a restart: they come back as the single key 2^63 - 1, holding the value of one
      of them (or of 2^63 - 1 itself). */
  lemma LargeKeysCollapse(puts: seq<(uint64, Stats)>, loaded: KVMap, key: uint64)
    requires LoadedFrom(DirectoryAfter(puts), loaded)
    requires key in MapAfter(puts) && key > INT64_MAX
    ensures key !in loaded && INT64_MAX in loaded
    ensures LimitHolds(MapAfter(puts), loaded[INT64_MAX])
  {
    PutsMirror(puts);
    LoadIsRoundedCopy(DirectoryAfter(puts), MapAfter(puts), loaded);
  }

  /** No sequence of writes leaves a file that start-up would panic on. */
  lemma StartUpNeverPanics(puts: seq<(uint64, Stats)>)
    ensures forall name :: name in DirectoryAfter(puts) ==> IsStatsFile(name) && Readable(DirectoryAfter(puts)[name])
  {
    PutsMirror(puts);
    forall name | name in DirectoryAfter(puts)
      ensures IsStatsFile(name) && Readable(DirectoryAfter(puts)[name])
    {
      var k :| k in MapAfter(puts) && name == FileName(k);
      FileNameFacts(k);
      FileContentsRoundTrip(MapAfter(puts)[k]);
    }
  }

  /** A file as WriteKVPair leaves it. */
  ghost predicate IsStatsEntry(dir: Directory, name: string)
    requires name in dir
  {
    exists k: uint64, v: Stats :: name == FileName(k) && dir[name] == FileContents(v)
  }

  /** All that is in the directory was written by WriteKVPair at some time. */
  ghost predicate OnlyStats(dir: Directory) {
    forall name {:trigger dir[name]} :: name in dir ==> IsStatsEntry(dir, name)
  }

  lemma WriteKeepsOnlyStats(dir: Directory, key: uint64, value: Stats)
    requires OnlyStats(dir)
    ensures OnlyStats(dir[FileName(key) := FileContents(value)])
  {
    var dir' := dir[FileName(key) := FileContents(value)];
    forall name {:trigger dir'[name]} | name in dir' ensures IsStatsEntry(dir', name) {
      if name != FileName(key) {
        var k: uint64, v: Stats :| name == FileName(k) && dir[name] == FileContents(v);
      }
    }
  }

  lemma EntryOf(dir: Directory, name: string, key: uint64, v: Stats) returns (k: uint64)
    requires OnlyStats(dir) && FileYields(dir, name, key, v)
    ensures Min(k, INT64_MAX) == key && name == FileName(k) && dir[name] == FileContents(v)
  {
    assert IsStatsEntry(dir, name);
    var w: Stats;
    k, w :| name == FileName(k) && dir[name] == FileContents(w);
    FileNameFacts(k);
    FileContentsRoundTrip(w);
  }

  /** What is loaded for a key comes from the file of a key that is parsed as it, the last such file, and is what was
      written there. */
  lemma LoadedKeyOrigin(dir: Directory, loaded: KVMap, key: uint64) returns (k: uint64)
    requires OnlyStats(dir) && LoadedFrom(dir, loaded) && key in loaded
    ensures Min(k, INT64_MAX) == key && FileName(k) in dir && dir[FileName(k)] == FileContents(loaded[key])
    ensures IsLastOfKey(dir.Keys, FileName(k))
  {
    var name :| YieldsLast(dir, name, key, loaded[key]);
    k := EntryOf(dir, name, key, loaded[key]);
  }

  lemma FileIsLoaded(dir: Directory, loaded: KVMap, key: uint64)
    requires LoadedFrom(dir, loaded) && FileName(key) in dir
    ensures Min(key, INT64_MAX) in loaded
  {
    FileNameFacts(key);
  }

  lemma SmallKeyOrigin(dir: Directory, loaded: KVMap, key: uint64)
    requires OnlyStats(dir) && LoadedFrom(dir, loaded) && key < INT64_MAX && key in loaded
    ensures FileName(key) in dir && dir[FileName(key)] == FileContents(loaded[key])
  {
    var k := LoadedKeyOrigin(dir, loaded, key);
    assert k == key;
  }

  /** A restart brings back the entry of every key below the limit as it was last written. */
  lemma SmallKeySurvives(dir: Directory, loaded: KVMap, key: uint64, name: string, value: Stats)
    requires OnlyStats(dir) && LoadedFrom(dir, loaded) && key < INT64_MAX && name == FileName(key)
    requires name in dir && dir[name] == FileContents(value)
    ensures key in loaded && loaded[key] == value
  {
    FileIsLoaded(dir, loaded, key);
    SmallKeyOrigin(dir, loaded, key);
    FileContentsInjective(dir[name], value, loaded[key]);
  }

  lemma FileContentsInjective(contents: string, a: Stats, b: Stats)
    requires contents == FileContents(a) && contents == FileContents(b)
    ensures a == b
  {
    FileContentsRoundTrip(a);
    FileContentsRoundTrip(b);
  }

  /** And it loses every key beyond the limit. */
  lemma LargeKeyIsLost(dir: Directory, loaded: KVMap, key: uint64)
    requires OnlyStats(dir) && LoadedFrom(dir, loaded) && key > INT64_MAX
    ensures key !in loaded
  {
    if key in loaded {
      var k := LoadedKeyOrigin(dir, loaded, key);
    }
  }

  /** The keys beyond the limit that have as many digits as it: their files come after that of the limit, and those of
      the longer keys come before it. */
  predicate Overrides(k: uint64) { INT64_MAX < k < TEN_TO_19 }

  /** The limit key is followed in the directory by the file of a key that is parsed as it. */
  ghost predicate HasOverride(dir: Directory) { exists k: uint64 :: Overrides(k) && FileName(k) in dir }

  /** The last such file. */
  ghost predicate IsTop(dir: Directory, top: uint64) {
    Overrides(top) && FileName(top) in dir && forall k: uint64 :: Overrides(k) && FileName(k) in dir ==> k <= top
  }

  lemma FileOrder(a: uint64, b: uint64)
    requires INT64_MAX <= b < TEN_TO_19 && (INT64_MAX <= a < b || a >= TEN_TO_19)
    ensures Before(FileName(a), FileName(b))
  {
    LargeFormat(a);
    LargeFormat(b);
    if a < b {
      FormatOrder(a, b);
      BeforeExtended(FormatUint(a), FormatUint(b), ".kv", ".kv");
    }
  }

  lemma NotLast(dir: Directory, k: uint64, later: uint64)
    requires INT64_MAX <= later < TEN_TO_19 && (INT64_MAX <= k < later || k >= TEN_TO_19) && FileName(later) in dir
    ensures !IsLastOfKey(dir.Keys, FileName(k))
  {
    FileNameFacts(k);
    FileNameFacts(later);
    FileOrder(k, later);
    BeforeAsymmetric(FileName(k), FileName(later));
  }

  /** The limit key survives a restart if no such file follows its own. */
  lemma LimitKeySurvives(dir: Directory, loaded: KVMap, limit: uint64, name: string, value: Stats)
    requires OnlyStats(dir) && LoadedFrom(dir, loaded) && limit == INT64_MAX && !HasOverride(dir)
    requires name == FileName(limit) && name in dir && dir[name] == FileContents(value)
    ensures limit in loaded && loaded[limit] == value
  {
    FileIsLoaded(dir, loaded, limit);
    var k := LoadedKeyOrigin(dir, loaded, limit);
    if k >= TEN_TO_19 {
      NotLast(dir, k, limit);
    }
    assert k == limit;
    FileContentsInjective(dir[name], value, loaded[limit]);
  }

  lemma LastNotBehind(dir: Directory, last: uint64, k: uint64)
    requires last >= INT64_MAX && IsLastOfKey(dir.Keys, FileName(last)) && Overrides(k) && FileName(k) in dir
    ensures k <= last < TEN_TO_19
  {
    if last < k || last >= TEN_TO_19 {
      NotLast(dir, last, k);
    }
  }

  lemma LastIsTop(dir: Directory, last: uint64)
    requires last >= INT64_MAX && FileName(last) in dir && IsLastOfKey(dir.Keys, FileName(last)) && HasOverride(dir)
    ensures IsTop(dir, last)
  {
    var j: uint64 :| Overrides(j) && FileName(j) in dir;
    LastNotBehind(dir, last, j);
    forall k: uint64 | Overrides(k) && FileName(k) in dir ensures k <= last {
      LastNotBehind(dir, last, k);
    }
  }

  /** If one does, the limit key comes back with the pair of the last of them. */
  lemma LimitKeyOverridden(dir: Directory, loaded: KVMap, limit: uint64) returns (top: uint64)
    requires OnlyStats(dir) && LoadedFrom(dir, loaded) && limit == INT64_MAX && HasOverride(dir)
    ensures limit in loaded && IsTop(dir, top) && dir[FileName(top)] == FileContents(loaded[limit])
  {
    var j: uint64 :| Overrides(j) && FileName(j) in dir;
    FileIsLoaded(dir, loaded, j);
    top := LoadedKeyOrigin(dir, loaded, limit);
    LastIsTop(dir, top);
  }
}
