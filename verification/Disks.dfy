/** What a client has been written, what of it is on its disk, and what a restarted process gets back. */
module Disks {
  import opened Base
  import opened Decimal
  import opened Clients
  import opened StatsRecovery
  import opened World

  predicate Delivers(e: Event, h: uint64, key: uint64) { e.Put? && e.key == key && h in e.targets }

  predicate Writes(e: Event, key: uint64) { e.Put? && e.key == key }

  predicate Attaches(e: Event, h: uint64) { e.Attach? && e.id == h }

  /** The value of the last Put of the key that was written to client h. */
  function LastDelivered(es: seq<Event>, h: uint64, key: uint64): Option<Stats> {
    if es == [] then None
    else if Delivers(es[|es| - 1], h, key) then Some(es[|es| - 1].value)
    else LastDelivered(es[..|es| - 1], h, key)
  }

  /** The same, but only since the process of client h was started. */
  function SinceAttach(es: seq<Event>, h: uint64, key: uint64): Option<Stats> {
    if es == [] then None
    else if Delivers(es[|es| - 1], h, key) then Some(es[|es| - 1].value)
    else if Attaches(es[|es| - 1], h) then None
    else SinceAttach(es[..|es| - 1], h, key)
  }

  /** The stats directory of client h: what was there before the run, and the files that each Put leaves. */
  function DiskAfter(disks: map<uint64, Directory>, es: seq<Event>, h: uint64): Directory {
    if es == [] then if h in disks then disks[h] else map[]
    else
      var e, before := es[|es| - 1], DiskAfter(disks, es[..|es| - 1], h);
      if e.Put? && h in e.targets then before[FileName(e.key) := FileContents(e.value)] else before
  }

  /** Directories outlive processes: each process that dials in has loaded the directory of its client. */
  ghost predicate Persistent(disks: map<uint64, Directory>, es: seq<Event>) {
    && (forall h {:trigger disks[h]} :: h in disks ==> OnlyStats(disks[h]))
    && forall i :: 0 <= i < |es| ==> LoadsDisk(disks, es, i)
  }

  ghost predicate LoadsDisk(disks: map<uint64, Directory>, es: seq<Event>, i: nat)
    requires i < |es|
  {
    es[i].Attach? ==> LoadedFrom(DiskAfter(disks, es[..i], es[i].id), es[i].store)
  }

  lemma {:induction false} DisksOnlyStats(disks: map<uint64, Directory>, es: seq<Event>, h: uint64)
    requires forall x {:trigger disks[x]} :: x in disks ==> OnlyStats(disks[x])
    ensures OnlyStats(DiskAfter(disks, es, h))
  {
    if es != [] {
      var e, before := es[|es| - 1], es[..|es| - 1];
      DisksOnlyStats(disks, before, h);
      if e.Put? && h in e.targets {
        WriteKeepsOnlyStats(DiskAfter(disks, before, h), e.key, e.value);
      }
    }
  }

  predicate OnDisk(dir: Directory, name: string, value: Stats) { name in dir && dir[name] == FileContents(value) }

  lemma WriteElsewhere(dir: Directory, key: uint64, value: Stats, other: uint64, v: Stats)
    requires OnDisk(dir, FileName(key), value) && other != key
    ensures OnDisk(dir[FileName(other) := FileContents(v)], FileName(key), value)
  {
    if FileName(other) == FileName(key) {
      FileNameInjective(other, key);
    }
  }

  /** What was written to a client last is on its disk. */
  lemma {:induction false} DeliveredIsOnDisk(disks: map<uint64, Directory>, es: seq<Event>, h: uint64, key: uint64)
    requires LastDelivered(es, h, key).Some?
    ensures OnDisk(DiskAfter(disks, es, h), FileName(key), LastDelivered(es, h, key).value)
  {
    var e, before := es[|es| - 1], es[..|es| - 1];
    if !Delivers(e, h, key) {
      DeliveredIsOnDisk(disks, before, h, key);
      if e.Put? && h in e.targets {
        WriteElsewhere(DiskAfter(disks, before, h), key, LastDelivered(es, h, key).value, e.key, e.value);
      }
    }
  }

  /** A restarted client has the entry of a key below the limit that was written to it last. */
  lemma SmallKeyReloaded(disks: map<uint64, Directory>, es: seq<Event>, i: nat, key: uint64)
    requires Persistent(disks, es) && i < |es| && es[i].Attach? && key < INT64_MAX
    requires LastDelivered(es[..i], es[i].id, key).Some?
    ensures key in es[i].store && es[i].store[key] == LastDelivered(es[..i], es[i].id, key).value
  {
    var h := es[i].id;
    assert LoadsDisk(disks, es, i);
    DisksOnlyStats(disks, es[..i], h);
    DeliveredIsOnDisk(disks, es[..i], h, key);
    SmallKeySurvives(DiskAfter(disks, es[..i], h), es[i].store, key, FileName(key),
        LastDelivered(es[..i], h, key).value);
  }

  /** A restarted client has no entry of a key beyond the limit. */
  lemma LargeKeyNotReloaded(disks: map<uint64, Directory>, es: seq<Event>, i: nat, key: uint64)
    requires Persistent(disks, es) && i < |es| && es[i].Attach? && key > INT64_MAX
    ensures key !in es[i].store
  {
    assert LoadsDisk(disks, es, i);
    DisksOnlyStats(disks, es[..i], es[i].id);
    LargeKeyIsLost(DiskAfter(disks, es[..i], es[i].id), es[i].store, key);
  }

  function EntryIn(store: KVMap, key: uint64): Option<Stats> { if key in store then Some(store[key]) else None }

  /** The value was written to client h under a key whose file follows that of the limit key, in the run or before
      it. */
  ghost predicate WrittenBeyond(disks: map<uint64, Directory>, es: seq<Event>, h: uint64, value: Stats) {
    || (exists j :: 0 <= j < |es| && WritesBeyond(es[j], h, value))
    || (h in disks && exists k: uint64 :: Overrides(k) && OnDisk(disks[h], FileName(k), value))
  }

  predicate WritesBeyond(e: Event, h: uint64, value: Stats) {
    e.Put? && Overrides(e.key) && h in e.targets && e.value == value
  }

  lemma WrittenBeyondStays(disks: map<uint64, Directory>, es: seq<Event>, h: uint64, value: Stats)
    requires es != [] && WrittenBeyond(disks, es[..|es| - 1], h, value)
    ensures WrittenBeyond(disks, es, h, value)
  {
    var before := es[..|es| - 1];
    if exists j :: 0 <= j < |before| && WritesBeyond(before[j], h, value) {
      var j :| 0 <= j < |before| && WritesBeyond(before[j], h, value);
      assert WritesBeyond(es[j], h, value);
    }
  }

  lemma {:induction false} BeyondFilesWritten(disks: map<uint64, Directory>, es: seq<Event>, h: uint64, k: uint64,
                                              value: Stats)
    requires Overrides(k) && OnDisk(DiskAfter(disks, es, h), FileName(k), value)
    ensures WrittenBeyond(disks, es, h, value)
  {
    if es != [] {
      var e, before := es[|es| - 1], es[..|es| - 1];
      if Delivers(e, h, k) {
        FileContentsInjective(FileContents(value), value, e.value);
        assert WritesBeyond(e, h, value);
      } else {
        if e.Put? && h in e.targets && FileName(e.key) == FileName(k) {
          FileNameInjective(e.key, k);
        }
        BeyondFilesWritten(disks, before, h, k, value);
        WrittenBeyondStays(disks, es, h, value);
      }
    }
  }

  /** The pair of another key that client h has under the limit key since its last restart, if it has one. */
  ghost function OverrideValue(disks: map<uint64, Directory>, es: seq<Event>, h: uint64): Option<Stats> {
    if es == [] then None
    else
      var e, before := es[|es| - 1], es[..|es| - 1];
      if Delivers(e, h, INT64_MAX) then None
      else if Attaches(e, h) then
        if HasOverride(DiskAfter(disks, before, h)) then EntryIn(e.store, INT64_MAX) else None
      else OverrideValue(disks, before, h)
  }

  /** What a restarted client has under the limit key: what was last written to it, unless its disk has an override, and
      then the pair of the last of them. */
  lemma LimitKeyReloaded(disks: map<uint64, Directory>, es: seq<Event>, i: nat)
    requires Persistent(disks, es) && i < |es| && es[i].Attach?
    ensures var dir, entry := DiskAfter(disks, es[..i], es[i].id), EntryIn(es[i].store, INT64_MAX);
      if HasOverride(dir) then entry.Some? && exists top :: IsTop(dir, top) && OnDisk(dir, FileName(top), entry.value)
      else LastDelivered(es[..i], es[i].id, INT64_MAX).Some? ==> entry == LastDelivered(es[..i], es[i].id, INT64_MAX)
  {
    var h := es[i].id;
    var dir := DiskAfter(disks, es[..i], h);
    assert LoadsDisk(disks, es, i);
    DisksOnlyStats(disks, es[..i], h);
    if HasOverride(dir) {
      var top := LimitKeyOverridden(dir, es[i].store, INT64_MAX);
    } else if LastDelivered(es[..i], h, INT64_MAX).Some? {
      DeliveredIsOnDisk(disks, es[..i], h, INT64_MAX);
      LimitKeySurvives(dir, es[i].store, INT64_MAX, FileName(INT64_MAX), LastDelivered(es[..i], h, INT64_MAX).value);
    }
  }

  lemma PersistentPrefix(disks: map<uint64, Directory>, es: seq<Event>, n: nat)
    requires Persistent(disks, es) && n <= |es|
    ensures Persistent(disks, es[..n])
  {
    forall i | 0 <= i < n ensures LoadsDisk(disks, es[..n], i) {
      assert LoadsDisk(disks, es, i) && es[..n][..i] == es[..i];
    }
  }

  /** Such a pair was written to the client under a key whose file follows. */
  lemma {:induction false} OverrideWasWritten(disks: map<uint64, Directory>, es: seq<Event>, h: uint64)
    requires Persistent(disks, es) && OverrideValue(disks, es, h).Some?
    ensures WrittenBeyond(disks, es, h, OverrideValue(disks, es, h).value)
  {
    var last := |es| - 1;
    var e, before, value := es[last], es[..last], OverrideValue(disks, es, h).value;
    if Attaches(e, h) {
      var dir := DiskAfter(disks, before, h);
      LimitKeyReloaded(disks, es, last);
      var top :| IsTop(dir, top) && OnDisk(dir, FileName(top), value);
      BeyondFilesWritten(disks, before, h, top, value);
    } else {
      PersistentPrefix(disks, es, last);
      OverrideWasWritten(disks, before, h);
    }
    WrittenBeyondStays(disks, es, h, value);
  }
}
