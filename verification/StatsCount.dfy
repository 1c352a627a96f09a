/** Kill and death counting on top of the store: a client increments by a KVGet of its own key followed by a KVPut. */
module StatsCount {
  import opened Base
  import opened Decimal
  import opened Clients
  import opened World
  import opened Disks
  import opened ReadLatest

  /** Go's int increment, which wraps around. */
  function Inc(n: int64): int64 { if n == INT64_MAX then -INT64_MAX - 1 else n + 1 }

  function Bump(s: Stats, kill: bool): Stats {
    if kill then s.(numKills := Inc(s.numKills)) else s.(numDeaths := Inc(s.numDeaths))
  }

  /** One increment of a run: the positions of its Get and of its Put, and which counter it bumps. */
  datatype Increment = Increment(read: nat, write: nat, kill: bool)

  ghost predicate IsIncrement(ws: seq<State>, es: seq<Event>, player: uint64, inc: Increment)
    requires |ws| == |es| + 1
  {
    && inc.read < inc.write < |es|
    && es[inc.read].Get? && es[inc.read].client == es[inc.read].key == player
    && Writes(es[inc.write], player)
    && es[inc.write].value == Bump(ValueRead(ws[inc.read], player, player), inc.kill)
  }

  predicate Precedes(a: Increment, b: Increment) { a.write < b.read }

  /** Each increment is complete before the next one starts. */
  ghost predicate Ordered(incs: seq<Increment>) {
    && (forall n :: 0 <= n < |incs| ==> incs[n].read < incs[n].write)
    && (forall m, n :: 0 <= m < n < |incs| ==> Precedes(incs[m], incs[n]))
  }

  ghost predicate IsWriteOf(incs: seq<Increment>, k: nat) { exists n :: 0 <= n < |incs| && incs[n].write == k }

  /** All writes of the player's key are increments, one after the other. */
  ghost predicate Serial(ws: seq<State>, es: seq<Event>, player: uint64, incs: seq<Increment>)
    requires |ws| == |es| + 1
  {
    && |incs| <= INT64_MAX
    && Ordered(incs)
    && (forall n :: 0 <= n < |incs| ==> IsIncrement(ws, es, player, incs[n]))
    && (forall k :: 0 <= k < |es| && Writes(es[k], player) ==> IsWriteOf(incs, k))
  }

  /** Serial increments of a player in a run of the server in which directories outlive processes. */
  ghost predicate SerialRun(disks: map<uint64, Directory>, ws: seq<State>, es: seq<Event>, player: uint64,
                            incs: seq<Increment>) {
    Run(ws, es) && Persistent(disks, es) && Serial(ws, es, player, incs)
  }

  /** What increment n reads, and what it writes. */
  function ReadBy(ws: seq<State>, player: uint64, inc: Increment): Stats
    requires inc.read < |ws|
  {
    ValueRead(ws[inc.read], player, player)
  }

  ghost predicate WritesBumped(ws: seq<State>, es: seq<Event>, player: uint64, inc: Increment) {
    inc.read < |ws| && inc.write < |es| && es[inc.write].Put?
    && es[inc.write].value == Bump(ReadBy(ws, player, inc), inc.kill)
  }

  lemma SerialBumps(disks: map<uint64, Directory>, ws: seq<State>, es: seq<Event>, player: uint64,
                    incs: seq<Increment>, n: nat)
    requires SerialRun(disks, ws, es, player, incs) && n < |incs|
    ensures WritesBumped(ws, es, player, incs[n])
  {
    assert IsIncrement(ws, es, player, incs[n]);
  }

  /** The read of increment n asks a client that has the pair of the increment before; for the limit id it may also be
      that of another player, if it is the same. */
  ghost predicate ReadsFresh(disks: map<uint64, Directory>, ws: seq<State>, es: seq<Event>, player: uint64,
                             incs: seq<Increment>, n: nat)
    requires 0 < n < |incs| && incs[n].read < |ws| && incs[n - 1].write < |ws| && incs[n].read <= |es|
  {
    var p, g := incs[n - 1].write, incs[n].read;
    var chosen := Chosen(ws[g], player);
    && chosen.Some?
    && (HasLastPut(disks, ws, es, p, g, chosen.value, player) || SamePair(disks, es, p, g, chosen.value, player))
  }

  /** Another player's pair is in the place of this one's, and equals what was written last. */
  ghost predicate SamePair(disks: map<uint64, Directory>, es: seq<Event>, p: nat, g: nat, h: uint64, player: uint64)
    requires g <= |es|
  {
    && p < |es| && es[p].Put?
    && Overridden(disks, es[..g], h, player) && OverrideValue(disks, es[..g], h) == Some(es[p].value)
  }

  function Kills(incs: seq<Increment>): (k: nat)
    ensures k <= |incs|
  {
    if incs == [] then 0 else Kills(incs[..|incs| - 1]) + if incs[|incs| - 1].kill then 1 else 0
  }

  /** The pair that counts the increments exactly. */
  ghost predicate Counts(s: Stats, incs: seq<Increment>) {
    s.numKills == Kills(incs) && s.numDeaths == |incs| - Kills(incs)
  }

  lemma BumpCounts(s: Stats, incs: seq<Increment>, n: nat)
    requires n < |incs| <= INT64_MAX && Counts(s, incs[..n])
    ensures Counts(Bump(s, incs[n].kill), incs[..n + 1])
  {
    assert incs[..n + 1][..n] == incs[..n];
  }

  lemma WriteBetween(incs: seq<Increment>, n: nat, k: nat)
    requires Ordered(incs) && 0 < n < |incs| && IsWriteOf(incs, k)
    ensures k <= incs[n - 1].write || incs[n].read < k
  {
    var m :| 0 <= m < |incs| && incs[m].write == k;
    if m < n - 1 {
      assert Precedes(incs[m], incs[n - 1]);
    } else if m > n {
      assert Precedes(incs[n], incs[m]);
    }
  }

  lemma PreviousWriteIsLast(disks: map<uint64, Directory>, ws: seq<State>, es: seq<Event>, player: uint64,
                            incs: seq<Increment>, n: nat)
    requires SerialRun(disks, ws, es, player, incs) && 0 < n < |incs|
    ensures incs[n].read < |es| && IsLastPut(es, incs[n - 1].write, incs[n].read, player)
  {
    var p, g := incs[n - 1].write, incs[n].read;
    assert IsIncrement(ws, es, player, incs[n - 1]) && IsIncrement(ws, es, player, incs[n]);
    forall k: nat | p < k < g ensures !Writes(es[k], player) {
      if Writes(es[k], player) {
        WriteBetween(incs, n, k);
      }
    }
  }

  lemma WriteAfterFirst(incs: seq<Increment>, k: nat)
    requires Ordered(incs) && |incs| > 0 && IsWriteOf(incs, k)
    ensures incs[0].read < k
  {
    var m :| 0 <= m < |incs| && incs[m].write == k;
    assert m > 0 ==> Precedes(incs[0], incs[m]);
  }

  lemma UnwrittenReadsZero(ws: seq<State>, es: seq<Event>, g: nat, player: uint64)
    requires Run(ws, es) && g < |ws|
    requires forall k :: 0 <= k < g ==> !Writes(es[k], player)
    ensures ValueRead(ws[g], player, player) == NO_STATS
  {
    ChosenFacts(ws[g], player);
    if Chosen(ws[g], player).Some? {
      var h := Chosen(ws[g], player).value;
      ListedIffDelivered(ws, es, g, h, player);
      DeliveredWasPut(es[..g], h, player);
      assert false;
    }
  }

  /** The first read finds no holder, and so zeros. */
  lemma FirstReadIsZero(disks: map<uint64, Directory>, ws: seq<State>, es: seq<Event>, player: uint64,
                        incs: seq<Increment>)
    requires SerialRun(disks, ws, es, player, incs) && |incs| > 0
    ensures incs[0].read < |ws| && ReadBy(ws, player, incs[0]) == NO_STATS
  {
    assert IsIncrement(ws, es, player, incs[0]);
    forall k: nat | k < incs[0].read ensures !Writes(es[k], player) {
      if Writes(es[k], player) {
        WriteAfterFirst(incs, k);
      }
    }
    UnwrittenReadsZero(ws, es, incs[0].read, player);
  }

  lemma FreshGetReadsLastPut(disks: map<uint64, Directory>, ws: seq<State>, es: seq<Event>, p: nat, g: nat,
                             player: uint64)
    requires Run(ws, es) && Persistent(disks, es) && IsLastPut(es, p, g, player) && Chosen(ws[g], player).Some?
    requires var h := Chosen(ws[g], player).value;
      HasLastPut(disks, ws, es, p, g, h, player) || SamePair(disks, es, p, g, h, player)
    ensures ValueRead(ws[g], player, player) == es[p].value
  {
    ReadLatestIff(disks, ws, es, p, g, player, player);
  }

  lemma FreshReadIsPrevious(disks: map<uint64, Directory>, ws: seq<State>, es: seq<Event>, player: uint64,
                            incs: seq<Increment>, n: nat)
    requires SerialRun(disks, ws, es, player, incs) && 0 < n < |incs|
    ensures incs[n].read < |ws| && incs[n - 1].write < |es| && es[incs[n - 1].write].Put?
    ensures ReadsFresh(disks, ws, es, player, incs, n) ==> ReadBy(ws, player, incs[n]) == es[incs[n - 1].write].value
  {
    PreviousWriteIsLast(disks, ws, es, player, incs, n);
    if ReadsFresh(disks, ws, es, player, incs, n) {
      FreshGetReadsLastPut(disks, ws, es, incs[n - 1].write, incs[n].read, player);
    }
  }

  lemma EarlierWrite(incs: seq<Increment>, k: nat, n: nat) returns (m: nat)
    requires Ordered(incs) && n < |incs| && IsWriteOf(incs, k) && k < incs[n].write
    ensures m < n && incs[m].write == k
  {
    m :| m < |incs| && incs[m].write == k;
  }

  /** A read that does not ask a client with the last pair finds zeros, an earlier pair, or a different pair of another
      player. */
  lemma StaleGetReadsEarlierPut(disks: map<uint64, Directory>, ws: seq<State>, es: seq<Event>, p: nat, g: nat,
                                player: uint64)
    returns (k: Option<nat>)
    requires Run(ws, es) && Persistent(disks, es) && IsLastPut(es, p, g, player)
    requires Chosen(ws[g], player).Some? ==>
      var h := Chosen(ws[g], player).value;
      !HasLastPut(disks, ws, es, p, g, h, player) && !SamePair(disks, es, p, g, h, player)
    ensures k.None? ==>
      ValueRead(ws[g], player, player) == NO_STATS || ValueRead(ws[g], player, player) != es[p].value
    ensures k.Some? ==>
      k.value < p && Writes(es[k.value], player) && es[k.value].value == ValueRead(ws[g], player, player)
  {
    k := None;
    if Chosen(ws[g], player).Some? {
      var h := Chosen(ws[g], player).value;
      ReadLatestIff(disks, ws, es, p, g, player, player);
      if !LostAtRestart(es[..g], h, player) && !Overridden(disks, es[..g], h, player) {
        var j: nat :| j < p && Delivers(es[j], h, player) && es[j].value == ValueRead(ws[g], player, player);
        k := Some(j);
      }
    }
  }

  lemma StaleGetReadsEarlierWrite(disks: map<uint64, Directory>, ws: seq<State>, es: seq<Event>, p: nat, g: nat,
                                  player: uint64, incs: seq<Increment>) returns (k: Option<nat>)
    requires Run(ws, es) && Persistent(disks, es) && IsLastPut(es, p, g, player) && Serial(ws, es, player, incs)
    requires Chosen(ws[g], player).Some? ==>
      var h := Chosen(ws[g], player).value;
      !HasLastPut(disks, ws, es, p, g, h, player) && !SamePair(disks, es, p, g, h, player)
    ensures k.None? ==>
      ValueRead(ws[g], player, player) == NO_STATS || ValueRead(ws[g], player, player) != es[p].value
    ensures k.Some? ==> k.value < p && IsWriteOf(incs, k.value) && es[k.value].Put?
                        && es[k.value].value == ValueRead(ws[g], player, player)
  {
    k := StaleGetReadsEarlierPut(disks, ws, es, p, g, player);
    if k.Some? {
      assert IsWriteOf(incs, k.value);
    }
  }

  /** A read that is not fresh finds zeros, the pair of some increment before the previous one, or a pair different from
      that of the previous one. */
  lemma StaleReadIsEarlier(disks: map<uint64, Directory>, ws: seq<State>, es: seq<Event>, player: uint64,
                           incs: seq<Increment>, n: nat)
    returns (m: Option<nat>)
    requires SerialRun(disks, ws, es, player, incs) && 0 < n < |incs|
    requires incs[n].read < |es| && incs[n - 1].write < |es| && es[incs[n - 1].write].Put?
    requires !ReadsFresh(disks, ws, es, player, incs, n)
    ensures m.None? ==>
      ReadBy(ws, player, incs[n]) == NO_STATS || ReadBy(ws, player, incs[n]) != es[incs[n - 1].write].value
    ensures m.Some? ==> m.value < n - 1 && incs[m.value].write < |es| && es[incs[m.value].write].Put?
                        && ReadBy(ws, player, incs[n]) == es[incs[m.value].write].value
  {
    PreviousWriteIsLast(disks, ws, es, player, incs, n);
    var k := StaleGetReadsEarlierWrite(disks, ws, es, incs[n - 1].write, incs[n].read, player, incs);
    m := None;
    if k.Some? {
      var earlier := EarlierWrite(incs, k.value, n - 1);
      m := Some(earlier);
    }
  }

  /** The write of increment n stores the exact numbers of kills and deaths so far. */
  ghost predicate ExactAt(es: seq<Event>, incs: seq<Increment>, n: nat) {
    n < |incs| && incs[n].write < |es| && es[incs[n].write].Put? && Counts(es[incs[n].write].value, incs[..n + 1])
  }

  /** Increments 1 to n read fresh values. */
  ghost predicate FreshUpTo(disks: map<uint64, Directory>, ws: seq<State>, es: seq<Event>, player: uint64,
                            incs: seq<Increment>, n: nat) {
    forall m :: 0 < m <= n && m < |incs| ==> FreshAt(disks, ws, es, player, incs, m)
  }

  ghost predicate FreshAt(disks: map<uint64, Directory>, ws: seq<State>, es: seq<Event>, player: uint64,
                          incs: seq<Increment>, m: nat)
    requires 0 < m < |incs|
  {
    incs[m].read < |ws| && incs[m].read <= |es| && incs[m - 1].write < |ws| &&
        ReadsFresh(disks, ws, es, player, incs, m)
  }

  /** Increment n reads a pair that counts the first of the increments, and writes it bumped. */
  lemma BumpedIsExact(ws: seq<State>, es: seq<Event>, player: uint64, incs: seq<Increment>, n: nat)
    requires n < |incs| <= INT64_MAX && WritesBumped(ws, es, player, incs[n])
    requires Counts(ReadBy(ws, player, incs[n]), incs[..n])
    ensures ExactAt(es, incs, n)
  {
    BumpCounts(ReadBy(ws, player, incs[n]), incs, n);
  }

  lemma FirstIsExact(disks: map<uint64, Directory>, ws: seq<State>, es: seq<Event>, player: uint64,
                     incs: seq<Increment>)
    requires SerialRun(disks, ws, es, player, incs) && |incs| > 0
    ensures ExactAt(es, incs, 0)
  {
    SerialBumps(disks, ws, es, player, incs, 0);
    FirstReadIsZero(disks, ws, es, player, incs);
    assert incs[..0] == [];
    BumpedIsExact(ws, es, player, incs, 0);
  }

  lemma FreshIsExact(disks: map<uint64, Directory>, ws: seq<State>, es: seq<Event>, player: uint64,
                     incs: seq<Increment>, n: nat)
    requires SerialRun(disks, ws, es, player, incs) && 0 < n < |incs|
    requires ExactAt(es, incs, n - 1) && FreshAt(disks, ws, es, player, incs, n)
    ensures ExactAt(es, incs, n)
  {
    SerialBumps(disks, ws, es, player, incs, n);
    FreshReadIsPrevious(disks, ws, es, player, incs, n);
    BumpedIsExact(ws, es, player, incs, n);
  }

  /** As long as every read is fresh, each write stores the exact numbers of kills and deaths so far. */
  lemma {:induction false} WritesCountExactly(disks: map<uint64, Directory>, ws: seq<State>, es: seq<Event>,
                                              player: uint64, incs: seq<Increment>, n: nat)
    requires SerialRun(disks, ws, es, player, incs) && n < |incs| && FreshUpTo(disks, ws, es, player, incs, n)
    ensures ExactAt(es, incs, n)
  {
    if n == 0 {
      FirstIsExact(disks, ws, es, player, incs);
    } else {
      WritesCountExactly(disks, ws, es, player, incs, n - 1);
      assert FreshAt(disks, ws, es, player, incs, n);
      FreshIsExact(disks, ws, es, player, incs, n);
    }
  }

  lemma CountsDiffer(a: Stats, b: Stats, incs: seq<Increment>, i: nat, j: nat)
    requires i < j <= |incs| && Counts(a, incs[..i]) && Counts(b, incs[..j])
    ensures a != b
  {
    assert a.numKills + a.numDeaths == i && b.numKills + b.numDeaths == j;
  }

  /** The first read that is not fresh finds another pair than the one written before. */
  lemma StaleReadDiffers(disks: map<uint64, Directory>, ws: seq<State>, es: seq<Event>, player: uint64,
                         incs: seq<Increment>, n: nat)
    requires SerialRun(disks, ws, es, player, incs) && 0 < n < |incs| && !FreshAt(disks, ws, es, player, incs, n)
    requires forall m :: 0 <= m < n ==> ExactAt(es, incs, m)
    ensures incs[n].read < |ws| && ReadBy(ws, player, incs[n]) != es[incs[n - 1].write].value
  {
    PreviousWriteIsLast(disks, ws, es, player, incs, n);
    assert ExactAt(es, incs, n - 1);
    var m := StaleReadIsEarlier(disks, ws, es, player, incs, n);
    StalePairDiffers(es, incs, n, ReadBy(ws, player, incs[n]), m);
  }

  lemma StalePairDiffers(es: seq<Event>, incs: seq<Increment>, n: nat, read: Stats, m: Option<nat>)
    requires 0 < n < |incs| && forall m :: 0 <= m < n ==> ExactAt(es, incs, m)
    requires incs[n - 1].write < |es| && es[incs[n - 1].write].Put?
    requires m.None? ==> read == NO_STATS || read != es[incs[n - 1].write].value
    requires m.Some? ==> m.value < n - 1 && incs[m.value].write < |es| && es[incs[m.value].write].Put?
                         && read == es[incs[m.value].write].value
    ensures read != es[incs[n - 1].write].value
  {
    var last := es[incs[n - 1].write].value;
    assert ExactAt(es, incs, n - 1);
    if m.Some? {
      assert ExactAt(es, incs, m.value);
      CountsDiffer(read, last, incs, m.value + 1, n);
    } else if read == NO_STATS {
      CountsDiffer(read, last, incs, 0, n);
    }
  }

  /** Exact writes one after the other come from reading the one before. */
  lemma ExactReadsPrevious(ws: seq<State>, es: seq<Event>, player: uint64, incs: seq<Increment>, n: nat)
    requires 0 < n < |incs| <= INT64_MAX && WritesBumped(ws, es, player, incs[n])
    requires ExactAt(es, incs, n - 1) && ExactAt(es, incs, n)
    ensures ReadBy(ws, player, incs[n]) == es[incs[n - 1].write].value
  {
    assert incs[..n + 1][..n] == incs[..n];
  }

  /** The first read that is not fresh loses increments: its write no longer counts exactly. */
  lemma StaleReadLosesIncrements(disks: map<uint64, Directory>, ws: seq<State>, es: seq<Event>, player: uint64,
                                 incs: seq<Increment>, n: nat)
    requires SerialRun(disks, ws, es, player, incs) && 0 < n < |incs|
    requires FreshUpTo(disks, ws, es, player, incs, n - 1) && !FreshAt(disks, ws, es, player, incs, n)
    ensures !ExactAt(es, incs, n)
  {
    SerialBumps(disks, ws, es, player, incs, n);
    forall m | 0 <= m < n ensures ExactAt(es, incs, m) {
      WritesCountExactly(disks, ws, es, player, incs, m);
    }
    StaleReadDiffers(disks, ws, es, player, incs, n);
    if ExactAt(es, incs, n) {
      ExactReadsPrevious(ws, es, player, incs, n);
    }
  }

  lemma {:induction false} FirstStale(disks: map<uint64, Directory>, ws: seq<State>, es: seq<Event>, player: uint64,
                                      incs: seq<Increment>,
                                      last: nat) returns (n: nat)
    requires last < |incs| && !FreshUpTo(disks, ws, es, player, incs, last)
    ensures 0 < n <= last && FreshUpTo(disks, ws, es, player, incs, n - 1) && !FreshAt(disks, ws, es, player, incs, n)
  {
    n := last;
    if last > 0 && !FreshUpTo(disks, ws, es, player, incs, last - 1) {
      n := FirstStale(disks, ws, es, player, incs, last - 1);
    }
  }

  /** For every id: the statistics are exact at every write if and only if every read, after the first, asks a client
      that was CONNECTED at the write before and has kept what it got then: for an id beyond the limit it has not been
      restarted since, and for the limit id no different pair has taken its place. */
  lemma StatsExactIff(disks: map<uint64, Directory>, ws: seq<State>, es: seq<Event>, player: uint64,
                      incs: seq<Increment>)
    requires SerialRun(disks, ws, es, player, incs)
    ensures FreshUpTo(disks, ws, es, player, incs, |incs|) <==> forall n :: 0 <= n < |incs| ==> ExactAt(es, incs, n)
  {
    if FreshUpTo(disks, ws, es, player, incs, |incs|) {
      forall n | 0 <= n < |incs| ensures ExactAt(es, incs, n) {
        WritesCountExactly(disks, ws, es, player, incs, n);
      }
    } else {
      var n := FirstStale(disks, ws, es, player, incs, |incs| - 1);
      StaleReadLosesIncrements(disks, ws, es, player, incs, n);
    }
  }
}
