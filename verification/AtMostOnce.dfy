/** Each update leaves the worker at most once, although the worker forgets nonces: when it does, and exactly when
    not. */
module AtMostOnce {
  import opened Base
  import opened Updates
  import opened Recording

  lemma {:induction false} AfterIndexed(local: uint64, ds: seq<Delivery>, n: nat)
    requires n <= |ds|
    ensures var s := After(local, INITIAL, ds, n); Indexed(s.history, s.historyMap)
  {
    if n > 0 {
      AfterIndexed(local, ds, n - 1);
      HandledIndexed(local, After(local, INITIAL, ds, n - 1), ds[n - 1]);
    }
  }

  lemma HandledIndexed(local: uint64, s: State, d: Delivery)
    requires Indexed(s.history, s.historyMap)
    ensures var s' := Handled(local, s, d); Indexed(s'.history, s'.historyMap)
  {
    var p := PrunedAt(s, d);
    if Records(s, d) {
      EnqueueKeepsIndexed(p.history, p.historyMap, d.update);
    }
  }

  /** Looking a nonce up in the map agrees with scanning the queue, and finds at most one update. */
  lemma LookupIsScan(local: uint64, ds: seq<Delivery>, n: nat, nonce: uint64)
    requires n <= |ds|
    ensures var s := After(local, INITIAL, ds, n);
      && (nonce in s.historyMap <==> exists i :: 0 <= i < |s.history| && s.history[i].nonce == nonce)
      && forall i, j :: 0 <= i < |s.history| && 0 <= j < |s.history| && s.history[i].nonce == s.history[j].nonce ==>
          i == j
  {
    AfterIndexed(local, ds, n);
    var s := After(local, INITIAL, ds, n);
    if nonce in s.historyMap {
      var i := QueuePosition(s.history, nonce);
    }
  }

  /** Delivery i is the one that its nonce is written down for. */
  predicate RecordedAt(local: uint64, ds: seq<Delivery>, i: nat)
    requires i < |ds|
  {
    Records(After(local, INITIAL, ds, i), ds[i])
  }

  predicate AcceptedAt(local: uint64, ds: seq<Delivery>, i: nat)
    requires i < |ds|
  {
    Accepts(local, After(local, INITIAL, ds, i), ds[i])
  }

  /** The clock does not go back: neither within an iteration nor between two. */
  ghost predicate NondecreasingClock(ds: seq<Delivery>) {
    forall i :: 0 <= i < |ds| ==> ClockAdvances(ds, i)
  }

  predicate ClockAdvances(ds: seq<Delivery>, i: nat)
    requires i < |ds|
  {
    && ds[i].staleNow <= ds[i].pruneNow
    && (i + 1 < |ds| ==> ds[i].pruneNow <= ds[i + 1].staleNow)
  }

  /** The update's time does not fall between the fences of the staleness check and of the pruning that follows it. */
  predicate OutsideGap(d: Delivery) { !(Fence(d.staleNow) <= d.update.time < Fence(d.pruneNow)) }

  /** No delivery falls into the gap; in particular when each iteration sees a single clock reading. */
  ghost predicate NoneInGap(ds: seq<Delivery>) { forall i :: 0 <= i < |ds| ==> OutsideGap(ds[i]) }

  /** Updates that share a nonce share their time. */
  ghost predicate NoncesDetermineTimes(ds: seq<Delivery>) {
    forall i, j :: 0 <= i < |ds| && 0 <= j < |ds| ==> SameNonceSameTime(ds[i].update, ds[j].update)
  }

  predicate SameNonceSameTime(u: Update, v: Update) { u.nonce == v.nonce ==> u.time == v.time }

  /** A nonce is remembered as long as the update it came with is not older than the fence. */
  predicate Remembered(s: State, nonce: uint64, time: int, fence: int) { nonce in s.historyMap || time < fence }

  /** Where the pruning fence is after n deliveries, at most. */
  function LastFence(ds: seq<Delivery>, n: nat): int
    requires 0 < n <= |ds|
  {
    Fence(ds[n - 1].pruneNow)
  }

  lemma FenceAdvances(ds: seq<Delivery>, n: nat)
    requires NondecreasingClock(ds) && 1 < n <= |ds|
    ensures LastFence(ds, n - 1) <= Fence(ds[n - 1].staleNow) <= LastFence(ds, n)
  {
    assert ClockAdvances(ds, n - 2) && ClockAdvances(ds, n - 1);
  }

  /** Queued updates with a given nonce have a given time. */
  predicate QueueHasTime(s: State, nonce: uint64, time: int) {
    forall i :: 0 <= i < |s.history| && s.history[i].nonce == nonce ==> s.history[i].time == time
  }

  lemma QueuePosition(history: seq<Update>, nonce: uint64) returns (i: nat)
    requires nonce in Nonces(history)
    ensures i < |history| && history[i].nonce == nonce
  {
    var u :| u in history && u.nonce == nonce;
    i :| i < |history| && history[i] == u;
  }

  lemma HandledRemembers(local: uint64, s: State, d: Delivery, nonce: uint64, time: int, fence: int)
    requires Indexed(s.history, s.historyMap) && QueueHasTime(s, nonce, time)
    requires Remembered(s, nonce, time, fence) && fence <= Fence(d.pruneNow)
    ensures Remembered(Handled(local, s, d), nonce, time, Fence(d.pruneNow))
  {
    if nonce in s.historyMap {
      var i := QueuePosition(s.history, nonce);
      var n := OlderPrefix(s.history, Fence(d.pruneNow));
      if i >= n {
        assert s.history[n..][i - n] == s.history[i];
      }
    }
  }

  lemma HandledKeepsTimes(local: uint64, s: State, d: Delivery, nonce: uint64, time: int)
    requires QueueHasTime(s, nonce, time) && (d.update.nonce == nonce ==> d.update.time == time)
    ensures QueueHasTime(Handled(local, s, d), nonce, time)
  {
  }

  lemma {:induction false} QueueTimes(local: uint64, ds: seq<Delivery>, n: nat, i: nat)
    requires NoncesDetermineTimes(ds) && n <= |ds| && i < |ds|
    ensures QueueHasTime(After(local, INITIAL, ds, n), ds[i].update.nonce, ds[i].update.time)
  {
    if n > 0 {
      QueueTimes(local, ds, n - 1, i);
      assert SameNonceSameTime(ds[n - 1].update, ds[i].update);
      HandledKeepsTimes(local, After(local, INITIAL, ds, n - 1), ds[n - 1], ds[i].update.nonce, ds[i].update.time);
    }
  }

  lemma StepRemembers(local: uint64, ds: seq<Delivery>, i: nat, n: nat)
    requires NondecreasingClock(ds) && NoncesDetermineTimes(ds) && i < n < |ds|
    requires Remembered(After(local, INITIAL, ds, n), ds[i].update.nonce, ds[i].update.time, LastFence(ds, n))
    ensures Remembered(After(local, INITIAL, ds, n + 1), ds[i].update.nonce, ds[i].update.time, LastFence(ds, n + 1))
  {
    FenceAdvances(ds, n + 1);
    AfterIndexed(local, ds, n);
    QueueTimes(local, ds, n, i);
    HandledRemembers(local, After(local, INITIAL, ds, n), ds[n], ds[i].update.nonce, ds[i].update.time,
        LastFence(ds, n));
  }

  lemma RecordingRemembers(local: uint64, s: State, d: Delivery)
    requires Records(s, d)
    ensures d.update.nonce in Handled(local, s, d).historyMap
  {
  }

  /** Every nonce ever written down is still in the map, or its update is older than the fence. */
  lemma {:induction false} RecordedIsRemembered(local: uint64, ds: seq<Delivery>, i: nat, n: nat)
    requires NondecreasingClock(ds) && NoncesDetermineTimes(ds) && i < n <= |ds| && RecordedAt(local, ds, i)
    ensures Remembered(After(local, INITIAL, ds, n), ds[i].update.nonce, ds[i].update.time, LastFence(ds, n))
  {
    if i < n - 1 {
      RecordedIsRemembered(local, ds, i, n - 1);
      StepRemembers(local, ds, i, n - 1);
    } else {
      RecordingRemembers(local, After(local, INITIAL, ds, i), ds[i]);
    }
  }

  lemma ForgottenIsStaleOrInGap(s: State, d: Delivery, nonce: uint64, fence: int)
    requires Indexed(s.history, s.historyMap) && QueueHasTime(s, nonce, d.update.time) && d.update.nonce == nonce
    requires Remembered(s, nonce, d.update.time, fence) && fence <= Fence(d.staleNow) && OutsideGap(d)
    ensures !Records(s, d)
  {
    if !Stale(d) {
      var i := QueuePosition(s.history, nonce);
      var n := OlderPrefix(s.history, Fence(d.pruneNow));
      assert s.history[n..][i - n] == s.history[i];
    }
  }

  /** No nonce is written down twice. */
  lemma RecordedAtMostOnce(local: uint64, ds: seq<Delivery>, i: nat, j: nat)
    requires NondecreasingClock(ds) && NoneInGap(ds) && NoncesDetermineTimes(ds) && i < j < |ds|
    requires RecordedAt(local, ds, i) && RecordedAt(local, ds, j)
    ensures ds[i].update.nonce != ds[j].update.nonce
  {
    if ds[i].update.nonce == ds[j].update.nonce {
      var s, nonce := After(local, INITIAL, ds, j), ds[j].update.nonce;
      RecordedIsRemembered(local, ds, i, j);
      assert SameNonceSameTime(ds[i].update, ds[j].update);
      AfterIndexed(local, ds, j);
      QueueTimes(local, ds, j, j);
      FenceAdvances(ds, j + 1);
      ForgottenIsStaleOrInGap(s, ds[j], nonce, LastFence(ds, j));
    }
  }

  /** Both channels carry the same updates, each of which some accepted delivery brought. */
  lemma {:induction false} SentWasAccepted(local: uint64, ds: seq<Delivery>, n: nat, u: Update)
    requires n <= |ds|
    ensures After(local, INITIAL, ds, n).shown == After(local, INITIAL, ds, n).sent
    ensures u in After(local, INITIAL, ds, n).sent ==>
      exists i :: 0 <= i < n && AcceptedAt(local, ds, i) && ds[i].update == u
  {
    if n > 0 {
      SentWasAccepted(local, ds, n - 1, u);
      var s := After(local, INITIAL, ds, n - 1);
      if u in After(local, INITIAL, ds, n).sent && u !in s.sent {
        assert AcceptedAt(local, ds, n - 1);
      }
    }
  }

  lemma SentNonceWasRecorded(local: uint64, ds: seq<Delivery>, n: nat, u: Update) returns (i: nat)
    requires n <= |ds| && u in After(local, INITIAL, ds, n).sent
    ensures i < n && RecordedAt(local, ds, i) && ds[i].update == u
  {
    SentWasAccepted(local, ds, n, u);
    i :| i < n && AcceptedAt(local, ds, i) && ds[i].update == u;
  }

  /** At most once: nothing is shown or sent on twice, for any number of deliveries of any updates, under a clock that
      does not go back. */
  lemma {:induction false} SentAtMostOnce(local: uint64, ds: seq<Delivery>, n: nat)
    requires NondecreasingClock(ds) && NoneInGap(ds) && NoncesDetermineTimes(ds) && n <= |ds|
    ensures var s := After(local, INITIAL, ds, n); DistinctNonces(s.sent) && s.shown == s.sent
  {
    var s := After(local, INITIAL, ds, n);
    if n > 0 {
      SentAtMostOnce(local, ds, n - 1);
      var p := After(local, INITIAL, ds, n - 1);
      if s.sent != p.sent {
        assert RecordedAt(local, ds, n - 1) && s.sent == p.sent + [ds[n - 1].update];
        forall k | 0 <= k < |p.sent| ensures p.sent[k].nonce != ds[n - 1].update.nonce {
          var i := SentNonceWasRecorded(local, ds, n - 1, p.sent[k]);
          RecordedAtMostOnce(local, ds, i, n - 1);
        }
      }
    }
  }

  lemma DroppedIsForgotten(history: seq<Update>, n: nat, i: nat)
    requires DistinctNonces(history) && i < n <= |history|
    ensures history[i].nonce !in Nonces(history[n..])
  {
    forall u | u in history[n..] ensures u.nonce != history[i].nonce {
      var k :| 0 <= k < |history| - n && history[n..][k] == u;
      assert history[n + k] == u;
    }
  }

  /** Exactly when a copy of a queued update is written down again: it is not stale, and pruning removes it together
      with all that is queued before it. */
  lemma RecordedAgainIff(s: State, d: Delivery, i: nat)
    requires Indexed(s.history, s.historyMap) && i < |s.history| && s.history[i].nonce == d.update.nonce
    ensures Records(s, d) <==> !Stale(d) && forall k :: 0 <= k <= i ==> s.history[k].time < Fence(d.pruneNow)
  {
    var n := OlderPrefix(s.history, Fence(d.pruneNow));
    var kept := s.history[n..];
    if i >= n {
      assert kept[i - n] == s.history[i];
      assert s.history[n].time >= Fence(d.pruneNow);
    } else {
      DroppedIsForgotten(s.history, n, i);
    }
  }

  /** Pruning at the delivery removes a queued copy of its nonce, together with all that stands before it. */
  ghost predicate PrunesCopy(s: State, d: Delivery) {
    exists q :: 0 <= q < |s.history| && PrunesUpTo(s, d, q)
  }

  ghost predicate PrunesUpTo(s: State, d: Delivery, q: nat)
    requires q < |s.history|
  {
    s.history[q].nonce == d.update.nonce && forall k :: 0 <= k <= q ==> s.history[k].time < Fence(d.pruneNow)
  }

  lemma QueuedAgainIff(s: State, d: Delivery)
    requires Indexed(s.history, s.historyMap) && d.update.nonce in s.historyMap
    ensures Records(s, d) <==> !Stale(d) && PrunesCopy(s, d)
  {
    var q := QueuePosition(s.history, d.update.nonce);
    RecordedAgainIff(s, d, q);
    if Records(s, d) {
      assert PrunesUpTo(s, d, q);
    } else if PrunesCopy(s, d) {
      var r :| 0 <= r < |s.history| && PrunesUpTo(s, d, r);
      RecordedAgainIff(s, d, r);
    }
  }

  /** Over every run with a clock that does not go back: a copy of an update that was written down is written down again
      if and only if it is not stale and pruning at its own delivery removes the queued copy. */
  lemma RecordedTwiceIff(local: uint64, ds: seq<Delivery>, i: nat, j: nat)
    requires NondecreasingClock(ds) && NoncesDetermineTimes(ds) && i < j < |ds|
    requires RecordedAt(local, ds, i) && ds[i].update.nonce == ds[j].update.nonce
    ensures RecordedAt(local, ds, j) <==> !Stale(ds[j]) && PrunesCopy(After(local, INITIAL, ds, j), ds[j])
  {
    var s, d := After(local, INITIAL, ds, j), ds[j];
    AfterIndexed(local, ds, j);
    RecordedIsRemembered(local, ds, i, j);
    assert SameNonceSameTime(ds[i].update, ds[j].update);
    FenceAdvances(ds, j + 1);
    if d.update.nonce in s.historyMap {
      QueuedAgainIff(s, d);
    } else {
      assert Stale(d);
    }
  }

  /** The accepted updates of the first n deliveries, in their order. */
  function AcceptedUpdates(local: uint64, ds: seq<Delivery>, n: nat): seq<Update>
    requires n <= |ds|
  {
    if n == 0 then []
    else AcceptedUpdates(local, ds, n - 1) + if AcceptedAt(local, ds, n - 1) then [ds[n - 1].update] else []
  }

  /** Both channels carry exactly the accepted updates, in their order. */
  lemma {:induction false} ChannelsCarryAccepted(local: uint64, ds: seq<Delivery>, n: nat)
    requires n <= |ds|
    ensures After(local, INITIAL, ds, n).shown == After(local, INITIAL, ds, n).sent == AcceptedUpdates(local, ds, n)
  {
    if n > 0 {
      ChannelsCarryAccepted(local, ds, n - 1);
    }
  }

  /** Some delivery before n has the nonce. */
  predicate SeenBefore(ds: seq<Delivery>, n: nat, nonce: uint64)
    requires n <= |ds|
  {
    exists i :: 0 <= i < n && ds[i].update.nonce == nonce
  }

  lemma HandledNonces(local: uint64, s: State, d: Delivery, nonce: uint64)
    requires Indexed(s.history, s.historyMap) && nonce in Handled(local, s, d).historyMap
    ensures nonce in s.historyMap || nonce == d.update.nonce
  {
    var p := PrunedAt(s, d);
    if nonce in p.historyMap {
      var i := QueuePosition(p.history, nonce);
      assert p.history[i] in s.history;
    }
  }

  lemma {:induction false} RememberedWasSeen(local: uint64, ds: seq<Delivery>, n: nat, nonce: uint64)
    requires n <= |ds| && nonce in After(local, INITIAL, ds, n).historyMap
    ensures SeenBefore(ds, n, nonce)
  {
    AfterIndexed(local, ds, n - 1);
    HandledNonces(local, After(local, INITIAL, ds, n - 1), ds[n - 1], nonce);
    if nonce in After(local, INITIAL, ds, n - 1).historyMap {
      RememberedWasSeen(local, ds, n - 1, nonce);
    }
  }

  /** A delivery of a new nonce is written down unless it is too old. */
  lemma NewIsRecorded(local: uint64, ds: seq<Delivery>, n: nat)
    requires n < |ds| && !SeenBefore(ds, n, ds[n].update.nonce)
    ensures RecordedAt(local, ds, n) <==> ds[n].update.time >= ds[n].staleNow - 1_000_000_000
  {
    var s, d := After(local, INITIAL, ds, n), ds[n];
    AfterIndexed(local, ds, n);
    if d.update.nonce in PrunedAt(s, d).historyMap {
      var i := QueuePosition(PrunedAt(s, d).history, d.update.nonce);
      assert PrunedAt(s, d).history[i] in s.history;
      RememberedWasSeen(local, ds, n, d.update.nonce);
    }
  }

  lemma {:induction false} FirstSeen(ds: seq<Delivery>, n: nat, nonce: uint64) returns (i: nat)
    requires n <= |ds| && SeenBefore(ds, n, nonce)
    ensures i < n && ds[i].update.nonce == nonce && !SeenBefore(ds, i, nonce)
  {
    i := n - 1;
    if SeenBefore(ds, n - 1, nonce) {
      i := FirstSeen(ds, n - 1, nonce);
    }
  }

  lemma {:induction false} ClockLater(ds: seq<Delivery>, i: nat, j: nat)
    requires NondecreasingClock(ds) && i <= j < |ds|
    ensures ds[i].staleNow <= ds[j].staleNow
  {
    if i < j {
      ClockLater(ds, i, j - 1);
      assert ClockAdvances(ds, j - 1);
    }
  }

  /** What the worker takes up, in terms of the deliveries alone: exactly the first delivery of each nonce, if its
      update is not more than a second old. */
  lemma RecordedIff(local: uint64, ds: seq<Delivery>, n: nat)
    requires NondecreasingClock(ds) && NoneInGap(ds) && NoncesDetermineTimes(ds) && n < |ds|
    ensures RecordedAt(local, ds, n) <==>
      ds[n].update.time >= ds[n].staleNow - 1_000_000_000 && !SeenBefore(ds, n, ds[n].update.nonce)
  {
    if SeenBefore(ds, n, ds[n].update.nonce) {
      var i := FirstSeen(ds, n, ds[n].update.nonce);
      NewIsRecorded(local, ds, i);
      assert SameNonceSameTime(ds[i].update, ds[n].update);
      ClockLater(ds, i, n);
      if RecordedAt(local, ds, n) {
        RecordedAtMostOnce(local, ds, i, n);
      }
    } else {
      NewIsRecorded(local, ds, n);
    }
  }

  lemma PruneOne(u: Update, fence: int)
    ensures PrunedHistory([u], fence) == if u.time < fence then [] else [u]
  {
  }

  lemma PositionIsSent(local: uint64, s: State, d: Delivery)
    requires Records(s, d) && d.update.kind.POSITION? && InWindow(d.update.pos)
    requires d.update.playerID in s.records ==>
               s.records[d.update.playerID].pos == d.update.pos && s.records[d.update.playerID].time == d.update.time
    ensures var s', u := Handled(local, s, d), d.update;
      && s'.sent == s.sent + [u]
      && u.playerID in s'.records && s'.records[u.playerID] == Snapshot(u.time, u.pos, u.angle)
  {
    assert Reach(0) == 0.0 && Distance2(d.update.pos, d.update.pos) == 0.0;
    assert Plausible(local, s.records, d.update);
  }

  /** The same position, delivered twice: the second time while the clock passes the update's time plus the window. */
  function TwiceInGap(u: Update): seq<Delivery> {
    [Delivery(u, u.time, u.time), Delivery(u, u.time - TIME_DELTA, u.time - TIME_DELTA + 1)]
  }

  lemma FirstIsSent(local: uint64, u: Update, ds: seq<Delivery>)
    requires u.kind.POSITION? && InWindow(u.pos) && |ds| > 0 && ds[0] == Delivery(u, u.time, u.time)
    ensures var s := After(local, INITIAL, ds, 1);
      && s.history == [u] && s.historyMap == {u.nonce} && s.sent == [u]
      && u.playerID in s.records && s.records[u.playerID] == Snapshot(u.time, u.pos, u.angle)
  {
    assert After(local, INITIAL, ds, 0) == INITIAL;
    assert PrunedAt(INITIAL, ds[0]).history == [];
    PositionIsSent(local, INITIAL, ds[0]);
  }

  /** With two clock readings per iteration at-most-once does fail, on a clock that never goes back: every position in
      the window can be sent twice. */
  lemma TwoReadingsSendTwice(local: uint64, u: Update)
    requires u.kind.POSITION? && InWindow(u.pos)
    ensures var ds := TwiceInGap(u);
      NondecreasingClock(ds) && NoncesDetermineTimes(ds) && After(local, INITIAL, ds, 2).sent == [u, u]
  {
    var ds := TwiceInGap(u);
    FirstIsSent(local, u, ds);
    var s := After(local, INITIAL, ds, 1);
    PruneOne(u, Fence(ds[1].pruneNow));
    assert PrunedAt(s, ds[1]).historyMap == {};
    PositionIsSent(local, s, ds[1]);
  }

  /** A position, another player's death more than the window later, and the position again after a clock correction
      has set the clock back. */
  function TwiceAroundCorrection(u: Update, death: Update): seq<Delivery> {
    [Delivery(u, u.time, u.time), Delivery(death, death.time, death.time), Delivery(u, u.time, u.time)]
  }

  lemma DeathIsSent(local: uint64, s: State, d: Delivery)
    requires d.update.kind.DEAD? && !Stale(d) && PrunedHistory(s.history, Fence(d.pruneNow)) == []
    ensures var s', u := Handled(local, s, d), d.update;
      s'.history == [u] && s'.historyMap == {u.nonce} && s'.sent == s.sent + [u] &&
          s'.records == s.records - {u.playerID}
  {
    assert PrunedAt(s, d).historyMap == {};
  }

  lemma CorrectionPrunes(local: uint64, u: Update, death: Update)
    requires u.kind.POSITION? && InWindow(u.pos)
    requires death.kind.DEAD? && death.playerID != u.playerID && death.time > u.time - TIME_DELTA
    ensures var s := After(local, INITIAL, TwiceAroundCorrection(u, death), 2);
      && s.history == [death] && s.historyMap == {death.nonce} && s.sent == [u, death]
      && u.playerID in s.records && s.records[u.playerID] == Snapshot(u.time, u.pos, u.angle)
  {
    var ds := TwiceAroundCorrection(u, death);
    FirstIsSent(local, u, ds);
    PruneOne(u, Fence(death.time));
    DeathIsSent(local, After(local, INITIAL, ds, 1), ds[1]);
  }

  lemma CorrectionForgets(s: State, u: Update, death: Update)
    requires s.history == [death] && death.nonce != u.nonce && death.time > u.time
    ensures Records(s, Delivery(u, u.time, u.time))
  {
    PruneOne(death, Fence(u.time));
  }

  lemma CorrectionDeliveries(u: Update, death: Update)
    requires death.nonce != u.nonce
    ensures NoneInGap(TwiceAroundCorrection(u, death)) && NoncesDetermineTimes(TwiceAroundCorrection(u, death))
  {
  }

  /** With a clock that goes back it fails even when every iteration reads the clock once. */
  lemma ClockSetBackSendsTwice(local: uint64, u: Update, death: Update)
    requires u.kind.POSITION? && InWindow(u.pos)
    requires death.kind.DEAD? && death.playerID != u.playerID && death.nonce != u.nonce &&
        death.time > u.time - TIME_DELTA
    ensures var ds := TwiceAroundCorrection(u, death);
      NoneInGap(ds) && NoncesDetermineTimes(ds) && After(local, INITIAL, ds, |ds|).sent == [u, death, u]
  {
    var ds := TwiceAroundCorrection(u, death);
    CorrectionDeliveries(u, death);
    CorrectionPrunes(local, u, death);
    var s := After(local, INITIAL, ds, |ds| - 1);
    CorrectionForgets(s, u, death);
    PositionIsSent(local, s, ds[|ds| - 1]);
  }
}
