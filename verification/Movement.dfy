/** How remote players can move, over whole runs of the worker: the check of each step bounds the whole path. */
module Movement {
  import opened Base
  import opened Updates
  import opened Recording
  import opened AtMostOnce

  predicate PositionAt(local: uint64, ds: seq<Delivery>, i: nat, player: uint64)
    requires i < |ds|
  {
    AcceptedAt(local, ds, i) && ds[i].update.kind.POSITION? && ds[i].update.playerID == player
  }

  predicate DeathAt(local: uint64, ds: seq<Delivery>, i: nat, player: uint64)
    requires i < |ds|
  {
    AcceptedAt(local, ds, i) && ds[i].update.kind.DEAD? && ds[i].update.playerID == player
  }

  /** From u to v the player moves forward in time, and no faster than allowed. */
  predicate Follows(time: int, pos: Vec, time': int, pos': Vec) {
    time <= time' && Within(pos, pos', Reach(time' - time))
  }

  lemma FollowsIsReflexive(time: int, pos: Vec)
    ensures Follows(time, pos, time, pos)
  {
  }

  lemma ReachAdds(a: int, b: int)
    ensures Reach(a + b) == Reach(a) + Reach(b)
    ensures Reach(a) >= 0.0 <==> a >= 0
  {
  }

  lemma ReachableFollows(last: Snapshot, u: Update)
    ensures Reachable(last, u) <==> Follows(last.time, last.pos, u.time, u.pos)
  {
    ReachAdds(u.time - last.time, 0);
  }

  lemma FollowsIsTransitive(t0: int, p0: Vec, t1: int, p1: Vec, t2: int, p2: Vec)
    requires Follows(t0, p0, t1, p1) && Follows(t1, p1, t2, p2)
    ensures Follows(t0, p0, t2, p2)
  {
    ReachAdds(t1 - t0, t2 - t1);
    TriangleInequality(p0, p1, p2, Reach(t1 - t0), Reach(t2 - t1));
  }

  /** The record of a player, when there is one, follows the update. */
  predicate RecordFollows(s: State, player: uint64, u: Update) {
    player in s.records && Follows(u.time, u.pos, s.records[player].time, s.records[player].pos)
  }

  lemma HandledKeepsRecord(local: uint64, s: State, d: Delivery, player: uint64)
    requires player in s.records
    ensures var s' := Handled(local, s, d);
      if Accepts(local, s, d) && d.update.playerID == player && !d.update.kind.FIRE? then
        if d.update.kind.DEAD? then player !in s'.records
        else player in s'.records && s'.records[player].time == d.update.time && s'.records[player].pos == d.update.pos
      else player in s'.records && s'.records[player] == s.records[player]
  {
  }

  lemma HandledFollows(local: uint64, s: State, d: Delivery, player: uint64, u: Update)
    requires RecordFollows(s, player, u) && player != local
    requires !(Accepts(local, s, d) && d.update.kind.DEAD? && d.update.playerID == player)
    ensures RecordFollows(Handled(local, s, d), player, u)
  {
    HandledKeepsRecord(local, s, d, player);
    var last, v := s.records[player], d.update;
    if Accepts(local, s, d) && v.kind.POSITION? && v.playerID == player {
      ReachableFollows(last, v);
      FollowsIsTransitive(u.time, u.pos, last.time, last.pos, v.time, v.pos);
    }
  }

  lemma PositionIsRecorded(local: uint64, s: State, d: Delivery)
    requires Accepts(local, s, d) && d.update.kind.POSITION?
    ensures RecordFollows(Handled(local, s, d), d.update.playerID, d.update)
  {
    FollowsIsReflexive(d.update.time, d.update.pos);
  }

  ghost predicate NoDeathBetween(local: uint64, ds: seq<Delivery>, i: nat, j: nat, player: uint64) {
    forall k :: i < k < j && k < |ds| ==> !DeathAt(local, ds, k, player)
  }

  /** As long as the player does not die, the record follows every position accepted before. */
  lemma {:induction false} RecordFollowsAccepted(local: uint64, ds: seq<Delivery>, i: nat, j: nat, player: uint64)
    requires player != local && i < j <= |ds| && PositionAt(local, ds, i, player) &&
        NoDeathBetween(local, ds, i, j, player)
    ensures RecordFollows(After(local, INITIAL, ds, j), player, ds[i].update)
  {
    if i < j - 1 {
      RecordFollowsAccepted(local, ds, i, j - 1, player);
      assert !DeathAt(local, ds, j - 1, player);
      HandledFollows(local, After(local, INITIAL, ds, j - 1), ds[j - 1], player, ds[i].update);
    } else {
      PositionIsRecorded(local, After(local, INITIAL, ds, i), ds[i]);
    }
  }

  /** Accepted positions of a remote player go forward in time, and any two of them with no death in between are at most
      ten times the player's speed times the elapsed time apart. */
  lemma SpeedLimit(local: uint64, ds: seq<Delivery>, i: nat, j: nat, player: uint64)
    requires player != local && i < j < |ds| && PositionAt(local, ds, i, player) && PositionAt(local, ds, j, player)
    requires NoDeathBetween(local, ds, i, j, player)
    ensures var u, v := ds[i].update, ds[j].update;
      && u.time <= v.time
      && Distance2(u.pos, v.pos) <= Square(10.0 * PLAYER_SPEED * Seconds(v.time - u.time))
  {
    RecordFollowsAccepted(local, ds, i, j, player);
    var last := After(local, INITIAL, ds, j).records[player];
    ReachableFollows(last, ds[j].update);
    FollowsIsTransitive(ds[i].update.time, ds[i].update.pos, last.time, last.pos, ds[j].update.time, ds[j].update.pos);
  }

  /** Every position that was sent on, and every recorded one, lies in the window. */
  ghost predicate AllInWindow(s: State) {
    && (forall u :: u in s.sent && u.kind.POSITION? ==> InWindow(u.pos))
    && (forall id {:trigger s.records[id]} :: id in s.records ==> InWindow(s.records[id].pos))
  }

  lemma HandledInWindow(local: uint64, s: State, d: Delivery)
    requires AllInWindow(s)
    ensures AllInWindow(Handled(local, s, d))
  {
    var s' := Handled(local, s, d);
    forall id {:trigger s'.records[id]} | id in s'.records ensures InWindow(s'.records[id].pos) {
      if id in s.records {
        HandledKeepsRecord(local, s, d, id);
      }
    }
  }

  lemma {:induction false} PositionsInWindow(local: uint64, ds: seq<Delivery>, n: nat)
    requires n <= |ds|
    ensures AllInWindow(After(local, INITIAL, ds, n))
  {
    if n > 0 {
      PositionsInWindow(local, ds, n - 1);
      HandledInWindow(local, After(local, INITIAL, ds, n - 1), ds[n - 1]);
    }
  }

  /** A death lifts the limit: right after it any position in the window passes the check, whatever its time. */
  lemma DeathLiftsTheLimit(local: uint64, s: State, death: Delivery, d: Delivery)
    requires Accepts(local, s, death) && death.update.kind.DEAD?
    requires d.update.kind.POSITION? && d.update.playerID == death.update.playerID
    ensures Plausible(local, Handled(local, s, death).records, d.update) <==> InWindow(d.update.pos)
  {
    assert d.update.playerID !in Handled(local, s, death).records;
  }
}
