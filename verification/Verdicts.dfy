/** Which updates a client accepts, in terms of what was delivered to it and not of the worker's variables. */
module Verdicts {
  import opened Base
  import opened Updates
  import opened Recording
  import opened AtMostOnce
  import opened Movement

  /** The last accepted position of the player before n, if no accepted death came after it. */
  function LastPosition(local: uint64, ds: seq<Delivery>, n: nat, player: uint64): Option<Update>
    requires n <= |ds|
  {
    if n == 0 || DeathAt(local, ds, n - 1, player) then None
    else if PositionAt(local, ds, n - 1, player) then Some(ds[n - 1].update)
    else LastPosition(local, ds, n - 1, player)
  }

  function RecordOf(u: Update): Snapshot { Snapshot(u.time, u.pos, u.angle) }

  /** The record of the player is that of the position. */
  predicate RecordIs(records: Snapshots, player: uint64, last: Option<Update>) {
    if last.Some? then player in records && records[player] == RecordOf(last.value) else player !in records
  }

  lemma RecordStep(local: uint64, ds: seq<Delivery>, n: nat, player: uint64)
    requires n < |ds|
    requires RecordIs(After(local, INITIAL, ds, n).records, player, LastPosition(local, ds, n, player))
    ensures RecordIs(After(local, INITIAL, ds, n + 1).records, player, LastPosition(local, ds, n + 1, player))
  {
    var s, d := After(local, INITIAL, ds, n), ds[n];
    if player in s.records {
      HandledKeepsRecord(local, s, d, player);
    }
  }

  /** Over every run a player is on record exactly when it had an accepted position after its last accepted death, and
      then with that position. */
  lemma {:induction false} RecordIsLastPosition(local: uint64, ds: seq<Delivery>, n: nat, player: uint64)
    requires n <= |ds|
    ensures RecordIs(After(local, INITIAL, ds, n).records, player, LastPosition(local, ds, n, player))
  {
    if n > 0 {
      RecordIsLastPosition(local, ds, n - 1, player);
      RecordStep(local, ds, n - 1, player);
    }
  }

  /** From the position v the player can have come to u: forward in time, and at 1500 pixels a second. */
  predicate InReach(v: Update, u: Update) {
    var dx, dy, way := u.pos.x - v.pos.x, u.pos.y - v.pos.y, 1500.0 * ((u.time - v.time) as real / 1000000000.0);
    v.time <= u.time && dx * dx + dy * dy <= way * way
  }

  /** The shot u fits the position v: it starts at most half as far from the player as the player is from the corner,
      and its angle is between half and one and a half times the player's. */
  predicate Fits(v: Update, u: Update) {
    var dx, dy := u.pos.x - v.pos.x, u.pos.y - v.pos.y;
    && 4.0 * (dx * dx + dy * dy) <= v.pos.x * v.pos.x + v.pos.y * v.pos.y
    && if v.angle >= 0.0 then v.angle / 2.0 <= u.angle <= 1.5 * v.angle else 1.5 * v.angle <= u.angle <= v.angle / 2.0
  }

  /** The verdict on an update, given the last position of its player. */
  predicate Passes(local: uint64, last: Option<Update>, u: Update) {
    match u.kind
    case DEAD => true
    case FIRE => u.playerID == local || (last.Some? && Fits(last.value, u))
    case POSITION =>
      && 0.0 <= u.pos.x <= 1024.0 && 0.0 <= u.pos.y <= 668.0
      && (u.playerID == local || last.None? || InReach(last.value, u))
  }

  lemma ReachIs(v: Update, u: Update)
    ensures Reachable(RecordOf(v), u) <==> InReach(v, u)
  {
    ReachAdds(u.time - v.time, 0);
  }

  lemma ShotNearIs(v: Update, u: Update)
    ensures ShotNear(RecordOf(v), u) <==> Fits(v, u)
  {
    var dx, dy := u.pos.x - v.pos.x, u.pos.y - v.pos.y;
    assert Distance2(u.pos, v.pos) == dx * dx + dy * dy;
    assert Distance2(ORIGIN, v.pos) == v.pos.x * v.pos.x + v.pos.y * v.pos.y;
  }

  /** Over every run of the worker: an update that it writes down is accepted if it is a death; if it is a shot of the
      client itself, or one that fits the player's last accepted position since the player's last death; and if it is a
      position in the window that is the client's own, or in reach of that last position if there is one. Nothing else
      is accepted. */
  lemma AcceptedIff(local: uint64, ds: seq<Delivery>, n: nat)
    requires n < |ds|
    ensures AcceptedAt(local, ds, n) <==>
      RecordedAt(local, ds, n) && Passes(local, LastPosition(local, ds, n, ds[n].update.playerID), ds[n].update)
  {
    var u, last := ds[n].update, LastPosition(local, ds, n, ds[n].update.playerID);
    RecordIsLastPosition(local, ds, n, u.playerID);
    if last.Some? {
      ReachIs(last.value, u);
      ShotNearIs(last.value, u);
    }
  }

  /** A client trusts its own updates: a shot is accepted if it is written down at all, a position if it is also in the
      window, however far it is from the one before. */
  lemma OwnUpdatesAreTrusted(local: uint64, ds: seq<Delivery>, n: nat)
    requires n < |ds| && ds[n].update.playerID == local
    ensures ds[n].update.kind.FIRE? ==> (AcceptedAt(local, ds, n) <==> RecordedAt(local, ds, n))
    ensures ds[n].update.kind.POSITION? ==>
      (AcceptedAt(local, ds, n) <==>
       RecordedAt(local, ds, n) && 0.0 <= ds[n].update.pos.x <= 1024.0 && 0.0 <= ds[n].update.pos.y <= 668.0)
  {
    AcceptedIff(local, ds, n);
  }

  /** From the deliveries alone, for a clock that does not go back and no delivery between the two fences: a client
      accepts exactly the first delivery of each nonce whose update is not more than a second old and passes. */
  lemma AcceptedExactly(local: uint64, ds: seq<Delivery>, n: nat)
    requires NondecreasingClock(ds) && NoneInGap(ds) && NoncesDetermineTimes(ds) && n < |ds|
    ensures var u := ds[n].update;
      AcceptedAt(local, ds, n) <==>
        && u.time >= ds[n].staleNow - 1_000_000_000 && !SeenBefore(ds, n, u.nonce)
        && Passes(local, LastPosition(local, ds, n, u.playerID), u)
  {
    RecordedIff(local, ds, n);
    AcceptedIff(local, ds, n);
  }
}
