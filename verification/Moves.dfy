/** How the local player moves, and that no receiver ever rejects such moves. */
module Moves {
  import opened Base
  import opened Updates
  import opened Recording
  import opened AtMostOnce
  import opened Movement

  /** A mouse click: the cosine and sine of the player's angle, and the clock and the random number that stamp the
      shot. */
  datatype Click = Click(direction: Vec, now: int, nonce: uint64)

  /** The input of one frame: the time since the last frame in seconds, the keys that are down, the mouse position if
      Enter is down, the direction of the mouse, the click if there is one, and the clock and the random number that
      stamp the update. */
  datatype Frame = Frame(
    dt: real, left: bool, right: bool, down: bool, up: bool, enter: Option<Vec>, mouseAngle: real, click: Option<Click>,
    now: int, nonce: uint64)

  /** The update after the keys of the frame. */
  function Moved(u: Update, f: Frame): Update {
    var a := if f.left then u.MoveLeft(f.dt) else u;
    var b := if f.right then a.MoveRight(f.dt) else a;
    var c := if f.down then b.MoveDown(f.dt) else b;
    if f.up then c.MoveUp(f.dt) else c
  }

  function LocalUpdate(u: Update, f: Frame): Update {
    var moved := Moved(u, f);
    var placed := if f.enter.Some? then moved.(pos := f.enter.value) else moved;
    placed.(angle := f.mouseAngle).Bound().Timestamp(f.now, f.nonce)
  }

  /** The shot of a player who has just sent update u. */
  function ShotUpdate(u: Update, c: Click): Update { u.Fire(c.direction).Timestamp(c.now, c.nonce) }

  class Player {
    const ID: uint64
    var Pos: Vec
    var Angle: real

    constructor (id: uint64, pos: Vec)
      ensures ID == id && Pos == pos && Angle == 0.0
    {
      ID := id;
      Pos, Angle := pos, 0.0;
    }

    function Update(): Update
      reads this
    {
      Updates.Update(POSITION, 0, 0, ID, 0, Pos, Angle)
    }

    method Accept(update: Update)
      modifies this
      ensures Update() == if update.kind.POSITION? then old(Update()).(pos := update.pos, angle := update.angle)
                          else old(Update())
    {
      if update.kind.POSITION? {
        Pos := update.pos;
        Angle := update.angle;
      }
    }

    /** FireBullet: the update about the bullet of this player, the local one. */
    method FireBullet(c: Click) returns (shot: Update)
      ensures shot == ShotUpdate(Update(), c)
    {
      var offset := Vec(MUZZLE_DISTANCE * c.direction.x, MUZZLE_DISTANCE * c.direction.y);
      var position := Vec(Pos.x + offset.x, Pos.y + offset.y);
      shot := Updates.Update(FIRE, 0, 0, ID, 0, position, Angle).Timestamp(c.now, c.nonce);
    }

    /** The move of the frame. */
    method InputUpdate(f: Frame) returns (update: Update)
      ensures update == LocalUpdate(Update(), f)
    {
      update := Update();
      if f.left {
        update := update.MoveLeft(f.dt);
      }
      if f.right {
        update := update.MoveRight(f.dt);
      }
      if f.down {
        update := update.MoveDown(f.dt);
      }
      if f.up {
        update := update.MoveUp(f.dt);
      }
      if f.enter.Some? {
        update := update.(pos := f.enter.value);
      }
      update := update.(angle := f.mouseAngle).Bound().Timestamp(f.now, f.nonce);
    }

    /** Moves this player, the local one, and returns what is put into RecordUpdates: the shot of a click, fired from
        the new place, and then the move. */
    method DoLocalInput(f: Frame) returns (sent: seq<Update>)
      modifies this
      ensures var u := LocalUpdate(old(Update()), f);
        sent == (if f.click.Some? then [ShotUpdate(u, f.click.value)] else []) + [u]
      ensures InWindow(Pos) && Pos == LocalUpdate(old(Update()), f).pos && Angle == f.mouseAngle
      ensures var move := sent[|sent| - 1];
        && move.kind.POSITION? && move.playerID == ID && move.pos == Pos && move.angle == Angle
        && move.time == f.now && move.nonce == f.nonce
      ensures f.enter.Some? && InWindow(f.enter.value) ==> Pos == f.enter.value
    {
      var update := InputUpdate(f);
      MoveFacts(Update(), f);
      Accept(update);
      sent := [];
      if f.click.Some? {
        var shot := FireBullet(f.click.value);
        assert shot == ShotUpdate(update, f.click.value);
        sent := [shot];
      }
      sent := sent + [update];
    }
  }

  lemma MoveFacts(u: Update, f: Frame)
    ensures var v := LocalUpdate(u, f);
      && v.kind == u.kind && v.playerID == u.playerID && v.otherPlayer == u.otherPlayer
      && v.angle == f.mouseAngle && v.time == f.now && v.nonce == f.nonce && InWindow(v.pos)
      && (f.enter.Some? && InWindow(f.enter.value) ==> v.pos == f.enter.value)
  {
  }

  /** The direction of the keys: right and up count one, left and down minus one, and opposite keys cancel. */
  function Across(f: Frame): int { (if f.right then 1 else 0) - if f.left then 1 else 0 }

  function Upwards(f: Frame): int { (if f.up then 1 else 0) - if f.down then 1 else 0 }

  /** The updates that a player builds frame by frame without Enter, from a place in the window. */
  ghost predicate BuiltFrom(us: seq<Update>, frames: seq<Frame>) {
    |us| == |frames| + 1 && InWindow(us[0].pos) && forall i :: 0 <= i < |frames| ==> BuiltAt(us, frames, i)
  }

  predicate BuiltAt(us: seq<Update>, frames: seq<Frame>, i: nat)
    requires i < |frames| && i + 1 < |us|
  {
    frames[i].dt >= 0.0 && frames[i].enter.None? && us[i + 1] == LocalUpdate(us[i], frames[i])
  }

  ghost predicate Holds(frames: seq<Frame>, n: nat, across: int, upwards: int)
    requires n <= |frames|
  {
    forall i :: 0 <= i < n ==> Across(frames[i]) == across && Upwards(frames[i]) == upwards
  }

  /** The time that the first n frames take, in seconds. */
  function Elapsed(frames: seq<Frame>, n: nat): real
    requires n <= |frames|
  {
    if n == 0 then 0.0 else Elapsed(frames, n - 1) + frames[n - 1].dt
  }

  /** Where a coordinate gets to in that time, at 150 pixels a second and up to the border. */
  function Along(x: real, direction: int, seconds: real, border: real): real {
    if direction > 0 then (if x + 150.0 * seconds < border then x + 150.0 * seconds else border)
    else if direction < 0 then (if x - 150.0 * seconds > 0.0 then x - 150.0 * seconds else 0.0)
    else x
  }

  lemma AlongExtends(u: Update, f: Frame, x: real, y: real, seconds: real)
    requires f.enter.None? && f.dt >= 0.0 && seconds >= 0.0 && 0.0 <= x <= 1024.0 && 0.0 <= y <= 668.0
    requires u.pos == Vec(Along(x, Across(f), seconds, 1024.0), Along(y, Upwards(f), seconds, 668.0))
    ensures LocalUpdate(u, f).pos
         == Vec(Along(x, Across(f), seconds + f.dt, 1024.0), Along(y, Upwards(f), seconds + f.dt, 668.0))
  {
  }

  /** Holding keys moves the player straight in their direction, at 150 pixels a second along each axis, until it gets
      to the border, however the time is divided into frames. */
  lemma {:induction false} HeldKeysTravel(us: seq<Update>, frames: seq<Frame>, n: nat, across: int, upwards: int)
    requires BuiltFrom(us, frames) && n <= |frames| && Holds(frames, n, across, upwards)
    ensures Elapsed(frames, n) >= 0.0
    ensures us[n].pos == Vec(Along(us[0].pos.x, across, Elapsed(frames, n), 1024.0),
                             Along(us[0].pos.y, upwards, Elapsed(frames, n), 668.0))
  {
    if n > 0 {
      HeldKeysTravel(us, frames, n - 1, across, upwards);
      assert BuiltAt(us, frames, n - 1);
      AlongExtends(us[n - 1], frames[n - 1], us[0].pos.x, us[0].pos.y, Elapsed(frames, n - 1));
    }
  }

  /** The sequence of updates that a player who never presses Enter builds, starting from update u. */
  ghost predicate HonestMoves(player: uint64, us: seq<Update>, frames: seq<Frame>) {
    && |us| == |frames| + 1
    && us[0].playerID == player && us[0].kind.POSITION? && InWindow(us[0].pos)
    && forall i :: 0 <= i < |frames| ==> HonestMove(us, frames, i)
  }

  predicate HonestMove(us: seq<Update>, frames: seq<Frame>, i: nat)
    requires i < |frames| && i + 1 < |us|
  {
    && frames[i].enter.None?
    && us[i + 1] == LocalUpdate(us[i], frames[i])
    && Paced(frames[i].dt, us[i + 1].time - us[i].time)
  }

  /** The timestamps advance enough for the frame: by at least dt / sqrt(50). */
  predicate Paced(dt: real, elapsed: int) { elapsed >= 0 && Square(dt) <= 50.0 * Square(Seconds(elapsed)) }

  /** Advancing by a fifth of the frame is enough. */
  lemma FifthIsPaced(dt: real, elapsed: int)
    requires dt >= 0.0 && 5.0 * Seconds(elapsed) >= dt
    ensures Paced(dt, elapsed)
  {
    var s := Seconds(elapsed);
    ProductMonotone(dt, 5.0 * s, dt, 5.0 * s);
    assert Square(5.0 * s) == 25.0 * Square(s);
    SquareNonNegative(s);
  }

  /** Clamping a coordinate does not take it farther from one within the limits. */
  lemma ClampNearer(x: real, y: real, low: real, high: real)
    requires low <= x <= high
    ensures Square(Clamp(y, low, high) - x) <= Square(y - x)
  {
    var c := Clamp(y, low, high);
    if y > high {
      ProductMonotone(c - x, y - x, c - x, y - x);
    } else if y < low {
      ProductMonotone(x - c, x - y, x - c, x - y);
      assert Square(x - c) == Square(c - x) && Square(x - y) == Square(y - x);
    }
  }

  lemma StepLength(u: Update, f: Frame)
    ensures Distance2(u.pos, Moved(u, f).pos) <= 2.0 * Square(PLAYER_SPEED * f.dt)
    ensures f.left && !f.right && f.up && !f.down ==>
              Distance2(u.pos, Moved(u, f).pos) == 2.0 * Square(PLAYER_SPEED * f.dt)
  {
    var v := PLAYER_SPEED * f.dt;
    var dx, dy := Moved(u, f).pos.x - u.pos.x, Moved(u, f).pos.y - u.pos.y;
    SquareOfChoice(dx, v);
    SquareOfChoice(dy, v);
  }

  lemma SquareOfChoice(d: real, v: real)
    requires d == 0.0 || d == v || d == 0.0 - v
    ensures if d == 0.0 then Square(d) == 0.0 <= Square(v) else Square(d) == Square(v)
  {
    SquareNonNegative(v);
    assert (0.0 - v) * (0.0 - v) == v * v;
  }

  /** The squared reach is 100 times the squared way at the player's speed. */
  lemma PacedIff(dt: real, elapsed: int)
    requires elapsed >= 0
    ensures 2.0 * Square(PLAYER_SPEED * dt) <= Square(Reach(elapsed)) <==> Paced(dt, elapsed)
  {
    var s := Seconds(elapsed);
    assert Square(PLAYER_SPEED * dt) == 22500.0 * Square(dt);
    assert Square(Reach(elapsed)) == 2250000.0 * Square(s);
  }

  /** A frame's move is within the receivers' limit. */
  lemma MoveFollows(us: seq<Update>, frames: seq<Frame>, i: nat)
    requires i < |frames| && i + 1 < |us| && HonestMove(us, frames, i) && InWindow(us[i].pos)
    ensures Follows(us[i].time, us[i].pos, us[i + 1].time, us[i + 1].pos) && InWindow(us[i + 1].pos)
    ensures us[i + 1].playerID == us[i].playerID && us[i + 1].kind == us[i].kind
  {
    var u, v, f := us[i], us[i + 1], frames[i];
    var moved := Moved(u, f);
    StepLength(u, f);
    PacedIff(f.dt, v.time - u.time);
    ReachAdds(v.time - u.time, 0);
    ClampNearer(u.pos.x, moved.pos.x, MIN_X, MAX_X);
    ClampNearer(u.pos.y, moved.pos.y, MIN_Y, MAX_Y);
  }

  lemma {:induction false} HonestInWindow(player: uint64, us: seq<Update>, frames: seq<Frame>, i: nat)
    requires HonestMoves(player, us, frames) && i < |us|
    ensures InWindow(us[i].pos) && us[i].playerID == player && us[i].kind.POSITION?
  {
    if i > 0 {
      HonestInWindow(player, us, frames, i - 1);
      assert HonestMove(us, frames, i - 1);
      MoveFollows(us, frames, i - 1);
    }
  }

  /** However many updates in between are lost, a later update is reachable from an earlier one. */
  lemma {:induction false} HonestFollows(player: uint64, us: seq<Update>, frames: seq<Frame>, i: nat, j: nat)
    requires HonestMoves(player, us, frames) && i <= j < |us|
    ensures Follows(us[i].time, us[i].pos, us[j].time, us[j].pos)
  {
    if i == j {
      FollowsIsReflexive(us[i].time, us[i].pos);
    } else {
      HonestFollows(player, us, frames, i, j - 1);
      HonestInWindow(player, us, frames, j - 1);
      assert HonestMove(us, frames, j - 1);
      MoveFollows(us, frames, j - 1);
      FollowsIsTransitive(us[i].time, us[i].pos, us[j - 1].time, us[j - 1].pos, us[j].time, us[j].pos);
    }
  }

  predicate IsPositionOf(d: Delivery, player: uint64) { d.update.kind.POSITION? && d.update.playerID == player }

  /** What a receiver writes down of the player's positions: some of the honest updates in their order. Copies that it
      has seen before may come at any time. */
  ghost predicate InOrder(local: uint64, ds: seq<Delivery>, player: uint64, us: seq<Update>, index: seq<nat>) {
    && |index| == |ds|
    && (forall k :: 0 <= k < |ds| && RecordedPosition(local, ds, k, player) ==>
          index[k] < |us| && ds[k].update == us[index[k]])
    && (forall k, l :: 0 <= k < l < |ds| ==>
          RecordedPosition(local, ds, k, player) && RecordedPosition(local, ds, l, player) ==> index[k] <= index[l])
  }

  predicate RecordedPosition(local: uint64, ds: seq<Delivery>, k: nat, player: uint64)
    requires k < |ds|
  {
    RecordedAt(local, ds, k) && IsPositionOf(ds[k], player)
  }

  /** The record of the player, if any, is that of some update written down before. */
  ghost predicate RecordIsHonest(local: uint64, s: State, ds: seq<Delivery>, n: nat, player: uint64) {
    player in s.records ==>
      exists k :: 0 <= k < n && k < |ds| && RecordedPosition(local, ds, k, player) &&
          RecordIs(s.records[player], ds[k].update)
  }

  predicate RecordIs(r: Snapshot, u: Update) { r.time == u.time && r.pos == u.pos }

  lemma NewRecordIsHonest(local: uint64, s: State, d: Delivery, player: uint64)
    requires player in Handled(local, s, d).records
    requires player in s.records ==> Handled(local, s, d).records[player] != s.records[player]
    ensures Records(s, d) && IsPositionOf(d, player) && RecordIs(Handled(local, s, d).records[player], d.update)
  {
    if player in s.records {
      HandledKeepsRecord(local, s, d, player);
    }
  }

  lemma HandledRecordIsHonest(local: uint64, ds: seq<Delivery>, n: nat, player: uint64)
    requires n < |ds| && RecordIsHonest(local, After(local, INITIAL, ds, n), ds, n, player)
    ensures RecordIsHonest(local, After(local, INITIAL, ds, n + 1), ds, n + 1, player)
  {
    var s, s' := After(local, INITIAL, ds, n), After(local, INITIAL, ds, n + 1);
    if player in s'.records {
      if player in s.records && s'.records[player] == s.records[player] {
        var k :| 0 <= k < n && RecordedPosition(local, ds, k, player) && RecordIs(s.records[player], ds[k].update);
      } else {
        NewRecordIsHonest(local, s, ds[n], player);
        assert RecordedPosition(local, ds, n, player);
      }
    }
  }

  lemma {:induction false} RecordsAreHonest(local: uint64, ds: seq<Delivery>, n: nat, player: uint64)
    requires n <= |ds|
    ensures RecordIsHonest(local, After(local, INITIAL, ds, n), ds, n, player)
  {
    if n > 0 {
      RecordsAreHonest(local, ds, n - 1, player);
      HandledRecordIsHonest(local, ds, n - 1, player);
    }
  }

  /** Completeness of the checks: whatever a receiver gets from other players, however much of the player's moves is
      lost and however late copies of them arrive, no honest move that it writes down in order is rejected. */
  lemma HonestMovesAreAccepted(local: uint64, ds: seq<Delivery>, n: nat, player: uint64, us: seq<Update>,
                               frames: seq<Frame>, index: seq<nat>)
    requires HonestMoves(player, us, frames) && InOrder(local, ds, player, us, index)
    requires n < |ds| && IsPositionOf(ds[n], player)
    ensures AcceptedAt(local, ds, n) <==> RecordedAt(local, ds, n)
  {
    if RecordedAt(local, ds, n) {
      var s := After(local, INITIAL, ds, n);
      assert RecordedPosition(local, ds, n, player);
      RecordsAreHonest(local, ds, n, player);
      HonestInWindow(player, us, frames, index[n]);
      if player in s.records {
        var k :| 0 <= k < n && RecordedPosition(local, ds, k, player) && RecordIs(s.records[player], ds[k].update);
        HonestFollows(player, us, frames, index[k], index[n]);
        ReachableFollows(s.records[player], ds[n].update);
      }
      assert Plausible(local, s.records, ds[n].update);
    }
  }

  /** The pace is needed: the first two updates of a player who moves diagonally, away from the border, pass the check
      if and only if the timestamps keep pace. */
  lemma DiagonalPassesIff(u: Update, f: Frame, last: Snapshot)
    requires last.time == u.time && last.pos == u.pos && f.now >= u.time
    requires f.left && f.up && !f.right && !f.down && f.enter.None? && InWindow(Moved(u, f).pos)
    ensures Reachable(last, LocalUpdate(u, f)) <==> Paced(f.dt, f.now - u.time)
  {
    StepLength(u, f);
    PacedIff(f.dt, f.now - u.time);
    ReachAdds(f.now - u.time, 0);
    assert LocalUpdate(u, f).pos == Moved(u, f).pos;
  }

  lemma ShotDistance(u: Update, c: Click)
    requires Square(c.direction.x) + Square(c.direction.y) == 1.0
    ensures Distance2(ShotUpdate(u, c).pos, u.pos) == Square(MUZZLE_DISTANCE)
  {
    var dx, dy := c.direction.x, c.direction.y;
    SquareOfProduct(MUZZLE_DISTANCE, dx);
    SquareOfProduct(MUZZLE_DISTANCE, dy);
    assert ShotUpdate(u, c).pos.x - u.pos.x == MUZZLE_DISTANCE * dx;
    assert ShotUpdate(u, c).pos.y - u.pos.y == MUZZLE_DISTANCE * dy;
    assert Square(u.pos.x - ShotUpdate(u, c).pos.x) == Square(MUZZLE_DISTANCE * dx);
    assert Square(u.pos.y - ShotUpdate(u, c).pos.y) == Square(MUZZLE_DISTANCE * dy);
  }

  /** A shot starts 30 pixels from its player, straight ahead, and carries the player's id and angle and its own time
      and nonce. */
  lemma ShotStartsAhead(u: Update, c: Click)
    requires Square(c.direction.x) + Square(c.direction.y) == 1.0
    ensures var shot := ShotUpdate(u, c);
      && Distance2(u.pos, shot.pos) == 900.0
      && (shot.pos.x - u.pos.x) * c.direction.x + (shot.pos.y - u.pos.y) * c.direction.y == 30.0
      && shot.kind.FIRE? && shot.playerID == u.playerID && shot.angle == u.angle
      && shot.time == c.now && shot.nonce == c.nonce
  {
    var dx, dy := c.direction.x, c.direction.y;
    ShotDistance(u, c);
    var x, y := ShotUpdate(u, c).pos.x - u.pos.x, ShotUpdate(u, c).pos.y - u.pos.y;
    assert x == 30.0 * dx && y == 30.0 * dy;
    assert x * dx == 30.0 * Square(dx) && y * dy == 30.0 * Square(dy);
    assert Square(0.0 - x) == Square(x) && Square(0.0 - y) == Square(y);
  }

  /** Shots are not checked as completely: one from exactly the recorded place and angle passes if and only if that
      place is at least 60 pixels from the corner where the coordinates start, because the errors are relative to it. */
  lemma HonestShotPassesIff(local: uint64, records: Snapshots, u: Update, c: Click)
    requires u.playerID != local && u.playerID in records
    requires records[u.playerID].pos == u.pos && records[u.playerID].angle == u.angle
    requires Square(c.direction.x) + Square(c.direction.y) == 1.0
    ensures Plausible(local, records, ShotUpdate(u, c)) <==> Distance2(ORIGIN, u.pos) >= Square(60.0)
  {
    ShotDistance(u, c);
  }
}
