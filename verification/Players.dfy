/** The players a client draws: a map from ids to players, and a list of the ids that fixes the order of drawing. */
module Players {
  import opened Base
  import opened Updates
  import AtMostOnce
  import Recording
  import opened Moves

  /** Where a player is drawn. */
  datatype Shape = Shape(pos: Vec, angle: real)

  type Shapes = map<uint64, Shape>

  datatype Bullet = Bullet(playerID: uint64, pos: Vec, angle: real)

  /** kills counts the increments of the local player's kills that were started. */
  datatype Scene = Scene(players: Shapes, playerIds: seq<uint64>, bullets: seq<Bullet>, kills: nat)

  const EMPTY := Scene(map[], [], [], 0)

  const UNPLACED := Shape(Vec(0.0, 0.0), 0.0)

  function PlayersAfter(local: uint64, players: Shapes, u: Update): Shapes {
    if u.playerID == local then players
    else match u.kind
      case DEAD => players - {u.playerID}
      case FIRE => if u.playerID in players then players else players[u.playerID := UNPLACED]
      case POSITION => players[u.playerID := Shape(u.pos, u.angle)]
  }

  /** The list has each id once. */
  ghost predicate Enumerates(ids: seq<uint64>, s: set<uint64>) { NoDups(ids) && Elements(ids) == s }

  predicate KilledByLocal(local: uint64, u: Update) { u.playerID != local && u.kind.DEAD? && u.otherPlayer == local }

  /** One update is accepted. After a death the list is made anew, in the order in which Go visits the map. */
  ghost predicate Step(local: uint64, s: Scene, u: Update, s': Scene) {
    && s'.players == PlayersAfter(local, s.players, u)
    && (if u.playerID == local then s'.playerIds == s.playerIds
        else if u.kind.DEAD? then Enumerates(s'.playerIds, s'.players.Keys)
        else s'.playerIds == s.playerIds + if u.playerID in s.players then [] else [u.playerID])
    && s'.bullets == s.bullets
         + (if u.kind.FIRE? && u.playerID != local then [Bullet(u.playerID, u.pos, u.angle)] else [])
    && s'.kills == s.kills + if KilledByLocal(local, u) then 1 else 0
  }

  /** What drawing needs: the list has exactly the remote players, each of them once. */
  ghost predicate Consistent(local: uint64, s: Scene) {
    Enumerates(s.playerIds, s.players.Keys) && local !in s.players
  }

  class Screen {
    const localID: uint64
    var players: map<uint64, Player>
    var playerIds: seq<uint64>
    var bullets: seq<Bullet>
    var kills: nat

    constructor (localID: uint64)
      ensures this.localID == localID && Separate() && View() == EMPTY && players == map[]
    {
      this.localID := localID;
      players, playerIds, bullets, kills := map[], [], [], 0;
      new;
      assert ShownAt() == map[];
    }

    /** Each id has a player object of its own. */
    ghost predicate Separate()
      reads this`players
    {
      forall id {:trigger players[id]} :: id in players ==> players[id].ID == id
    }

    ghost function ShownAt(): Shapes
      reads this`players, players.Values
    {
      map id | id in players :: Shape(players[id].Pos, players[id].Angle)
    }

    ghost function View(): Scene
      reads this, players.Values
    {
      Scene(ShownAt(), playerIds, bullets, kills)
    }

    /** A new player gets an object and an entry at the end of the list. */
    method Ensure(id: uint64)
      requires Separate()
      modifies this`players, this`playerIds
      ensures Separate() && id in players && fresh(players.Values - old(players.Values))
      ensures ShownAt() == if id in old(players) then old(ShownAt()) else old(ShownAt())[id := UNPLACED]
      ensures playerIds == old(playerIds) + if id in old(players) then [] else [id]
    {
      ghost var before := ShownAt();
      if id !in players {
        var player := new Player(id, Vec(0.0, 0.0));
        players := players[id := player];
        playerIds := playerIds + [id];
        assert ShownAt() == before[id := UNPLACED];
      }
    }

    /** The list is made anew from the keys of the map, in any order. */
    method RebuildIds()
      modifies this`playerIds
      ensures Enumerates(playerIds, players.Keys)
    {
      playerIds := [];
      var pending := players.Keys;
      while pending != {}
        invariant pending <= players.Keys && Enumerates(playerIds, players.Keys - pending)
        decreases |pending|
      {
        var id :| id in pending;
        EnumerationExtended(playerIds, players.Keys - pending, id);
        assert players.Keys - (pending - {id}) == players.Keys - pending + {id};
        pending := pending - {id};
        playerIds := playerIds + [id];
      }
      assert players.Keys - {} == players.Keys;
    }

    method Remove(id: uint64)
      requires Separate()
      modifies this`players, this`playerIds
      ensures Separate() && players == old(players) - {id} && ShownAt() == old(ShownAt()) - {id}
      ensures Enumerates(playerIds, players.Keys)
    {
      ghost var before := ShownAt();
      players := players - {id};
      RebuildIds();
      assert ShownAt() == before - {id};
    }

    method Place(update: Update)
      requires Separate() && update.playerID in players && update.kind.POSITION?
      modifies players[update.playerID]
      ensures Separate() && ShownAt() == old(ShownAt())[update.playerID := Shape(update.pos, update.angle)]
    {
      ghost var before := ShownAt();
      var player := players[update.playerID];
      player.Accept(update);
      assert player.Update().pos == update.pos && player.Update().angle == update.angle;
      assert ShownAt() == before[update.playerID := Shape(update.pos, update.angle)];
    }

    method AcceptDeath(update: Update)
      requires Separate() && update.kind.DEAD?
      modifies this`players, this`playerIds, this`kills
      ensures Separate() && fresh(players.Values - old(players.Values))
      ensures ShownAt() == old(ShownAt()) - {update.playerID} && Enumerates(playerIds, ShownAt().Keys)
      ensures kills == old(kills) + if update.otherPlayer == localID then 1 else 0
    {
      ghost var before := ShownAt();
      Ensure(update.playerID);
      Remove(update.playerID);
      assert ShownAt() == before - {update.playerID};
      assert ShownAt().Keys == players.Keys;
      if update.otherPlayer == localID {
        kills := kills + 1;
      }
    }

    method AcceptPosition(update: Update)
      requires Separate() && update.kind.POSITION?
      modifies this`players, this`playerIds, players.Values
      ensures Separate() && fresh(players.Values - old(players.Values))
      ensures ShownAt() == old(ShownAt())[update.playerID := Shape(update.pos, update.angle)]
      ensures playerIds == old(playerIds) + if update.playerID in old(players) then [] else [update.playerID]
    {
      ghost var before := ShownAt();
      Ensure(update.playerID);
      Place(update);
      assert ShownAt() == before[update.playerID := Shape(update.pos, update.angle)];
    }

    /** One update from UpdateChannel. */
    method Accept(update: Update)
      requires Separate()
      modifies this, players.Values
      ensures Separate() && fresh(players.Values - old(players.Values))
      ensures Step(localID, old(View()), update, View())
    {
      if update.playerID == localID {
        return;
      }
      match update.kind {
        case DEAD => AcceptDeath(update);
        case FIRE =>
          Ensure(update.playerID);
          bullets := bullets + [Bullet(update.playerID, update.pos, update.angle)];
        case POSITION => AcceptPosition(update);
      }
    }

    /** All waiting updates are accepted. */
    method DoAcceptUpdates(waiting: seq<Update>)
      requires Separate() && Consistent(localID, View())
      modifies this, players.Values
      ensures Separate() && fresh(players.Values - old(players.Values))
      ensures Consistent(localID, View())
      ensures ShownAt() == PlayersAfterAll(localID, old(ShownAt()), waiting, |waiting|)
      ensures kills == old(kills) + KillsIn(localID, waiting, |waiting|)
      ensures bullets == old(bullets) + BulletsIn(localID, waiting)
    {
      assert waiting[..|waiting|] == waiting;
      for i := 0 to |waiting|
        invariant Separate() && fresh(players.Values - old(players.Values))
        invariant Consistent(localID, View())
        invariant ShownAt() == PlayersAfterAll(localID, old(ShownAt()), waiting, i)
        invariant kills == old(kills) + KillsIn(localID, waiting, i)
        invariant bullets == old(bullets) + BulletsIn(localID, waiting[..i])
      {
        ghost var before := View();
        Accept(waiting[i]);
        StepKeepsConsistent(localID, before, waiting[i], View());
        BulletsStep(localID, before, waiting, i, View());
      }
    }

    /** Drawing by id finds every player, and draws each of them once. */
    method DoDraw() returns (drawn: seq<(uint64, Shape)>)
      requires Consistent(localID, View())
      ensures |drawn| == |playerIds| == |players|
      ensures forall k :: 0 <= k < |drawn| ==>
        drawn[k].0 == playerIds[k] && drawn[k].0 in players && drawn[k].1 == ShownAt()[drawn[k].0]
      ensures forall id :: id in players ==> exists k :: 0 <= k < |drawn| && drawn[k].0 == id
    {
      NoDupsCardinality(playerIds);
      assert |players| == |players.Keys| && players.Keys == ShownAt().Keys;
      drawn := [];
      for i := 0 to |playerIds|
        invariant |drawn| == i
        invariant forall k :: 0 <= k < i ==>
          drawn[k].0 == playerIds[k] && drawn[k].0 in players && drawn[k].1 == ShownAt()[drawn[k].0]
      {
        assert playerIds[i] in Elements(playerIds);
        var player := players[playerIds[i]];
        drawn := drawn + [(playerIds[i], Shape(player.Pos, player.Angle))];
      }
      forall id | id in players ensures exists k :: 0 <= k < |drawn| && drawn[k].0 == id {
        assert id in Elements(playerIds);
        var k :| 0 <= k < |playerIds| && playerIds[k] == id;
        assert drawn[k].0 == id;
      }
    }
  }

  lemma EnumerationExtended(ids: seq<uint64>, s: set<uint64>, id: uint64)
    requires Enumerates(ids, s) && id !in s
    ensures Enumerates(ids + [id], s + {id})
  {
    assert Elements(ids + [id]) == Elements(ids) + {id};
    assert forall k :: 0 <= k < |ids| ==> ids[k] in Elements(ids);
  }

  /** The players after the first n updates. */
  function PlayersAfterAll(local: uint64, players: Shapes, us: seq<Update>, n: nat): Shapes
    requires n <= |us|
  {
    if n == 0 then players else PlayersAfter(local, PlayersAfterAll(local, players, us, n - 1), us[n - 1])
  }

  function KillsIn(local: uint64, us: seq<Update>, n: nat): nat
    requires n <= |us|
  {
    if n == 0 then 0 else KillsIn(local, us, n - 1) + if KilledByLocal(local, us[n - 1]) then 1 else 0
  }

  /** One bullet for each shot of another player, where the shot says, in the order of the shots. */
  function BulletsIn(local: uint64, us: seq<Update>): seq<Bullet> {
    if us == [] then []
    else
      var before, u := BulletsIn(local, us[..|us| - 1]), us[|us| - 1];
      if u.kind == FIRE && u.playerID != local then before + [Bullet(u.playerID, u.pos, u.angle)] else before
  }

  lemma BulletsStep(local: uint64, s: Scene, us: seq<Update>, i: nat, s': Scene)
    requires i < |us| && Step(local, s, us[i], s')
    ensures forall start :: s.bullets == start + BulletsIn(local, us[..i]) ==>
      s'.bullets == start + BulletsIn(local, us[..i + 1])
  {
    assert us[..i + 1][..i] == us[..i];
  }

  /** Whatever the updates: the list stays an enumeration of the players, without the local one. */
  lemma StepKeepsConsistent(local: uint64, s: Scene, u: Update, s': Scene)
    requires Consistent(local, s) && Step(local, s, u, s')
    ensures Consistent(local, s')
  {
    if u.playerID != local && !u.kind.DEAD? && u.playerID !in s.players {
      EnumerationExtended(s.playerIds, s.players.Keys, u.playerID);
      assert s'.players.Keys == s.players.Keys + {u.playerID};
    } else if u.playerID != local && u.kind.POSITION? {
      assert s'.players.Keys == s.players.Keys;
    }
  }

  predicate IsRun(ss: seq<Scene>, us: seq<Update>) { |ss| == |us| + 1 && ss[0] == EMPTY }

  ghost predicate Run(local: uint64, ss: seq<Scene>, us: seq<Update>) {
    IsRun(ss, us) && forall i :: 0 <= i < |us| ==> StepAt(local, ss, us, i)
  }

  ghost predicate StepAt(local: uint64, ss: seq<Scene>, us: seq<Update>, i: nat)
    requires |ss| == |us| + 1 && i < |us|
  {
    Step(local, ss[i], us[i], ss[i + 1])
  }

  lemma {:induction false} RunConsistent(local: uint64, ss: seq<Scene>, us: seq<Update>, i: nat)
    requires Run(local, ss, us) && i < |ss|
    ensures Consistent(local, ss[i])
  {
    if i > 0 {
      RunConsistent(local, ss, us, i - 1);
      assert StepAt(local, ss, us, i - 1);
      StepKeepsConsistent(local, ss[i - 1], us[i - 1], ss[i]);
    }
  }

  /** What the list is for: as long as nobody dies the order of drawing is stable, and new players come last. */
  lemma {:induction false} OrderIsStable(local: uint64, ss: seq<Scene>, us: seq<Update>, i: nat, j: nat)
    requires Run(local, ss, us) && i <= j < |ss|
    requires forall k :: i <= k < j && us[k].kind.DEAD? ==> us[k].playerID == local
    ensures ss[i].playerIds <= ss[j].playerIds
  {
    if i < j {
      OrderIsStable(local, ss, us, i, j - 1);
      assert StepAt(local, ss, us, j - 1);
    }
  }

  /** A shape is where the record has the player. */
  predicate ShapeIs(shapes: Shapes, records: Recording.Snapshots, id: uint64) {
    id in shapes && id in records && shapes[id] == Shape(records[id].pos, records[id].angle)
  }

  /** The screen shows exactly the remote players on record, where the records have them. */
  ghost predicate ShowsRecords(local: uint64, shapes: Shapes, records: Recording.Snapshots) {
    && shapes.Keys == records.Keys - {local}
    && forall id :: id in shapes ==> ShapeIs(shapes, records, id)
  }

  lemma AcceptedKeepsShown(local: uint64, s: Recording.State, d: Recording.Delivery, shapes: Shapes)
    requires ShowsRecords(local, shapes, s.records) && Recording.Accepts(local, s, d)
    ensures ShowsRecords(local, PlayersAfter(local, shapes, d.update), Recording.RecordsAfter(s.records, d.update))
  {
    var u := d.update;
    var shapes', records' := PlayersAfter(local, shapes, u), Recording.RecordsAfter(s.records, u);
    assert Recording.Plausible(local, s.records, d.update);
    forall id | id in shapes' ensures ShapeIs(shapes', records', id) {
      assert id in shapes ==> ShapeIs(shapes, s.records, id);
    }
  }

  lemma {:induction false} PlayersPrefix(local: uint64, us: seq<Update>, u: Update, n: nat)
    requires n <= |us|
    ensures PlayersAfterAll(local, map[], us + [u], n) == PlayersAfterAll(local, map[], us, n)
  {
    if n > 0 {
      PlayersPrefix(local, us, u, n - 1);
    }
  }

  /** The two ends of the pipeline agree: once the screen has accepted everything that the worker passed on, it shows
      exactly the remote players on record, at their recorded positions. */
  lemma {:induction false} ScreenShowsRecords(local: uint64, ds: seq<Recording.Delivery>, n: nat)
    requires n <= |ds|
    ensures var s := Recording.After(local, Recording.INITIAL, ds, n);
      ShowsRecords(local, PlayersAfterAll(local, map[], s.shown, |s.shown|), s.records)
  {
    if n > 0 {
      ScreenShowsRecords(local, ds, n - 1);
      var s, d := Recording.After(local, Recording.INITIAL, ds, n - 1), ds[n - 1];
      if Recording.Accepts(local, s, d) {
        AcceptedKeepsShown(local, s, d, PlayersAfterAll(local, map[], s.shown, |s.shown|));
        PlayersPrefix(local, s.shown, d.update, |s.shown|);
      }
    }
  }

  /** The shots of other players that the client has accepted, in their order. */
  function ShotsAccepted(local: uint64, ds: seq<Recording.Delivery>, n: nat): seq<Bullet>
    requires n <= |ds|
  {
    if n == 0 then []
    else
      var before, u := ShotsAccepted(local, ds, n - 1), ds[n - 1].update;
      if AtMostOnce.AcceptedAt(local, ds, n - 1) && u.kind == FIRE && u.playerID != local
      then before + [Bullet(u.playerID, u.pos, u.angle)]
      else before
  }

  lemma {:induction false} BulletsOfAccepted(local: uint64, ds: seq<Recording.Delivery>, n: nat)
    requires n <= |ds|
    ensures BulletsIn(local, AtMostOnce.AcceptedUpdates(local, ds, n)) == ShotsAccepted(local, ds, n)
  {
    if n > 0 {
      BulletsOfAccepted(local, ds, n - 1);
      var before, u := AtMostOnce.AcceptedUpdates(local, ds, n - 1), ds[n - 1].update;
      assert before + [] == before;
      assert (before + [u])[..|before|] == before;
    }
  }

  /** The screen gets exactly one bullet for each shot of another player that the client accepts, in their order. */
  lemma ScreenShowsShots(local: uint64, ds: seq<Recording.Delivery>, n: nat)
    requires n <= |ds|
    ensures BulletsIn(local, Recording.After(local, Recording.INITIAL, ds, n).shown) == ShotsAccepted(local, ds, n)
  {
    BulletsOfAccepted(local, ds, n);
    AtMostOnce.ChannelsCarryAccepted(local, ds, n);
  }

  /** The nonces of the accepted deaths of other players at the hands of the local one. */
  function KillNonces(local: uint64, ds: seq<Recording.Delivery>, n: nat): set<uint64>
    requires n <= |ds|
  {
    set i | 0 <= i < n && IsKillAt(local, ds, i) :: ds[i].update.nonce
  }

  predicate IsKillAt(local: uint64, ds: seq<Recording.Delivery>, i: nat)
    requires i < |ds|
  {
    var u := ds[i].update;
    AtMostOnce.AcceptedAt(local, ds, i) && u.kind == DEAD && u.playerID != local && u.otherPlayer == local
  }

  lemma {:induction false} KillsPrefix(local: uint64, us: seq<Update>, u: Update, n: nat)
    requires n <= |us|
    ensures KillsIn(local, us + [u], n) == KillsIn(local, us, n)
  {
    if n > 0 {
      KillsPrefix(local, us, u, n - 1);
    }
  }

  lemma KillIsNew(local: uint64, ds: seq<Recording.Delivery>, n: nat)
    requires AtMostOnce.NondecreasingClock(ds) && AtMostOnce.NoneInGap(ds) && AtMostOnce.NoncesDetermineTimes(ds)
    requires n < |ds| && IsKillAt(local, ds, n)
    ensures ds[n].update.nonce !in KillNonces(local, ds, n)
  {
    forall i | 0 <= i < n && IsKillAt(local, ds, i) ensures ds[i].update.nonce != ds[n].update.nonce {
      AtMostOnce.RecordedAtMostOnce(local, ds, i, n);
    }
  }

  lemma KillNoncesStep(local: uint64, ds: seq<Recording.Delivery>, n: nat)
    requires AtMostOnce.NondecreasingClock(ds) && AtMostOnce.NoneInGap(ds) && AtMostOnce.NoncesDetermineTimes(ds)
    requires n < |ds|
    ensures |KillNonces(local, ds, n + 1)| == |KillNonces(local, ds, n)| + if IsKillAt(local, ds, n) then 1 else 0
  {
    var before, nonce := KillNonces(local, ds, n), ds[n].update.nonce;
    if IsKillAt(local, ds, n) {
      KillIsNew(local, ds, n);
      assert KillNonces(local, ds, n + 1) == before + {nonce};
    } else {
      assert KillNonces(local, ds, n + 1) == before;
    }
  }

  lemma AcceptedKill(local: uint64, ds: seq<Recording.Delivery>, n: nat)
    requires n < |ds|
    ensures var us, us' := AtMostOnce.AcceptedUpdates(local, ds, n), AtMostOnce.AcceptedUpdates(local, ds, n + 1);
      KillsIn(local, us', |us'|) == KillsIn(local, us, |us|) + if IsKillAt(local, ds, n) then 1 else 0
  {
    var us, u := AtMostOnce.AcceptedUpdates(local, ds, n), ds[n].update;
    assert us + [] == us;
    KillsPrefix(local, us, u, |us|);
  }

  /** The kills among the accepted updates are as many as their nonces. */
  predicate KillsAgree(local: uint64, ds: seq<Recording.Delivery>, n: nat)
    requires n <= |ds|
  {
    var us := AtMostOnce.AcceptedUpdates(local, ds, n);
    KillsIn(local, us, |us|) == |KillNonces(local, ds, n)|
  }

  lemma KillsAgreeStep(local: uint64, ds: seq<Recording.Delivery>, n: nat)
    requires AtMostOnce.NondecreasingClock(ds) && AtMostOnce.NoneInGap(ds) && AtMostOnce.NoncesDetermineTimes(ds)
    requires n < |ds| && KillsAgree(local, ds, n)
    ensures KillsAgree(local, ds, n + 1)
  {
    KillNoncesStep(local, ds, n);
    AcceptedKill(local, ds, n);
  }

  lemma {:induction false} KillsOfAccepted(local: uint64, ds: seq<Recording.Delivery>, n: nat)
    requires AtMostOnce.NondecreasingClock(ds) && AtMostOnce.NoneInGap(ds) && AtMostOnce.NoncesDetermineTimes(ds)
    requires n <= |ds|
    ensures KillsAgree(local, ds, n)
  {
    if n > 0 {
      KillsOfAccepted(local, ds, n - 1);
      KillsAgreeStep(local, ds, n - 1);
    }
  }

  /** Each kill is counted once, however often the news of it arrives and from however many peers: over every run, with
      a clock that does not go back and no delivery between the two fences, the kills that the screen starts to count
      are as many as there are nonces among the accepted deaths at the hands of the local player. */
  lemma KillsCountedOnce(local: uint64, ds: seq<Recording.Delivery>, n: nat)
    requires AtMostOnce.NondecreasingClock(ds) && AtMostOnce.NoneInGap(ds) && AtMostOnce.NoncesDetermineTimes(ds)
    requires n <= |ds|
    ensures var shown := Recording.After(local, Recording.INITIAL, ds, n).shown;
      KillsIn(local, shown, |shown|) == |KillNonces(local, ds, n)|
  {
    KillsOfAccepted(local, ds, n);
    AtMostOnce.ChannelsCarryAccepted(local, ds, n);
  }
}
