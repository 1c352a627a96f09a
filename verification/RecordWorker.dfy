/** The worker of a client that filters incoming updates: a queue and a map that remember nonces for a while,
    and a record per player to check positions against. */
module Recording {
  import opened Base
  import opened Updates

  /** How far back an update may lie: TimeDelta, in nanoseconds. */
  const TIME_DELTA := -1_000_000_000

  datatype Snapshot = Snapshot(time: int, pos: Vec, angle: real)

  type Snapshots = map<uint64, Snapshot>

  /** One update taken from RecordUpdates, with the two clock readings of the iteration that handles it. */
  datatype Delivery = Delivery(update: Update, staleNow: int, pruneNow: int)

  /** The worker's variables as values. shown and sent are what went into UpdateChannel and OutgoingUpdates. */
  datatype State = State(
    records: Snapshots, history: seq<Update>, historyMap: set<uint64>, shown: seq<Update>, sent: seq<Update>)

  const INITIAL := State(map[], [], {}, [], [])

  function Fence(now: int): int { now + TIME_DELTA }

  predicate Stale(d: Delivery) { d.update.time < Fence(d.staleNow) }

  function Nonces(history: seq<Update>): set<uint64> { set u | u in history :: u.nonce }

  predicate DistinctNonces(history: seq<Update>) {
    forall i, j :: 0 <= i < j < |history| ==> history[i].nonce != history[j].nonce
  }

  /** The map holds exactly the nonces of the queue, and no nonce is queued twice. */
  predicate Indexed(history: seq<Update>, historyMap: set<uint64>) {
    historyMap == Nonces(history) && DistinctNonces(history)
  }

  /** How many updates at the front of the queue are older than the fence. */
  function OlderPrefix(history: seq<Update>, fence: int): (n: nat)
    ensures n <= |history|
    ensures forall i :: 0 <= i < n ==> history[i].time < fence
    ensures n < |history| ==> history[n].time >= fence
  {
    if history == [] || history[0].time >= fence then 0 else 1 + OlderPrefix(history[1..], fence)
  }

  function PrunedHistory(history: seq<Update>, fence: int): seq<Update> { history[OlderPrefix(history, fence)..] }

  const ORIGIN := Vec(0.0, 0.0)

  function Abs(a: real): real { if a < 0.0 then 0.0 - a else a }

  /** A shot is rejected when the error of its position exceeds half the length of the recorded position, or the error
      of its angle exceeds half the recorded angle. The program divides: by zero that gives an infinity, which exceeds a
      half, unless the error is zero too, when it gives a NaN, which does not. The products say the same. */
  predicate ShotNear(last: Snapshot, u: Update) {
    && 4.0 * Distance2(u.pos, last.pos) <= Distance2(ORIGIN, last.pos)
    && 2.0 * Abs(last.angle - u.angle) <= Abs(last.angle)
  }

  /** The position of a player who is already known is checked against the record, except the local player's. */
  predicate Plausible(local: uint64, records: Snapshots, u: Update) {
    match u.kind
    case DEAD => true
    case FIRE => u.playerID == local || (u.playerID in records && ShotNear(records[u.playerID], u))
    case POSITION =>
      && InWindow(u.pos)
      && (u.playerID in records && u.playerID != local ==> Reachable(records[u.playerID], u))
  }

  /** The allowed distance: ten times the player's speed, for the time since the record. */
  function Reach(nanoseconds: int): real { 10.0 * PLAYER_SPEED * Seconds(nanoseconds) }

  predicate Reachable(last: Snapshot, u: Update) { Within(last.pos, u.pos, Reach(u.time - last.time)) }

  function RecordsAfter(records: Snapshots, u: Update): Snapshots {
    match u.kind
    case DEAD => records - {u.playerID}
    case FIRE => records
    case POSITION => records[u.playerID := Snapshot(u.time, u.pos, u.angle)]
  }

  /** The queue with its map after pruning at the delivery. */
  function PrunedAt(s: State, d: Delivery): State {
    var history := PrunedHistory(s.history, Fence(d.pruneNow));
    s.(history := history, historyMap := Nonces(history))
  }

  /** The delivery gets past the staleness check and the map of nonces. */
  predicate Records(s: State, d: Delivery) { !Stale(d) && d.update.nonce !in PrunedAt(s, d).historyMap }

  /** The delivery reaches the output channels. */
  predicate Accepts(local: uint64, s: State, d: Delivery) { Records(s, d) && Plausible(local, s.records, d.update) }

  function Enqueued(s: State, u: Update): State {
    s.(history := s.history + [u], historyMap := s.historyMap + {u.nonce})
  }

  /** The effect of validating the update: it is recorded and passed on to both channels, or dropped. */
  function Judged(local: uint64, s: State, u: Update): State {
    if Plausible(local, s.records, u)
    then s.(records := RecordsAfter(s.records, u), shown := s.shown + [u], sent := s.sent + [u])
    else s
  }

  /** The state after one iteration. */
  function Handled(local: uint64, s: State, d: Delivery): State {
    if Stale(d) then s
    else if !Records(s, d) then PrunedAt(s, d)
    else Judged(local, Enqueued(PrunedAt(s, d), d.update), d.update)
  }

  /** The state after n iterations. */
  function After(local: uint64, s: State, ds: seq<Delivery>, n: nat): State
    requires n <= |ds|
  {
    if n == 0 then s else Handled(local, After(local, s, ds, n - 1), ds[n - 1])
  }

  class PlayerRecord {
    const ID: uint64
    var Time: int
    var Pos: Vec
    var Angle: real

    constructor (id: uint64)
      ensures ID == id
    {
      ID := id;
      Time, Pos, Angle := 0, Vec(0.0, 0.0), 0.0;
    }

    function Value(): Snapshot
      reads this
    {
      Snapshot(Time, Pos, Angle)
    }

    method Accept(update: Update)
      modifies this
      ensures Value() == if update.kind.POSITION? then Snapshot(update.time, update.pos, update.angle)
                         else old(Value()).(time := update.time)
    {
      Time := update.time;
      if update.kind.POSITION? {
        Pos := update.pos;
        Angle := update.angle;
      }
    }
  }

  class RecordWorker {
    const localID: uint64
    var records: map<uint64, PlayerRecord>
    var history: seq<Update>
    var historyMap: set<uint64>
    var updateChannel: seq<Update>
    var outgoingUpdates: seq<Update>

    constructor (localID: uint64)
      ensures this.localID == localID && Valid() && View() == INITIAL && records == map[]
    {
      this.localID := localID;
      records, history, historyMap, updateChannel, outgoingUpdates := map[], [], {}, [], [];
      new;
      assert Snapshots() == map[];
    }

    /** Each player has a record of its own. */
    ghost predicate Separate()
      reads this
    {
      forall id {:trigger records[id]} :: id in records ==> records[id].ID == id
    }

    ghost predicate Valid()
      reads this
    {
      Separate() && Indexed(history, historyMap)
    }

    ghost function Snapshots(): Snapshots
      reads this, records.Values
    {
      map id | id in records :: records[id].Value()
    }

    ghost function View(): State
      reads this, records.Values
    {
      State(Snapshots(), history, historyMap, updateChannel, outgoingUpdates)
    }

    /** Drops updates from the front of the queue, and their nonces from the map, as long as they are too old. */
    method PruneHistory(now: int)
      requires Indexed(history, historyMap)
      modifies this`history, this`historyMap
      ensures history == PrunedHistory(old(history), Fence(now))
      ensures Indexed(history, historyMap)
    {
      var fence := Fence(now);
      while |history| > 0
        invariant Indexed(history, historyMap)
        invariant PrunedHistory(history, fence) == PrunedHistory(old(history), fence)
        decreases |history|
      {
        if history[0].time < fence {
          DropFirst(history, fence);
          historyMap := historyMap - {history[0].nonce};
          history := history[1..];
        } else {
          break;
        }
      }
    }

    /** Stores the position, in a new record if the player has none. */
    method AcceptPosition(update: Update)
      requires Separate() && update.kind.POSITION?
      modifies this`records, records.Values
      ensures Separate()
      ensures fresh(records.Values - old(records.Values))
      ensures Snapshots() == RecordsAfter(old(Snapshots()), update)
    {
      ghost var before := Snapshots();
      var id := update.playerID;
      if id !in records {
        var record := new PlayerRecord(id);
        records := records[id := record];
      }
      records[id].Accept(update);
      assert Snapshots() == RecordsAfter(before, update);
    }

    method Remove(id: uint64)
      requires Separate()
      modifies this`records
      ensures Separate() && records == old(records) - {id}
      ensures Snapshots() == old(Snapshots()) - {id}
    {
      records := records - {id};
      assert Snapshots() == old(Snapshots()) - {id};
    }

    /** The validation of one update, and its effect on the records. */
    method Validate(update: Update) returns (accepted: bool)
      requires Separate()
      modifies this`records, records.Values
      ensures Separate()
      ensures fresh(records.Values - old(records.Values))
      ensures accepted == Plausible(localID, old(Snapshots()), update)
      ensures update.kind == DEAD ==> accepted
      ensures update.kind == FIRE && update.playerID == localID ==> accepted
      ensures update.kind == FIRE && update.playerID != localID && update.playerID !in old(records) ==> !accepted
      ensures update.kind == POSITION && (update.playerID == localID || update.playerID !in old(records)) ==>
        (accepted <==> 0.0 <= update.pos.x <= 1024.0 && 0.0 <= update.pos.y <= 668.0)
      ensures Snapshots() == if accepted then RecordsAfter(old(Snapshots()), update) else old(Snapshots())
    {
      match update.kind {
        case DEAD =>
          Remove(update.playerID);
          return true;
        case FIRE =>
          if update.playerID == localID {
            return true;
          }
          if update.playerID !in records {
            return false;
          }
          var record := records[update.playerID];
          assert Snapshots()[update.playerID] == record.Value();
          return ShotNear(record.Value(), update);
        case POSITION =>
          if !InWindow(update.pos) {
            return false;
          }
          if update.playerID in records && update.playerID != localID {
            var record := records[update.playerID];
            assert Snapshots()[update.playerID] == record.Value();
            if !Within(record.Pos, update.pos, Reach(update.time - record.Time)) {
              return false;
            }
          }
          AcceptPosition(update);
          return true;
      }
    }

    method Judge(update: Update)
      requires Separate()
      modifies this`records, this`updateChannel, this`outgoingUpdates, records.Values
      ensures Separate() && fresh(records.Values - old(records.Values))
      ensures View() == Judged(localID, old(View()), update)
    {
      var accepted := Validate(update);
      if accepted {
        updateChannel := updateChannel + [update];
        outgoingUpdates := outgoingUpdates + [update];
      }
    }

    /** Writes down that the update has been seen. */
    method Enqueue(update: Update)
      requires Indexed(history, historyMap) && update.nonce !in historyMap
      modifies this`history, this`historyMap
      ensures Indexed(history, historyMap)
      ensures View() == Enqueued(old(View()), update)
    {
      EnqueueKeepsIndexed(history, historyMap, update);
      historyMap := historyMap + {update.nonce};
      history := history + [update];
      assert Snapshots() == old(Snapshots());
    }

    /** One iteration of the worker's loop. */
    method Handle(d: Delivery)
      requires Valid()
      modifies this, records.Values
      ensures Valid() && fresh(records.Values - old(records.Values))
      ensures View() == Handled(localID, old(View()), d)
    {
      var update := d.update;
      if update.time < d.staleNow + TIME_DELTA {
        return;
      }
      PruneHistory(d.pruneNow);
      assert View() == PrunedAt(old(View()), d);
      if update.nonce in historyMap {
        return;
      }
      Enqueue(update);
      Judge(update);
    }

    /** The loop, for as many updates as there are. */
    method Work(inbox: seq<Delivery>)
      requires Valid()
      modifies this, records.Values
      ensures Valid() && fresh(records.Values - old(records.Values))
      ensures View() == After(localID, old(View()), inbox, |inbox|)
    {
      var i := 0;
      while i < |inbox|
        invariant 0 <= i <= |inbox|
        invariant Valid() && fresh(records.Values - old(records.Values))
        invariant View() == After(localID, old(View()), inbox, i)
      {
        Handle(inbox[i]);
        i := i + 1;
      }
    }
  }

  lemma EnqueueKeepsIndexed(history: seq<Update>, historyMap: set<uint64>, u: Update)
    requires Indexed(history, historyMap) && u.nonce !in historyMap
    ensures Indexed(history + [u], historyMap + {u.nonce})
  {
    assert forall i :: 0 <= i < |history| ==> history[i].nonce in Nonces(history);
    forall n ensures n in Nonces(history + [u]) <==> n in historyMap + {u.nonce} {
      if n in Nonces(history) {
        var v :| v in history && v.nonce == n;
        assert v in history + [u];
      }
      assert u in history + [u];
    }
  }

  lemma DropFirst(history: seq<Update>, fence: int)
    requires |history| > 0 && history[0].time < fence && DistinctNonces(history)
    ensures PrunedHistory(history[1..], fence) == PrunedHistory(history, fence)
    ensures Nonces(history[1..]) == Nonces(history) - {history[0].nonce}
    ensures DistinctNonces(history[1..])
  {
    NoncesOfRest(history);
    assert OlderPrefix(history, fence) == 1 + OlderPrefix(history[1..], fence);
  }

  lemma NoncesOfRest(history: seq<Update>)
    requires |history| > 0 && DistinctNonces(history)
    ensures Nonces(history[1..]) == Nonces(history) - {history[0].nonce}
  {
    var rest := history[1..];
    forall u | u in rest ensures u.nonce != history[0].nonce {
      var i :| 0 <= i < |rest| && rest[i] == u;
      assert history[i + 1] == u;
    }
    assert history == [history[0]] + rest;
  }
}
