/** A client's table of peers, and the handlers that change it and pass updates and failures on. */
module Peers {
  import opened Base
  import opened Updates
  import World
  import FailureFlood
  import Graphs
  import WorkerNetwork

  datatype PeerRecord = PeerRecord(clientID: uint64, lastHeartbeat: int)

  /** The update that announces a removed peer: DeadPlayer, with its time and nonce. */
  function Death(clientID: uint64, stamp: (int, uint64)): Update {
    Update(DEAD, 0, 0, clientID, 0, Vec(0.0, 0.0), 0.0).Timestamp(stamp.0, stamp.1)
  }

  function PlayersOf(us: seq<Update>): set<uint64> { set u | u in us :: u.playerID }

  /** One death for each of the ids, with its stamp, in some order. */
  ghost predicate AreDeaths(us: seq<Update>, ids: set<uint64>, stamps: map<uint64, (int, uint64)>) {
    && |us| == |ids|
    && PlayersOf(us) == ids
    && forall u :: u in us ==> u.playerID in stamps && u == Death(u.playerID, stamps[u.playerID])
  }

  /** All known peers are kept as they were, and the others were added now. */
  ghost predicate Extends(before: map<uint64, PeerRecord>, after: map<uint64, PeerRecord>, now: int) {
    && before.Keys <= after.Keys
    && forall id {:trigger after[id]} :: id in after ==>
        after[id] == if id in before then before[id] else PeerRecord(id, now)
  }

  class PeerTable {
    /** NetworkSettings.UniqueUserID. */
    const self: uint64
    var peers: map<uint64, PeerRecord>
    /** What was put into the channel RecordUpdates. */
    var recordUpdates: seq<Update>
    /** The calls made to peers: NotifyUpdate, NotifyFailure by failed client, and Register. */
    var updateCalls: multiset<WorkerNetwork.Packet>
    var failureCalls: map<uint64, multiset<FailureFlood.Message>>
    var registerCalls: seq<uint64>
    /** The NotifyFailure calls made to the server. */
    var reported: seq<uint64>

    constructor (self: uint64)
      ensures this.self == self && Valid() && peers == map[] && recordUpdates == []
      ensures updateCalls == multiset{} && failureCalls == map[] && registerCalls == [] && reported == []
    {
      this.self := self;
      peers, recordUpdates, updateCalls := map[], [], multiset{};
      failureCalls, registerCalls, reported := map[], [], [];
    }

    ghost predicate Valid()
      reads this`peers
    {
      forall id {:trigger peers[id]} :: id in peers ==> peers[id].clientID == id
    }

    /** This client's part of the peer graph. */
    ghost function Tables(): map<uint64, set<uint64>>
      reads this`peers
    {
      map[self := peers.Keys]
    }

    /** The server named the client, it is not this one, and it can be reached. */
    predicate IsReachedOf(newPeers: seq<World.PeerInfo>, reached: set<uint64>, id: uint64) {
      id != self && id in reached && exists p :: p in newPeers && p.clientID == id
    }

    function FailureCalls(clientID: uint64): multiset<FailureFlood.Message>
      reads this`failureCalls
    {
      if clientID in failureCalls then failureCalls[clientID] else multiset{}
    }

    /** One iteration of OutgoingWorker: every peer but the player of the update gets a copy. */
    method Outgoing(update: Update)
      requires Valid()
      modifies this`updateCalls
      ensures updateCalls == old(updateCalls) + WorkerNetwork.Outgoing(Tables(), self, update)
    {
      var pending := peers.Keys;
      ghost var called: set<uint64> := {};
      while pending != {}
        invariant pending <= peers.Keys
        invariant called == peers.Keys - pending - {update.playerID}
        invariant updateCalls == old(updateCalls) + WorkerNetwork.Copies(called, update)
        decreases |pending|
      {
        var id :| id in pending;
        pending := pending - {id};
        if update.playerID != peers[id].clientID {
          WorkerNetwork.CopiesInsert(called, id, update);
          called := called + {id};
          updateCalls := updateCalls + multiset{WorkerNetwork.Packet(id, update)};
        }
      }
      assert called == Graphs.Neighbours(Tables(), update.playerID, self);
    }

    /** A peer's update goes to the worker. */
    method NotifyUpdate(update: Update)
      modifies this`recordUpdates
      ensures recordUpdates == old(recordUpdates) + [update]
    {
      recordUpdates := recordUpdates + [update];
    }

    /** Forgets a peer and tells the worker that the player is dead. */
    method RemovePeer(clientID: uint64, stamp: (int, uint64))
      requires Valid()
      modifies this`peers, this`recordUpdates
      ensures Valid() && peers == old(peers) - {clientID}
      ensures recordUpdates == old(recordUpdates) + if clientID in old(peers) then [Death(clientID, stamp)] else []
    {
      if clientID in peers {
        recordUpdates := recordUpdates + [Death(clientID, stamp)];
        peers := peers - {clientID};
      }
    }

    /** Tells all peers about the failed client. */
    method TellAll(clientID: uint64, ttl: nat)
      requires Valid()
      modifies this`failureCalls
      ensures FailureCalls(clientID) == old(FailureCalls(clientID)) + FailureFlood.ToAll(peers.Keys, ttl)
      ensures forall id :: id != clientID ==> FailureCalls(id) == old(FailureCalls(id))
    {
      var pending := peers.Keys;
      while pending != {}
        invariant pending <= peers.Keys
        invariant FailureCalls(clientID) == old(FailureCalls(clientID)) + FailureFlood.ToAll(peers.Keys - pending, ttl)
        invariant forall id :: id != clientID ==> FailureCalls(id) == old(FailureCalls(id))
        decreases |pending|
      {
        var id :| id in pending;
        FailureFlood.ToAllInsert(peers.Keys - pending, id, ttl);
        assert peers.Keys - (pending - {id}) == peers.Keys - pending + {id};
        pending := pending - {id};
        var call := FailureFlood.Message(peers[id].clientID, ttl);
        failureCalls := failureCalls[clientID := FailureCalls(clientID) + multiset{call}];
      }
      assert peers.Keys - {} == peers.Keys;
    }

    /** A peer reports a failed client. */
    method NotifyFailure(clientID: uint64, ttl: int, stamp: (int, uint64))
      requires Valid()
      modifies this`peers, this`recordUpdates, this`failureCalls
      ensures Valid() && peers == old(peers) - {clientID}
      ensures recordUpdates == old(recordUpdates) + if clientID in old(peers) then [Death(clientID, stamp)] else []
      ensures FailureCalls(clientID)
           == old(FailureCalls(clientID)) + FailureFlood.Forwarded(old(Tables()), clientID,
               FailureFlood.Message(self, Max(ttl, 0)))
      ensures forall id :: id != clientID ==> FailureCalls(id) == old(FailureCalls(id))
    {
      RemovePeer(clientID, stamp);
      assert peers.Keys == Graphs.Neighbours(old(Tables()), clientID, self);
      if ttl > 0 {
        TellAll(clientID, ttl - 1);
      }
    }

    /** This client has found that a peer does not answer. */
    method HandleDisconnection(clientID: uint64, stamp: (int, uint64))
      requires Valid()
      modifies this`peers, this`recordUpdates, this`failureCalls, this`reported
      ensures Valid() && peers == old(peers) - {clientID}
      ensures reported == old(reported) + [clientID]
      ensures recordUpdates == old(recordUpdates) + if clientID in old(peers) then [Death(clientID, stamp)] else []
      ensures FailureCalls(clientID) == old(FailureCalls(clientID))
           + FailureFlood.Initial(old(Tables()), clientID, self, FailureFlood.FAILURE_NOTIFICATION_TTL).inFlight
      ensures forall id :: id != clientID ==> FailureCalls(id) == old(FailureCalls(id))
    {
      reported := reported + [clientID];
      RemovePeer(clientID, stamp);
      assert peers.Keys == Graphs.Neighbours(old(Tables()), clientID, self);
      TellAll(clientID, FailureFlood.FAILURE_NOTIFICATION_TTL);
    }

    /** Adds the clients that the server named, if they can be reached, and registers with them. */
    method GetMorePeers(newPeers: seq<World.PeerInfo>, reached: set<uint64>, now: int)
      requires Valid()
      modifies this`peers, this`registerCalls
      ensures Valid() && Extends(old(peers), peers, now)
      ensures forall id :: id in peers.Keys - old(peers).Keys <==>
        id !in old(peers) && IsReachedOf(newPeers, reached, id)
      ensures self !in old(peers) ==> self !in peers
      ensures old(registerCalls) <= registerCalls && NoDups(registerCalls[|old(registerCalls)|..])
      ensures Elements(registerCalls[|old(registerCalls)|..]) == peers.Keys - old(peers).Keys
    {
      ghost var calls: seq<uint64> := [];
      assert newPeers[..0] == [];
      for i := 0 to |newPeers|
        invariant Valid() && Extends(old(peers), peers, now)
        invariant forall id :: id in peers.Keys - old(peers).Keys <==>
          id !in old(peers) && IsReachedOf(newPeers[..i], reached, id)
        invariant registerCalls == old(registerCalls) + calls && NoDups(calls)
        invariant Elements(calls) == peers.Keys - old(peers).Keys
      {
        var p := newPeers[i].clientID;
        assert newPeers[..i + 1] == newPeers[..i] + [newPeers[i]];
        if p in peers || p == self {
          continue;
        }
        if p !in reached {
          continue;
        }
        registerCalls := registerCalls + [p];
        assert p !in Elements(calls);
        calls := calls + [p];
        peers := peers[p := PeerRecord(p, now)];
      }
      assert newPeers[..|newPeers|] == newPeers;
      assert registerCalls[|old(registerCalls)|..] == calls;
    }

    /** One round of PeerWorker: it asks the server only while it has too few peers. */
    method PeerWorker(minimum: int, newPeers: seq<World.PeerInfo>, reached: set<uint64>, now: int)
      requires Valid()
      modifies this`peers, this`registerCalls
      ensures Valid() && Extends(old(peers), peers, now)
      ensures |old(peers)| >= minimum ==> peers == old(peers) && registerCalls == old(registerCalls)
      ensures |old(peers)| < minimum ==>
        forall id :: id in peers <==> id in old(peers) || IsReachedOf(newPeers, reached, id)
    {
      if |peers| < minimum {
        GetMorePeers(newPeers, reached, now);
      }
    }

    /** A client that has this one as a peer asks to be one of its peers. */
    method Register(clientID: uint64, now: int)
      requires Valid()
      modifies this`peers
      ensures Valid()
      ensures peers == if clientID in old(peers) then old(peers) else old(peers)[clientID := PeerRecord(clientID, now)]
    {
      if clientID in peers {
        return;
      }
      peers := peers[clientID := PeerRecord(clientID, now)];
    }

    method Heartbeat(clientID: uint64, now: int)
      requires Valid()
      modifies this`peers
      ensures Valid()
      ensures peers == if clientID in old(peers) then old(peers)[clientID := PeerRecord(clientID, now)] else old(peers)
    {
      if clientID in peers {
        peers := peers[clientID := peers[clientID].(lastHeartbeat := now)];
      }
    }

    /** The server asks this client to start over: it forgets all peers, and tells the worker that all of them are
        dead. */
    method Recover(stamps: map<uint64, (int, uint64)>) returns (ack: bool)
      requires Valid() && peers.Keys <= stamps.Keys
      modifies this`peers, this`recordUpdates
      ensures ack && peers == map[]
      ensures old(recordUpdates) <= recordUpdates
      ensures AreDeaths(recordUpdates[|old(recordUpdates)|..], old(peers).Keys, stamps)
    {
      ghost var start, known := recordUpdates, peers;
      ghost var removed: set<uint64>, deaths: seq<Update> := {}, [];
      while peers != map[]
        invariant Valid() && removed <= known.Keys && peers == known - removed
        invariant recordUpdates == start + deaths
        invariant AreDeaths(deaths, removed, stamps)
        decreases |peers|
      {
        var id :| id in peers;
        DeathAdded(deaths, removed, id, stamps);
        RemovalsAdd(known, removed, id);
        AppendAssociates(start, deaths, [Death(id, stamps[id])]);
        RemovePeer(id, stamps[id]);
        deaths, removed := deaths + [Death(id, stamps[id])], removed + {id};
      }
      AllRemoved(known, removed);
      assert recordUpdates[|old(recordUpdates)|..] == deaths;
      ack := true;
    }
  }

  lemma RemovalsAdd<T>(m: map<uint64, T>, removed: set<uint64>, id: uint64)
    ensures m - removed - {id} == m - (removed + {id})
  {
    var a, b := m - removed - {id}, m - (removed + {id});
    assert a.Keys == b.Keys == m.Keys - removed - {id};
  }

  lemma AllRemoved<T>(m: map<uint64, T>, removed: set<uint64>)
    requires removed <= m.Keys && m - removed == map[]
    ensures removed == m.Keys
  {
    assert m.Keys - removed == (m - removed).Keys == {};
    assert m.Keys == removed + (m.Keys - removed);
  }

  lemma AppendAssociates<T>(a: seq<T>, b: seq<T>, c: seq<T>)
    ensures (a + b) + c == a + (b + c)
  {
  }

  lemma DeathAdded(us: seq<Update>, ids: set<uint64>, id: uint64, stamps: map<uint64, (int, uint64)>)
    requires AreDeaths(us, ids, stamps) && id !in ids && id in stamps
    ensures AreDeaths(us + [Death(id, stamps[id])], ids + {id}, stamps)
  {
    var us' := us + [Death(id, stamps[id])];
    assert us'[|us|] in us';
    forall x | x in ids ensures x in PlayersOf(us') {
      var u :| u in us && u.playerID == x;
      assert u in us';
    }
  }
}

/** What becomes of a peer that was removed from the table: the death that the table announces goes through the worker
    to the screen and to the other peers. */
module RemovedPeers {
  import opened Base
  import opened Updates
  import opened Recording
  import opened AtMostOnce
  import Peers
  import Players

  /** A death announced within the last second under a new nonce is accepted. Then the player is neither on record nor
      on the screen, the death has been passed on, and nobody gets a kill for it unless the local id is 0, which stands
      for no cause. */
  lemma RemovedPeerDisappears(local: uint64, ds: seq<Delivery>, n: nat, clientID: uint64, time: int, nonce: uint64)
    requires n < |ds| && ds[n].update == Peers.Death(clientID, (time, nonce))
    requires time >= ds[n].staleNow - 1_000_000_000 && !SeenBefore(ds, n, nonce)
    ensures AcceptedAt(local, ds, n)
    ensures var s := After(local, INITIAL, ds, n + 1);
      && clientID !in s.records
      && clientID !in Players.PlayersAfterAll(local, map[], s.shown, |s.shown|)
      && s.sent == After(local, INITIAL, ds, n).sent + [ds[n].update]
    ensures Players.IsKillAt(local, ds, n) <==> local == 0 && clientID != 0
  {
    NewIsRecorded(local, ds, n);
    assert AcceptedAt(local, ds, n);
    Players.ScreenShowsRecords(local, ds, n + 1);
  }
}
