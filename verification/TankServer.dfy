/** The server's handlers, each proved to be one step of the protocol. */
module Server {
  import opened Base
  import opened Clients
  import opened World

  datatype ServerError =
    | InvalidClient(id: uint64)
    | DisplayNameInUse(name: string)
    | KeyUnavailable(key: uint64)
    | AlreadyConnected

  /** Fatal stands for log.Fatal, for a nil dereference and for unlocking an unlocked mutex: the server process ends. */
  datatype Outcome<+T> = Reply(value: T) | Failure(error: ServerError) | Fatal

  class TankServer {
    var connections: map<uint64, Connection>
    var displayNames: set<string>
    var keyToClients: map<uint64, seq<uint64>>
    const Clock: ClockManager
    /** The client processes at the far ends of the rpc channels. */
    var network: map<uint64, ClientProcess>

    ghost function Stores(): map<uint64, KVMap>
      reads this`network, network.Values`kvMap
    {
      map id | id in network :: network[id].kvMap
    }

    ghost function ClientOffsets(): map<uint64, int>
      reads this`network, network.Values`clockOffset
    {
      map id | id in network :: network[id].clockOffset
    }

    /** The abstract state. */
    ghost function View(): State
      reads this, Clock, network.Values`kvMap, network.Values`clockOffset
    {
      State(connections, displayNames, keyToClients, Stores(), ClientOffsets(), Clock.offset)
    }

    /** Different ids lead to different processes. */
    ghost predicate Separate()
      reads this`network
    {
      forall id :: id in network ==> network[id].id == id
    }

    /** A non-nil rpc channel leads to the process with the connection's id. */
    ghost predicate Linked()
      reads this`connections, this`network
    {
      forall c :: Attached(connections, c) ==> connections[c].rpcClient.value == c && c in network
    }

    lemma ValidHandlesLink()
      requires View().ValidHandles()
      ensures Linked()
    {
      assert Stores().Keys == network.Keys;
      forall c | Attached(connections, c) ensures connections[c].rpcClient.value == c && c in network {
        assert View().ValidHandlesOf(c);
      }
    }

    /** In every state that a run of the server reaches, the handlers' preconditions on channels and holders hold. */
    lemma ReachedMeetsRequires(ws: seq<State>, es: seq<Event>, i: nat, key: uint64)
      requires Run(ws, es) && i < |ws| && View() == ws[i]
      ensures Linked()
      ensures NoDups(HoldersIn(keyToClients, key)) && forall h :: h in HoldersIn(keyToClients, key) ==> h in connections
    {
      RunHandlesValid(ws, es, i);
      ValidHandlesLink();
      RunHoldersValid(ws, es, i, key);
      assert ws[i].ValidHolders(key);
    }

    constructor ()
      ensures Separate() && View() == INITIAL && fresh(Clock)
    {
      connections, displayNames, keyToClients, network := map[], {}, map[], map[];
      Clock := new ClockManager();
      new;
      assert View() == INITIAL;
    }

    method Register(displayName: string, clientID: uint64) returns (result: Outcome<(uint64, string)>)
      modifies this`connections, this`displayNames
      ensures RegisterStep(old(View()), displayName, clientID, View())
      ensures result == if displayName in old(displayNames) then Failure(DisplayNameInUse(displayName))
                        else Reply((clientID, displayName))
    {
      if displayName in displayNames {
        return Failure(DisplayNameInUse(displayName));
      }
      displayNames := displayNames + {displayName};
      connections := connections[clientID := Connection(NOTINGAME, displayName, "", None, "", None, 0, NO_PEER)];
      return Reply((clientID, displayName));
    }

    /** One accepted connection of awaitClientConnections; the process sends its own id. */
    method AttachClient(process: ClientProcess) returns (result: Outcome<()>)
      requires Separate()
      modifies this`connections, this`network
      ensures result.Fatal? <==> process.id !in old(connections)
      ensures !result.Fatal? ==>
        Separate() && network == old(network)[process.id := process] &&
        AttachStep(old(View()), process.id, process.kvMap, process.clockOffset, View())
    {
      if process.id !in connections {
        return Fatal;
      }
      connections := connections[process.id := connections[process.id].(rpcClient := Some(process.id))];
      network := network[process.id := process];
      assert Stores() == old(Stores())[process.id := process.kvMap];
      assert ClientOffsets() == old(ClientOffsets())[process.id := process.clockOffset];
      return Reply(());
    }

    /** Ranges over the connections for a CONNECTED client other than clientID; any of them may come first. */
    method FindOtherConnected(clientID: uint64) returns (pick: Option<uint64>)
      ensures IsOtherConnected(connections, clientID, pick)
    {
      var rest := connections.Keys;
      while rest != {}
        invariant rest <= connections.Keys
        invariant forall id :: IsConnected(connections, id) && id !in rest ==> id == clientID
        decreases |rest|
      {
        var id :| id in rest;
        if id != clientID && connections[id].status == CONNECTED {
          return Some(id);
        }
        rest := rest - {id};
      }
      return None;
    }

    /** A rejected Connect unlocks the mutex twice. The second time Go ends the process, unless some other handler has
        taken the lock in the meantime: lockTaken says whether one has. */
    method Connect(peerInfo: PeerInfo, lockTaken: bool) returns (result: Outcome<nat>, ghost pick: Option<uint64>)
      modifies this`connections
      ensures ConnectStep(old(View()), peerInfo, pick, View())
      ensures result == if ConnectAccepted(old(connections), peerInfo.clientID) then Reply(2)
                        else if !lockTaken then Fatal
                        else if peerInfo.clientID in old(connections) then Failure(AlreadyConnected)
                        else Failure(InvalidClient(peerInfo.clientID))
    {
      pick := None;
      var clientID := peerInfo.clientID;
      if clientID !in connections {
        return if lockTaken then Failure(InvalidClient(clientID)) else Fatal, pick;
      }
      var c := connections[clientID];
      if c.status == CONNECTED {
        return if lockTaken then Failure(AlreadyConnected) else Fatal, pick;
      }
      var partner := NO_PEER;
      var found := FindOtherConnected(clientID);
      if found.Some? {
        var otherC := connections[found.value];
        partner := PeerInfo(otherC.address, otherC.rpcAddress, found.value, otherC.displayName);
      }
      connections := connections[clientID := Connection(CONNECTED, peerInfo.displayName, peerInfo.address, c.rpcClient,
                                                        peerInfo.rpcAddress, None, 0, partner)];
      return Reply(MIN_PEER_CONNECTIONS), found;
    }

    method Disconnect(clientID: uint64) returns (result: Outcome<bool>)
      modifies this`connections
      ensures DisconnectStep(old(View()), clientID, View())
      ensures result == if clientID in old(connections) then Reply(true) else Failure(InvalidClient(clientID))
    {
      if clientID !in connections {
        return Failure(InvalidClient(clientID));
      }
      connections := connections[clientID := connections[clientID].(status := NOTINGAME)];
      return Reply(true);
    }

    /** Finds the client a new partner if it needs one and there is one. */
    method RefreshPartner(clientID: uint64) returns (ghost pick: Option<uint64>)
      requires clientID in connections
      modifies this`connections
      ensures IsOtherConnected(old(connections), clientID, pick)
      ensures connections == old(connections)[clientID := old(connections)[clientID].(
        partner := PartnerAfter(old(connections), clientID, pick))]
    {
      var found := FindOtherConnected(clientID);
      var p := connections[clientID].partner.clientID;
      if p !in connections || connections[p].status == DISCONNECTED {
        if found.Some? {
          var c := connections[found.value];
          connections := connections[clientID := connections[clientID].(
            partner := PeerInfo(c.address, c.rpcAddress, found.value, c.displayName))];
        }
      }
      pick := found;
    }

    method PeersAndPromotion(clientID: uint64) returns (peerAddresses: seq<PeerInfo>)
      requires clientID in connections
      modifies this`connections
      ensures var conns, partner := old(connections), old(connections)[clientID].partner;
        && peerAddresses == (if IsConnected(conns, partner.clientID) then [partner] else [])
        && connections == conns[clientID := conns[clientID].(
             status := if conns[clientID].status.RECONNECTED? then CONNECTED else conns[clientID].status)]
    {
      peerAddresses := [];
      var partner := connections[clientID].partner;
      if partner.clientID in connections && connections[partner.clientID].status == CONNECTED {
        peerAddresses := [partner];
      }
      if connections[clientID].status == RECONNECTED {
        connections := connections[clientID := connections[clientID].(status := CONNECTED)];
      }
    }

    method ServeNodes(clientID: uint64) returns (peerAddresses: seq<PeerInfo>, ghost pick: Option<uint64>)
      requires clientID in connections
      modifies this`connections
      ensures GetNodesChange(old(connections), clientID, pick, peerAddresses, connections)
    {
      pick := RefreshPartner(clientID);
      peerAddresses := PeersAndPromotion(clientID);
    }

    method GetNodes(clientID: uint64) returns (result: Outcome<seq<PeerInfo>>, ghost pick: Option<uint64>)
      modifies this`connections
      ensures clientID !in old(connections) ==> result == Failure(InvalidClient(clientID)) && View() == old(View())
      ensures clientID in old(connections) ==>
        result.Reply? && GetNodesStep(old(View()), clientID, pick, result.value, View())
      ensures clientID in old(connections) ==>
        clientID in connections
        && AnswersNodes(old(connections), clientID, result.value, connections[clientID].partner)
    {
      pick := None;
      if clientID !in connections {
        return Failure(InvalidClient(clientID)), pick;
      }
      var peerAddresses;
      peerAddresses, pick := ServeNodes(clientID);
      NodesAnswered(old(connections), clientID, pick, peerAddresses, connections);
      result := Reply(peerAddresses);
    }

    method NotifyFailure(clientID: uint64) returns (ack: bool)
      modifies this`connections
      ensures ack && NotifyFailureStep(old(View()), clientID, View())
    {
      if clientID in connections && connections[clientID].status == CONNECTED {
        connections := connections[clientID := connections[clientID].(status := DISCONNECTED)];
      }
      return true;
    }

    method RecoverDisconnected(answered: set<uint64>) returns (panics: bool)
      modifies this`connections
      ensures panics <==> !MonitorSafe(old(connections))
      ensures !panics ==> MonitorChange(old(connections), answered, connections)
    {
      ghost var conns := connections;
      var rest := connections.Keys;
      while rest != {}
        invariant rest <= connections.Keys == conns.Keys
        invariant forall id :: id in conns && id !in rest && conns[id].status.DISCONNECTED? ==> conns[id].client.Some?
        invariant forall id :: id in rest ==> connections[id] == conns[id]
        invariant forall id :: id in conns && id !in rest ==> connections[id] == Recovered(conns[id], id in answered)
        decreases |rest|
      {
        var id :| id in rest;
        if connections[id].status == DISCONNECTED {
          if connections[id].client.None? {
            assert IsDisconnected(conns, id);
            return true;
          }
          if id in answered {
            connections := connections[id := connections[id].(status := RECONNECTED)];
          }
        }
        rest := rest - {id};
      }
      return false;
    }

    /** One round of monitorConnections; answered are the clients whose Recover succeeds. */
    method MonitorTick(answered: set<uint64>) returns (result: Outcome<()>)
      modifies this`connections
      ensures result.Fatal? <==> !MonitorSafe(old(connections))
      ensures !result.Fatal? ==> result == Reply(()) && MonitorStep(old(View()), answered, View())
      ensures !result.Fatal? ==> connections.Keys == old(connections).Keys && forall id :: id in connections ==>
        var c := old(connections)[id];
        connections[id] == c.(status := if c.status == DISCONNECTED && id in answered then RECONNECTED else c.status)
    {
      var panics := RecoverDisconnected(answered);
      result := if panics then Fatal else Reply(());
    }

    /** What the caller gets when client h is the one that is asked. */
    ghost predicate IsAnswerOf(h: uint64, client: uint64, key: uint64, result: Outcome<GetReply>)
      requires h in connections && Linked()
      reads this`connections, this`network, network.Values`kvMap
    {
      result == if h == client then Reply(HasAlready)
                else if connections[h].rpcClient.None? then Fatal
                else Reply(Found(if key in network[h].kvMap then network[h].kvMap[key] else Stats(0, 0)))
    }

    method KVGet(client: uint64, key: uint64) returns (result: Outcome<GetReply>)
      requires Linked()
      ensures result == match ReplyTo(View(), client, key)
                        case Unavailable => Failure(KeyUnavailable(key))
                        case HasAlready => Reply(HasAlready)
                        case Found(v) =>
                          if Attached(connections, Chosen(View(), key).value) then Reply(Found(v)) else Fatal
      ensures var ids := HoldersIn(keyToClients, key);
        if NoneConnected(connections, ids) then result == Failure(KeyUnavailable(key))
        else exists p, h :: IsLastConnected(connections, ids, p, h) && IsAnswerOf(h, client, key, result)
    {
      var holders := if key in keyToClients then keyToClients[key] else [];
      var latestOnline: Option<uint64> := None;
      ghost var p: nat := 0;
      for i := 0 to |holders|
        invariant latestOnline.None? ==> NoneConnected(connections, holders[..i])
        invariant latestOnline.Some? ==> IsLastConnected(connections, holders[..i], p, latestOnline.value)
        invariant var held := ConnectedAmong(connections, holders[..i]);
          latestOnline == if held == [] then None else Some(held[|held| - 1])
      {
        assert holders[..i + 1][..i] == holders[..i];
        if holders[i] in connections && connections[holders[i]].status == CONNECTED {
          latestOnline, p := Some(holders[i]), i;
        }
      }
      assert holders[..|holders|] == holders;
      if latestOnline.None? {
        return Failure(KeyUnavailable(key));
      }
      if latestOnline.value == client {
        return Reply(HasAlready);
      }
      ConnectedAmongFacts(connections, holders);
      assert IsConnected(connections, latestOnline.value);
      var connection := connections[latestOnline.value];
      if connection.rpcClient.None? {
        return Fatal;
      }
      assert Attached(connections, latestOnline.value);
      var value := network[connection.rpcClient.value].KVClientGet(key);
      return Reply(Found(value));
    }

    method ConnectedHolders(key: uint64) returns (clients: seq<uint64>)
      requires forall h :: h in HoldersIn(keyToClients, key) ==> h in connections
      ensures clients == ConnectedAmong(connections, HoldersIn(keyToClients, key))
    {
      var clientsTmp := if key in keyToClients then keyToClients[key] else [];
      clients := [];
      for i := 0 to |clientsTmp|
        invariant clients == ConnectedAmong(connections, clientsTmp[..i])
      {
        assert clientsTmp[..i + 1][..i] == clientsTmp[..i];
        assert clientsTmp[i] in clientsTmp;
        if connections[clientsTmp[i]].status == CONNECTED {
          clients := clients + [clientsTmp[i]];
        }
      }
      assert clientsTmp[..|clientsTmp|] == clientsTmp;
    }

    method Candidates(clients: seq<uint64>) returns (candidates: seq<uint64>)
      ensures NoDups(candidates)
      ensures forall id :: id in candidates <==> IsConnected(connections, id) && id !in clients
    {
      candidates := [];
      var rest := connections.Keys;
      while rest != {}
        invariant rest <= connections.Keys
        invariant NoDups(candidates)
        invariant forall id :: id in candidates <==> IsConnected(connections, id) && id !in clients && id !in rest
        decreases |rest|
      {
        var clientId :| clientId in rest;
        if connections[clientId].status == CONNECTED {
          var alreadyThere := clientId in clients;
          if !alreadyThere {
            candidates := candidates + [clientId];
          }
        }
        rest := rest - {clientId};
      }
    }

    /** rand.Perm: some permutation of 0..n-1, the random index of each round being arbitrary. */
    method Perm(n: nat) returns (perm: seq<nat>)
      ensures |perm| == n && NoDups(perm) && forall i :: 0 <= i < n ==> perm[i] < n
    {
      perm := [];
      for i := 0 to n
        invariant |perm| == i && NoDups(perm)
        invariant forall k :: 0 <= k < i ==> perm[k] < i
      {
        var j: nat :| j <= i;
        perm := if j < i then perm[j := i] + [perm[j]] else perm + [i];
      }
    }

    /** The first n candidates in a random order. */
    method PickAtRandom(candidates: seq<uint64>, n: nat) returns (picked: seq<uint64>)
      requires NoDups(candidates) && n <= |candidates|
      ensures |picked| == n && NoDups(picked) && forall p :: p in picked ==> p in candidates
    {
      var perm := Perm(|candidates|);
      picked := [];
      for i := 0 to n
        invariant |picked| == i && forall j :: 0 <= j < i ==> picked[j] == candidates[perm[j]]
      {
        picked := picked + [candidates[perm[i]]];
      }
    }

    /** Adds randomly chosen clients when there are not enough replicas. */
    method ExtendReplicas(held: seq<uint64>) returns (clients: seq<uint64>)
      requires NoDups(held) && forall h :: h in held ==> IsConnected(connections, h)
      ensures ExtendsHeld(connections, held, clients)
      ensures |held| >= 3 ==> clients == held
      ensures |held| < 3 <= |ConnectedOf(connections)| ==> |clients| == 3
      ensures |ConnectedOf(connections)| < 3 ==> Elements(clients) == ConnectedOf(connections)
    {
      HeldAmongConnected(connections, held);
      var curReplicas := |held|;
      if curReplicas < 3 {
        var candidates := Candidates(held);
        CandidateCount(connections, held, candidates);
        var numRequired := Min(3 - curReplicas, |candidates|);
        var picked := PickAtRandom(candidates, numRequired);
        NoDupsConcat(held, picked);
        clients := held + picked;
      } else {
        clients := held;
      }
      AllConnectedChosen(connections, clients);
    }

    lemma HeldAmongConnected(conns: Connections, held: seq<uint64>)
      requires NoDups(held) && forall h :: h in held ==> IsConnected(conns, h)
      ensures |held| <= |ConnectedOf(conns)|
    {
      NoDupsCardinality(held);
      assert Elements(held) <= ConnectedOf(conns);
      assert ConnectedOf(conns) == (ConnectedOf(conns) - Elements(held)) + Elements(held);
    }

    lemma AllConnectedChosen(conns: Connections, clients: seq<uint64>)
      requires NoDups(clients) && forall c :: c in clients ==> IsConnected(conns, c)
      ensures |clients| >= |ConnectedOf(conns)| ==> Elements(clients) == ConnectedOf(conns)
    {
      NoDupsCardinality(clients);
      assert Elements(clients) <= ConnectedOf(conns);
      assert ConnectedOf(conns) == Elements(clients) + (ConnectedOf(conns) - Elements(clients));
    }

    lemma CandidateCount(conns: Connections, held: seq<uint64>, candidates: seq<uint64>)
      requires NoDups(held) && NoDups(candidates) && forall h :: h in held ==> IsConnected(conns, h)
      requires forall id :: id in candidates <==> IsConnected(conns, id) && id !in held
      ensures |candidates| == |ConnectedOf(conns)| - |held|
    {
      NoDupsCardinality(held);
      NoDupsCardinality(candidates);
      assert ConnectedOf(conns) == Elements(candidates) + Elements(held);
    }

    method ChooseTargets(key: uint64) returns (clients: seq<uint64>)
      requires NoDups(HoldersIn(keyToClients, key)) && forall h :: h in HoldersIn(keyToClients, key) ==>
          h in connections
      ensures IsTargets(connections, keyToClients, key, clients)
    {
      ConnectedAmongFacts(connections, HoldersIn(keyToClients, key));
      var held := ConnectedHolders(key);
      clients := ExtendReplicas(held);
    }

    /** Adds the client to the key's list unless it is there. */
    method RecordHolder(key: uint64, clientId: uint64)
      modifies this`keyToClients
      ensures keyToClients == AddHolder(old(keyToClients), key, clientId)
    {
      var ids := if key in keyToClients then keyToClients[key] else [];
      var found := false;
      for i := 0 to |ids|
        invariant found <==> clientId in ids[..i]
      {
        assert ids[..i + 1] == ids[..i] + [ids[i]];
        found := found || ids[i] == clientId;
      }
      assert ids[..|ids|] == ids;
      if !found {
        keyToClients := keyToClients[key := ids + [clientId]];
      }
    }

    /** One round of the write loop: the KVClientPut call and the bookkeeping. */
    method StoreOn(clientId: uint64, key: uint64, value: Stats)
      requires Separate() && clientId in network
      modifies this`keyToClients, network.Values`kvMap, network.Values`files
      ensures Stores() == Written(old(Stores()), key, value, [clientId])
      ensures keyToClients == AddHolder(old(keyToClients), key, clientId)
    {
      network[clientId].KVClientPut(key, value);
      assert Stores() == Written(old(Stores()), key, value, [clientId]);
      RecordHolder(key, clientId);
    }

    lemma OneMoreTarget(stores: map<uint64, KVMap>, holders: map<uint64, seq<uint64>>, key: uint64, value: Stats,
                        done: seq<uint64>, c: uint64)
      ensures Written(Written(stores, key, value, done), key, value, [c]) == Written(stores, key, value, done + [c])
      ensures AddHolder(AddHolders(holders, key, done), key, c) == AddHolders(holders, key, done + [c])
    {
      forall id | id in stores
        ensures Written(Written(stores, key, value, done), key, value, [c])[id] == Written(stores, key, value,
            done + [c])[id]
      {
      }
      assert (done + [c])[..|done|] == done;
    }

    /** Sends the pair to each client and records the new holders. */
    method StoreOnClients(key: uint64, value: Stats, clients: seq<uint64>) returns (result: Outcome<()>)
      requires Separate() && Linked()
      requires forall c :: c in clients ==> c in connections
      modifies this`keyToClients, network.Values`kvMap, network.Values`files
      ensures result.Fatal? <==> !AllAttached(connections, clients)
      ensures !result.Fatal? ==> result == Reply(())
                                 && keyToClients == AddHolders(old(keyToClients), key, clients)
                                 && Stores() == Written(old(Stores()), key, value, clients)
    {
      ghost var stores, holders := Stores(), keyToClients;
      ghost var done: seq<uint64> := [];
      for i := 0 to |clients|
        invariant done == clients[..i]
        invariant AllAttached(connections, done)
        invariant keyToClients == AddHolders(holders, key, done)
        invariant Stores() == Written(stores, key, value, done)
      {
        var clientId := clients[i];
        var connection := connections[clientId];
        if connection.rpcClient.None? {
          assert !Attached(connections, clientId);
          return Fatal;
        }
        assert Attached(connections, clientId);
        StoreOn(connection.rpcClient.value, key, value);
        OneMoreTarget(stores, holders, key, value, done, clientId);
        done := done + [clientId];
      }
      assert done == clients;
      return Reply(());
    }

    /** Chooses the targets and writes to them. */
    method Replicate(key: uint64, value: Stats) returns (result: Outcome<()>, ghost targets: seq<uint64>)
      requires Separate() && Linked()
      requires NoDups(HoldersIn(keyToClients, key)) && forall h :: h in HoldersIn(keyToClients, key) ==>
          h in connections
      modifies this`keyToClients, network.Values`kvMap, network.Values`files
      ensures IsTargets(connections, old(keyToClients), key, targets)
      ensures result.Fatal? <==> !AllAttached(connections, targets)
      ensures !result.Fatal? ==> result == Reply(())
                                 && keyToClients == AddHolders(old(keyToClients), key, targets)
                                 && Stores() == Written(old(Stores()), key, value, targets)
    {
      var clients := ChooseTargets(key);
      targets := clients;
      assert forall c :: c in clients ==> IsConnected(connections, c);
      result := StoreOnClients(key, value, clients);
      assert IsTargets(connections, old(keyToClients), key, targets);
    }

    method KVPut(key: uint64, value: Stats) returns (result: Outcome<()>, ghost targets: seq<uint64>)
      requires Separate() && Linked()
      requires NoDups(HoldersIn(keyToClients, key)) && forall h :: h in HoldersIn(keyToClients, key) ==>
          h in connections
      modifies this`keyToClients, network.Values`kvMap, network.Values`files
      ensures IsTargets(connections, old(keyToClients), key, targets)
      ensures |ConnectedOf(connections)| >= 3 ==> |targets| >= 3
      ensures result.Fatal? <==> exists t :: t in targets && connections[t].rpcClient.None?
      ensures !result.Fatal? ==> result == Reply(()) && PutStep(old(View()), key, value, targets, View())
    {
      result, targets := Replicate(key, value);
      assert ClientOffsets() == old(ClientOffsets());
    }

    /** Asks one client for its time. */
    method MeasureClock(key: uint64, readings: map<uint64, Reading>) returns (clientOffset: int)
      requires key in connections && connections[key].rpcClient == Some(key) && key in network && key in readings
      modifies this`connections
      ensures connections == old(connections)[key := WithClient(old(connections)[key])]
      ensures clientOffset == MeasuredFor(key, Clock.offset, ClientOffsets(), readings)
    {
      var before := Clock.GetCurrentTime(readings[key].before);
      var connection := connections[key];
      connections := connections[key := connection.(client := connection.rpcClient)];
      var t := network[connection.rpcClient.value].TimeRequest(readings[key].client);
      var after := Clock.GetCurrentTime(readings[key].after);
      var clientTime := t + GoDiv(after - before, 2);
      return clientTime - after;
    }

    /** What the first loop of syncClocks has done when the clients in pending are left. */
    ghost predicate Measuring(conns: Connections, pending: set<uint64>, offset: int, clocks: map<uint64, int>,
                              readings: map<uint64, Reading>, c: Connections, m: map<uint64, int>, total: int,
                                  num: int) {
      && pending <= conns.Keys
      && c == WithClients(conns, pending)
      && m == MeasurementsOf(conns, pending, offset, clocks, readings)
      && total == offset + Sum(m) && num == |m| + 1
      && (forall id :: Unreachable(conns, id) ==> id in pending)
    }

    lemma MeasuringSkips(conns: Connections, pending: set<uint64>, key: uint64, offset: int, clocks: map<uint64, int>,
                         readings: map<uint64, Reading>, c: Connections, m: map<uint64, int>, total: int, num: int)
      requires Measuring(conns, pending, offset, clocks, readings, c, m, total, num) && key in pending
      ensures c[key] == conns[key]
      ensures !IsConnected(conns, key) ==> Measuring(conns, pending - {key}, offset, clocks, readings, c, m, total, num)
    {
    }

    lemma WithClientsAdds(conns: Connections, pending: set<uint64>, key: uint64)
      requires key in pending && pending <= conns.Keys && IsConnected(conns, key)
      ensures WithClients(conns, pending - {key}) == WithClients(conns, pending)[key := WithClient(conns[key])]
    {
    }

    lemma MeasurementsAdd(conns: Connections, pending: set<uint64>, key: uint64, offset: int, clocks: map<uint64, int>,
                          readings: map<uint64, Reading>)
      requires key in pending && pending <= conns.Keys && IsConnected(conns, key)
      ensures key !in MeasurementsOf(conns, pending, offset, clocks, readings)
      ensures MeasurementsOf(conns, pending - {key}, offset, clocks, readings)
           == MeasurementsOf(conns, pending, offset, clocks, readings)[
                key := MeasuredFor(key, offset, clocks, readings)]
    {
    }

    lemma MeasuringAdds(conns: Connections, pending: set<uint64>, key: uint64, offset: int, clocks: map<uint64, int>,
                        readings: map<uint64, Reading>, c: Connections, m: map<uint64, int>, total: int, num: int,
                        v: int)
      requires Measuring(conns, pending, offset, clocks, readings, c, m, total, num) && key in pending
      requires IsConnected(conns, key) && Attached(conns, key)
      requires v == MeasuredFor(key, offset, clocks, readings)
      ensures Measuring(conns, pending - {key}, offset, clocks, readings, c[key := WithClient(conns[key])], m[key := v],
                        total + v, num + 1)
    {
      WithClientsAdds(conns, pending, key);
      MeasurementsAdd(conns, pending, key, offset, clocks, readings);
      SumAdd(m, key, v);
    }

    /** The first loop of syncClocks. */
    method MeasureClocks(readings: map<uint64, Reading>)
      returns (fatal: bool, m: map<uint64, int>, offsetTotal: int, offsetNum: nat)
      requires Linked() && connections.Keys <= readings.Keys
      modifies this`connections
      ensures fatal ==> exists id :: Unreachable(old(connections), id)
      ensures !fatal ==>
        Measuring(old(connections), {}, old(Clock.offset), old(ClientOffsets()), readings, connections, m,
            offsetTotal, offsetNum)
    {
      ghost var conns, offset, clocks := connections, Clock.offset, ClientOffsets();
      m, offsetTotal, offsetNum := map[], Clock.offset, 1;
      var rest := connections.Keys;
      while rest != {}
        invariant Measuring(conns, rest, offset, clocks, readings, connections, m, offsetTotal, offsetNum)
        decreases rest
      {
        var key :| key in rest;
        MeasuringSkips(conns, rest, key, offset, clocks, readings, connections, m, offsetTotal, offsetNum);
        if connections[key].status == CONNECTED {
          if connections[key].rpcClient.None? {
            assert Unreachable(conns, key);
            return true, m, offsetTotal, offsetNum;
          }
          assert Attached(conns, key);
          ghost var c := connections;
          var clientOffset := MeasureClock(key, readings);
          MeasuringAdds(conns, rest, key, offset, clocks, readings, c, m, offsetTotal, offsetNum, clientOffset);
          m := m[key := clientOffset];
          offsetTotal := offsetTotal + clientOffset;
          offsetNum := offsetNum + 1;
        }
        rest := rest - {key};
      }
      assert rest == {};
      fatal := false;
    }

    /** Tells one client its new offset. */
    method CorrectClock(key: uint64, offset: int)
      requires Separate() && key in connections && connections[key].client == Some(key) && key in network
      modifies this`connections, network.Values`clockOffset
      ensures connections == old(connections)[key := old(connections)[key].(offset := offset)]
      ensures ClientOffsets() == old(ClientOffsets())[key := offset]
    {
      connections := connections[key := connections[key].(offset := offset)];
      network[connections[key].client.value].SetOffset(offset);
    }

    /** What the second loop of syncClocks has done when the clients in pending are left. */
    ghost predicate Correcting(conns: Connections, clocks: map<uint64, int>, pending: set<uint64>, m: map<uint64, int>,
                               average: int, c: Connections, offsets: map<uint64, int>) {
      && pending <= conns.Keys
      && c == WithOffsets(conns, pending, m, average)
      && offsets == Corrected(clocks, pending, m, average)
    }

    lemma CorrectingSteps(conns: Connections, clocks: map<uint64, int>, pending: set<uint64>, m: map<uint64, int>,
                          average: int, c: Connections, offsets: map<uint64, int>, key: uint64, offset: int)
      requires Correcting(conns, clocks, pending, m, average, c, offsets) && key in pending && key in clocks
      requires key in m && offset == average - m[key]
      ensures key in c
      ensures Correcting(conns, clocks, pending - {key}, m, average, c[key := c[key].(offset := offset)],
          offsets[key := offset])
    {
    }

    lemma CorrectingSkips(conns: Connections, clocks: map<uint64, int>, pending: set<uint64>, m: map<uint64, int>,
                          average: int, c: Connections, offsets: map<uint64, int>, key: uint64)
      requires Correcting(conns, clocks, pending, m, average, c, offsets) && key in pending
      ensures c[key] == conns[key]
      ensures key !in m ==> Correcting(conns, clocks, pending - {key}, m, average, c, offsets)
    {
    }

    /** The second loop of syncClocks: it only meets clients that the first loop measured. */
    method CorrectClocks(m: map<uint64, int>, average: int)
      requires Separate()
      requires forall id :: id in m <==> IsConnected(connections, id)
      requires forall id :: id in m ==> id in connections && connections[id].client == Some(id) && id in network
      modifies this`connections, network.Values`clockOffset
      ensures Correcting(old(connections), old(ClientOffsets()), {}, m, average, connections, ClientOffsets())
    {
      ghost var conns, clocks := connections, ClientOffsets();
      var rest := connections.Keys;
      while rest != {}
        invariant Correcting(conns, clocks, rest, m, average, connections, ClientOffsets())
        decreases rest
      {
        var key :| key in rest;
        ghost var c, offsets := connections, ClientOffsets();
        CorrectingSkips(conns, clocks, rest, m, average, c, offsets, key);
        if connections[key].status == CONNECTED {
          assert IsConnected(conns, key) && key in clocks;
          var offset := average - m[key];
          CorrectingSteps(conns, clocks, rest, m, average, c, offsets, key, offset);
          CorrectClock(key, offset);
        }
        rest := rest - {key};
      }
      assert rest == {};
    }

    lemma SyncFromLoops(w: State, readings: map<uint64, Reading>, c: Connections, m: map<uint64, int>, total: int,
                        num: int,
                        average: int, c': Connections, clocks': map<uint64, int>)
      requires Measuring(w.conns, {}, w.offset, w.clocks, readings, c, m, total, num)
      requires Correcting(c, w.clocks, {}, m, average, c', clocks') && average == AverageOf(w.offset, m)
      requires w.conns.Keys <= readings.Keys && forall id :: Attached(w.conns, id) ==> id in w.clocks
      ensures Synced(w, readings, c', clocks', average)
    {
      assert Measurable(w.conns, w.clocks, readings);
    }

    lemma AverageIs(offset: int, m: map<uint64, int>, total: int, num: int)
      requires total == offset + Sum(m) && num == |m| + 1
      ensures GoDiv(total, num) == AverageOf(offset, m)
    {
    }

    lemma MeasuredHaveChannels(w: State, readings: map<uint64, Reading>, c: Connections, m: map<uint64, int>,
                               total: int,
                               num: int)
      requires Measuring(w.conns, {}, w.offset, w.clocks, readings, c, m, total, num)
      requires forall id :: Attached(w.conns, id) ==> w.conns[id].rpcClient.value == id
      ensures forall id :: id in m <==> IsConnected(c, id)
      ensures forall id :: id in m ==> id in c && Attached(w.conns, id) && c[id].client == Some(id)
    {
      forall id | id in m ensures id in c && Attached(w.conns, id) && c[id].client == Some(id) {
        assert !Unreachable(w.conns, id);
      }
    }

    /** The two loops of syncClocks. */
    method SyncClients(readings: map<uint64, Reading>) returns (fatal: bool, average: int)
      requires Separate() && Linked() && connections.Keys <= readings.Keys
      modifies this`connections, network.Values`clockOffset
      ensures fatal ==> exists id :: Unreachable(old(connections), id)
      // As one value, so that the verifier does not take it apart.
      ensures var synced := Synced(old(View()), readings, connections, ClientOffsets(), average); !fatal ==> synced
    {
      ghost var w := View();
      average := 0;
      var m, offsetTotal, offsetNum;
      fatal, m, offsetTotal, offsetNum := MeasureClocks(readings);
      if !fatal {
        ghost var c := connections;
        MeasuredHaveChannels(w, readings, c, m, offsetTotal, offsetNum);
        assert ClientOffsets() == w.clocks;
        average := GoDiv(offsetTotal, offsetNum);
        CorrectClocks(m, average);
        AverageIs(w.offset, m, offsetTotal, offsetNum);
        SyncFromLoops(w, readings, c, m, offsetTotal, offsetNum, average, connections, ClientOffsets());
      }
    }

    method SyncAll(readings: map<uint64, Reading>) returns (fatal: bool, average: int)
      requires Separate() && Linked() && connections.Keys <= readings.Keys
      modifies this`connections, network.Values`clockOffset, Clock
      ensures fatal ==> exists id :: Unreachable(old(connections), id)
      ensures !fatal ==> Synced(old(View()), readings, connections, ClientOffsets(), average)
      ensures Clock.offset == old(Clock.offset) + average && Stores() == old(Stores())
    {
      fatal, average := SyncClients(readings);
      ghost var corrected := ClientOffsets();
      Clock.SetOffset(Clock.offset + average);
      assert ClientOffsets() == corrected;
      assert Stores() == old(Stores());
    }

    /** The synchronisation of a server that knows some client. */
    method SyncKnown(readings: map<uint64, Reading>) returns (fatal: bool)
      requires Separate() && Linked() && connections.Keys <= readings.Keys && |connections| > 0
      modifies this`connections, network.Values`clockOffset, Clock
      ensures fatal ==> exists id :: Unreachable(old(connections), id)
      // As one value, so that the verifier does not take the step apart.
      ensures var steps := SyncStep(old(View()), readings, View()); !fatal ==> steps
    {
      ghost var w := View();
      var average;
      fatal, average := SyncAll(readings);
      if !fatal {
        SyncStepFrom(w, readings, View(), average);
      }
    }

    lemma SyncStepFrom(w: State, readings: map<uint64, Reading>, w': State, average: int)
      requires |w.conns| > 0 && average == w'.offset - w.offset && Synced(w, readings, w'.conns, w'.clocks, average)
      requires w' == w.(conns := w'.conns, clocks := w'.clocks, offset := w'.offset)
      ensures var steps := SyncStep(w, readings, w'); steps
    {
    }

    method SyncClocks(readings: map<uint64, Reading>) returns (result: Outcome<()>)
      requires Separate() && Linked() && connections.Keys <= readings.Keys
      modifies this`connections, network.Values`clockOffset, Clock
      ensures result.Fatal? ==> exists id :: Unreachable(old(connections), id)
      ensures !result.Fatal? ==> result == Reply(()) && SyncStep(old(View()), readings, View())
    {
      if |connections| == 0 {
        return Reply(());
      }
      var fatal := SyncKnown(readings);
      result := if fatal then Fatal else Reply(());
    }
  }
}
