/** The four-status connection machine, over every run of the server. */
module ConnectionMachine {
  import opened Base
  import opened World
  import opened ReadLatest

  predicate Recovers(w: State, e: Event, id: uint64) {
    e.Monitor? && id in e.answered && IsDisconnected(w.conns, id)
  }

  predicate AsksForPeers(e: Event, id: uint64) { e.GetNodes? && e.id == id }

  predicate HasStatus(w: State, id: uint64, s: Status) { id in w.conns && w.conns[id].status == s }

  /** The only two ways to become CONNECTED, and the only way to become RECONNECTED. */
  lemma StatusChanges(ws: seq<State>, es: seq<Event>, i: nat, id: uint64)
    requires Run(ws, es) && i < |es|
    ensures ws[i + 1].Connected(id) && !ws[i].Connected(id) ==>
      Connects(ws[i], es[i], id) || (AsksForPeers(es[i], id) && HasStatus(ws[i], id, RECONNECTED))
    ensures HasStatus(ws[i + 1], id, RECONNECTED) && !HasStatus(ws[i], id, RECONNECTED) ==> Recovers(ws[i], es[i], id)
  {
    assert StepAt(ws, es, i);
  }

  /** The name of the Register call i was not used by an earlier one. */
  predicate NewName(es: seq<Event>, i: nat)
    requires i < |es| && es[i].Register?
  {
    forall k :: 0 <= k < i && es[k].Register? ==> es[k].name != es[i].name
  }

  predicate UsedBy(es: seq<Event>, i: nat, name: string)
    requires i <= |es|
  {
    exists k :: 0 <= k < i && es[k].Register? && es[k].name == name
  }

  lemma NamesStep(ws: seq<State>, es: seq<Event>, i: nat, name: string)
    requires Run(ws, es) && i < |es|
    ensures name in ws[i + 1].names <==> name in ws[i].names || (es[i].Register? && es[i].name == name)
  {
    assert StepAt(ws, es, i);
  }

  /** The names taken are those of all Register calls so far. */
  lemma {:induction false} NamesTaken(ws: seq<State>, es: seq<Event>, i: nat, name: string)
    requires Run(ws, es) && i < |ws|
    ensures name in ws[i].names <==> UsedBy(es, i, name)
  {
    if i > 0 {
      NamesTaken(ws, es, i - 1, name);
      NamesStep(ws, es, i - 1, name);
    }
  }

  /** The status of a client, None for an id that is not registered. */
  function StatusOf(w: State, id: uint64): Option<Status> {
    if id in w.conns then Some(w.conns[id].status) else None
  }

  /** The machine as a table: what event i makes of the status s of a client. */
  function NextStatus(es: seq<Event>, i: nat, id: uint64, s: Option<Status>): Option<Status>
    requires i < |es|
  {
    match es[i]
    case Register(_, x) => if x == id && NewName(es, i) then Some(NOTINGAME) else s
    case Connect(info, _) => if info.clientID == id && s.Some? then Some(CONNECTED) else s
    case Disconnect(x) => if x == id && s.Some? then Some(NOTINGAME) else s
    case GetNodes(x, _, _) => if x == id && s == Some(RECONNECTED) then Some(CONNECTED) else s
    case NotifyFailure(x) => if x == id && s == Some(CONNECTED) then Some(DISCONNECTED) else s
    case Monitor(answered) => if id in answered && s == Some(DISCONNECTED) then Some(RECONNECTED) else s
    case _ => s
  }

  lemma SyncKeepsStatus(w: State, readings: map<uint64, Reading>, w': State, id: uint64)
    requires SyncStep(w, readings, w')
    ensures StatusOf(w', id) == StatusOf(w, id)
  {
  }

  lemma StatusStep(w: State, e: Event, w': State, id: uint64)
    requires Step(w, e, w') && !e.Register?
    ensures StatusOf(w', id) == NextStatus([e], 0, id, StatusOf(w, id))
  {
    if e.SyncClocks? {
      SyncKeepsStatus(w, e.readings, w', id);
    }
  }

  /** Over every run, each client's status changes exactly as the table says. */
  lemma StatusTable(ws: seq<State>, es: seq<Event>, i: nat, id: uint64)
    requires Run(ws, es) && i < |es|
    ensures StatusOf(ws[i + 1], id) == NextStatus(es, i, id, StatusOf(ws[i], id))
  {
    assert StepAt(ws, es, i);
    if es[i].Register? {
      NamesTaken(ws, es, i, es[i].name);
    } else {
      StatusStep(ws[i], es[i], ws[i + 1], id);
    }
  }

  /** The two states differ at most in the statuses. */
  ghost predicate OnlyStatuses(w: State, w': State) {
    && w'.conns.Keys == w.conns.Keys
    && (forall x :: x in w.conns ==> w'.conns[x].(status := w.conns[x].status) == w.conns[x])
    && w'.(conns := w.conns) == w
  }

  /** A round of the monitor makes exactly those clients RECONNECTED that were DISCONNECTED and answered, besides those
      that were RECONNECTED before, and changes nothing else. */
  lemma MonitorRecovers(ws: seq<State>, es: seq<Event>, i: nat, id: uint64)
    requires Run(ws, es) && i < |es| && es[i].Monitor?
    ensures HasStatus(ws[i + 1], id, RECONNECTED) <==>
      HasStatus(ws[i], id, RECONNECTED) || (HasStatus(ws[i], id, DISCONNECTED) && id in es[i].answered)
    ensures HasStatus(ws[i + 1], id, DISCONNECTED) <==> HasStatus(ws[i], id, DISCONNECTED) && id !in es[i].answered
    ensures OnlyStatuses(ws[i], ws[i + 1])
  {
    assert StepAt(ws, es, i);
  }

  /** Between i and j the client neither leaves, nor is reported, nor registers anew. */
  ghost predicate Undisturbed(es: seq<Event>, i: nat, j: nat, id: uint64) {
    forall k :: i <= k < j && k < |es| ==> !Disturbs(es[k], id)
  }

  predicate Disturbs(e: Event, id: uint64) {
    (e.Disconnect? || e.NotifyFailure? || e.Register?) && e.id == id
  }

  predicate OnItsWayBack(w: State, id: uint64) { HasStatus(w, id, RECONNECTED) || HasStatus(w, id, CONNECTED) }

  lemma {:induction false} StaysOnItsWay(ws: seq<State>, es: seq<Event>, i: nat, j: nat, id: uint64)
    requires Run(ws, es) && i <= j < |ws| && OnItsWayBack(ws[i], id) && Undisturbed(es, i, j, id)
    ensures OnItsWayBack(ws[j], id)
  {
    if i < j {
      StaysOnItsWay(ws, es, i, j - 1, id);
      assert !Disturbs(es[j - 1], id);
      StatusTable(ws, es, j - 1, id);
    }
  }

  /** The way back: a client that answers the monitor and later asks for peers is CONNECTED then, unless it leaves, is
      reported again or registers anew in between. */
  lemma AnsweringClientReturns(ws: seq<State>, es: seq<Event>, i: nat, j: nat, id: uint64)
    requires Run(ws, es) && i < j < |es| && HasStatus(ws[i], id, DISCONNECTED)
    requires es[i].Monitor? && id in es[i].answered && Undisturbed(es, i + 1, j, id) && AsksForPeers(es[j], id)
    ensures HasStatus(ws[j], id, RECONNECTED) || HasStatus(ws[j], id, CONNECTED)
    ensures HasStatus(ws[j + 1], id, CONNECTED)
  {
    MonitorRecovers(ws, es, i, id);
    StaysOnItsWay(ws, es, i + 1, j, id);
    StatusTable(ws, es, j, id);
  }

  ghost predicate ConnectedAnew(ws: seq<State>, es: seq<Event>, i: nat, j: nat, id: uint64)
    requires |ws| == |es| + 1 && i <= j <= |es|
  {
    exists c :: i <= c < j && Connects(ws[c], es[c], id)
  }

  ghost predicate RecoveredOnce(ws: seq<State>, es: seq<Event>, i: nat, j: nat, id: uint64)
    requires |ws| == |es| + 1 && i <= j <= |es|
  {
    exists r :: i <= r < j && Recovers(ws[r], es[r], id)
  }

  ghost predicate RecoveredAndAsked(ws: seq<State>, es: seq<Event>, i: nat, j: nat, id: uint64)
    requires |ws| == |es| + 1 && i <= j <= |es|
  {
    exists g :: i <= g < j && RecoveredOnce(ws, es, i, g, id) && AsksForPeers(es[g], id)
  }

  /** Between i and j the client had a new Connect, or a successful Recover followed by its own GetNodes. */
  ghost predicate CameBack(ws: seq<State>, es: seq<Event>, i: nat, j: nat, id: uint64)
    requires |ws| == |es| + 1 && i <= j <= |es|
  {
    ConnectedAnew(ws, es, i, j, id) || RecoveredAndAsked(ws, es, i, j, id)
  }

  /** What the status at j says about the way there from DISCONNECTED at i. */
  ghost predicate Accounted(ws: seq<State>, es: seq<Event>, i: nat, j: nat, id: uint64)
    requires |ws| == |es| + 1 && i <= j <= |es|
  {
    && (ws[j].Connected(id) ==> CameBack(ws, es, i, j, id))
    && (HasStatus(ws[j], id, RECONNECTED) ==> RecoveredOnce(ws, es, i, j, id))
  }

  lemma RecoveredExtends(ws: seq<State>, es: seq<Event>, i: nat, j: nat, id: uint64)
    requires |ws| == |es| + 1 && i < j <= |es|
    ensures RecoveredOnce(ws, es, i, j - 1, id) || Recovers(ws[j - 1], es[j - 1], id) ==>
        RecoveredOnce(ws, es, i, j, id)
  {
  }

  lemma CameBackExtends(ws: seq<State>, es: seq<Event>, i: nat, j: nat, id: uint64)
    requires |ws| == |es| + 1 && i < j <= |es|
    ensures CameBack(ws, es, i, j - 1, id) || Connects(ws[j - 1], es[j - 1], id) ==> CameBack(ws, es, i, j, id)
    ensures RecoveredOnce(ws, es, i, j - 1, id) && AsksForPeers(es[j - 1], id) ==> CameBack(ws, es, i, j, id)
  {
    if ConnectedAnew(ws, es, i, j - 1, id) || Connects(ws[j - 1], es[j - 1], id) {
      assert ConnectedAnew(ws, es, i, j, id);
    }
    if RecoveredAndAsked(ws, es, i, j - 1, id) {
      var g :| i <= g < j - 1 && RecoveredOnce(ws, es, i, g, id) && AsksForPeers(es[g], id);
      assert RecoveredAndAsked(ws, es, i, j, id);
    }
    if RecoveredOnce(ws, es, i, j - 1, id) && AsksForPeers(es[j - 1], id) {
      assert RecoveredAndAsked(ws, es, i, j, id);
    }
  }

  lemma AccountedStep(ws: seq<State>, es: seq<Event>, i: nat, j: nat, id: uint64)
    requires |ws| == |es| + 1 && i < j <= |es| && Accounted(ws, es, i, j - 1, id)
    requires ws[j].Connected(id) && !ws[j - 1].Connected(id) ==>
      Connects(ws[j - 1], es[j - 1], id) || (AsksForPeers(es[j - 1], id) && HasStatus(ws[j - 1], id, RECONNECTED))
    requires HasStatus(ws[j], id, RECONNECTED) && !HasStatus(ws[j - 1], id, RECONNECTED) ==>
      Recovers(ws[j - 1], es[j - 1], id)
    ensures Accounted(ws, es, i, j, id)
  {
    RecoveredExtends(ws, es, i, j, id);
    CameBackExtends(ws, es, i, j, id);
  }

  lemma {:induction false} StatusIsAccounted(ws: seq<State>, es: seq<Event>, i: nat, j: nat, id: uint64)
    requires Run(ws, es) && i <= j < |ws| && IsDisconnected(ws[i].conns, id)
    ensures Accounted(ws, es, i, j, id)
    decreases j
  {
    if j > i {
      StatusIsAccounted(ws, es, i, j - 1, id);
      StatusChanges(ws, es, j - 1, id);
      AccountedStep(ws, es, i, j, id);
    }
  }

  /** The step hands the client out as a peer or partner, writes a replica to it, or asks it for a value. */
  ghost predicate Uses(w: State, e: Event, id: uint64) {
    match e
    case Connect(info, pick) => ConnectAccepted(w.conns, info.clientID) && pick == Some(id)
    case GetNodes(_, _, peers) => exists p :: p in peers && p.clientID == id
    case Put(_, _, targets) => id in targets
    case Get(_, key, _) => Chosen(w, key) == Some(id)
    case _ => false
  }

  lemma OnlyConnectedAreUsed(w: State, e: Event, w': State, id: uint64)
    requires Step(w, e, w') && Uses(w, e, id)
    ensures w.Connected(id)
  {
    if e.Get? {
      ChosenFacts(w, e.key);
    }
  }

  /** Safety over every run: a client reported as failed is not handed out, written to or asked until it has come
      back. */
  lemma FailedClientIsNotUsed(ws: seq<State>, es: seq<Event>, i: nat, j: nat, id: uint64)
    requires Run(ws, es) && i <= j < |es|
    requires IsDisconnected(ws[i].conns, id) && Uses(ws[j], es[j], id)
    ensures CameBack(ws, es, i, j, id)
  {
    assert StepAt(ws, es, j);
    OnlyConnectedAreUsed(ws[j], es[j], ws[j + 1], id);
    StatusIsAccounted(ws, es, i, j, id);
  }

  /** Nothing but the status of one connection differs between the two states. */
  ghost predicate OnlyStatusOf(w: State, w': State, id: uint64) {
    && w'.conns.Keys == w.conns.Keys
    && (forall x :: x in w.conns && x != id ==> w'.conns[x] == w.conns[x])
    && (id in w.conns ==> w'.conns[id].(status := w.conns[id].status) == w.conns[id])
    && w'.names == w.names && w'.holders == w.holders && w'.stores == w.stores && w'.clocks == w.clocks
    && w'.offset == w.offset
  }

  /** A report about a client in the game makes it DISCONNECTED and changes nothing else; about any other client it
      changes nothing at all. */
  lemma ReportDisconnects(ws: seq<State>, es: seq<Event>, i: nat)
    requires Run(ws, es) && i < |es| && es[i].NotifyFailure?
    ensures if ws[i].Connected(es[i].id)
            then IsDisconnected(ws[i + 1].conns, es[i].id) && OnlyStatusOf(ws[i], ws[i + 1], es[i].id)
            else ws[i + 1] == ws[i]
  {
    assert StepAt(ws, es, i);
  }

  /** A client with a nonzero id never gets itself for a partner. */
  predicate PartnerIsAnother(w: State, id: uint64) {
    id in w.conns && id != 0 ==> w.conns[id].partner.clientID != id
  }

  lemma StepKeepsPartner(ws: seq<State>, es: seq<Event>, i: nat, id: uint64)
    requires Run(ws, es) && i < |es| && PartnerIsAnother(ws[i], id)
    ensures PartnerIsAnother(ws[i + 1], id)
  {
    assert StepAt(ws, es, i);
  }

  lemma {:induction false} RunKeepsPartner(ws: seq<State>, es: seq<Event>, i: nat, id: uint64)
    requires Run(ws, es) && i < |ws|
    ensures PartnerIsAnother(ws[i], id)
  {
    if i > 0 {
      RunKeepsPartner(ws, es, i - 1, id);
      StepKeepsPartner(ws, es, i - 1, id);
    }
  }

  /** GetNodes hands out at most one client, it is CONNECTED at that moment, and it is the caller only if its id is
      zero. */
  lemma PeersHandedOut(ws: seq<State>, es: seq<Event>, i: nat)
    requires Run(ws, es) && i < |es| && es[i].GetNodes?
    ensures |es[i].peers| <= 1
    ensures forall p :: p in es[i].peers ==> ws[i].Connected(p.clientID)
    ensures forall p :: p in es[i].peers && p.clientID == es[i].id ==> es[i].id == 0
  {
    assert StepAt(ws, es, i);
    RunKeepsPartner(ws, es, i, es[i].id);
  }

  /** The case the nonzero condition excludes: a lone client with id 0 is handed the empty record that stands for
      itself. */
  lemma ZeroIdGetsItself(w: State, peers: seq<PeerInfo>, w': State)
    requires w.conns == map[0 := Connection(CONNECTED, "", "addr", None, "", None, 0, NO_PEER)]
    requires GetNodesStep(w, 0, None, peers, w')
    ensures peers == [NO_PEER] && NO_PEER.clientID == 0
  {
  }
}

/** When clients attach before they connect, the server's calls of clients do not end it, and it is known exactly when
    its monitor does. A rejected Connect, which unlocks a mutex twice, and other faults of locking are not covered
    here. */
module FatalBranches {
  import opened Base
  import opened World
  import opened ReadLatest

  /** The server has accepted the client's channel since the client registered. */
  ghost predicate AttachedSinceRegister(ws: seq<State>, es: seq<Event>, i: nat, id: uint64)
    requires |ws| == |es| + 1 && i <= |es|
  {
    if i == 0 then false
    else
      var w, e := ws[i - 1], es[i - 1];
      if Registers(w, e, id) then false
      else if e.Attach? && e.id == id then true
      else AttachedSinceRegister(ws, es, i - 1, id)
  }

  lemma AttachedStep(ws: seq<State>, es: seq<Event>, i: nat, id: uint64)
    requires Run(ws, es) && i < |es|
    ensures id in ws[i + 1].conns <==> id in ws[i].conns || Registers(ws[i], es[i], id)
    ensures Attached(ws[i + 1].conns, id)
       <==> !Registers(ws[i], es[i], id) && (Attached(ws[i].conns, id) || (es[i].Attach? && es[i].id == id))
  {
    assert StepAt(ws, es, i);
  }

  /** Over every run a client has a channel exactly when the server has accepted it since the client registered. */
  lemma {:induction false} AttachedIff(ws: seq<State>, es: seq<Event>, i: nat, id: uint64)
    requires Run(ws, es) && i < |ws|
    ensures Attached(ws[i].conns, id) <==> AttachedSinceRegister(ws, es, i, id)
  {
    if i > 0 {
      AttachedIff(ws, es, i - 1, id);
      AttachedStep(ws, es, i - 1, id);
    }
  }

  /** Calling a client ends the server exactly when the client is CONNECTED and its channel has not been accepted since
      it registered. */
  lemma UnreachableIff(ws: seq<State>, es: seq<Event>, i: nat, id: uint64)
    requires Run(ws, es) && i < |ws|
    ensures Unreachable(ws[i].conns, id) <==> ws[i].Connected(id) && !AttachedSinceRegister(ws, es, i, id)
  {
    AttachedIff(ws, es, i, id);
  }

  /** The client waits until its own dial and write have returned, not until the server's accept loop has taken its
      channel. Its Connect can therefore come first, and then the synchronisation that this Connect starts ends the
      server: no SyncClocks step is possible. */
  lemma ConnectOvertakesAttach(id: uint64, name: string) returns (ws: seq<State>, es: seq<Event>)
    ensures Run(ws, es) && es == [Register(name, id), Connect(PeerInfo("", "", id, name), None)]
    ensures Unreachable(ws[2].conns, id)
    ensures forall readings, w :: !Step(ws[2], SyncClocks(readings), w)
  {
    var c := Connection(NOTINGAME, name, "", None, "", None, 0, NO_PEER);
    var w1 := INITIAL.(names := {name}, conns := map[id := c]);
    var w2 := w1.(conns := map[id := c.(status := CONNECTED)]);
    RunExtended([INITIAL], [], Register(name, id), w1);
    ws, es := [INITIAL] + [w1], [] + [Register(name, id)];
    var e := Connect(PeerInfo("", "", id, name), None);
    assert IsOtherConnected(w1.conns, id, None);
    RunExtended(ws, es, e, w2);
    ws, es := ws + [w2], es + [e];
    assert |w2.conns| == 1;
    assert Unreachable(w2.conns, id);
  }

  /** No accepted Connect overtakes the acceptance of the client's channel. */
  ghost predicate AttachBeforeConnect(ws: seq<State>, es: seq<Event>)
    requires |ws| == |es| + 1
  {
    forall i {:trigger es[i]} :: 0 <= i < |es| && es[i].Connect? ==>
      ConnectAccepted(ws[i].conns, es[i].info.clientID) ==> Attached(ws[i].conns, es[i].info.clientID)
  }

  /** A client in the game has a channel. */
  predicate ChannelKept(w: State, id: uint64) {
    id in w.conns && !w.conns[id].status.NOTINGAME? ==> Attached(w.conns, id)
  }

  lemma StepKeepsChannel(ws: seq<State>, es: seq<Event>, i: nat, id: uint64)
    requires Run(ws, es) && AttachBeforeConnect(ws, es) && i < |es| && ChannelKept(ws[i], id)
    ensures ChannelKept(ws[i + 1], id)
  {
    assert StepAt(ws, es, i);
  }

  lemma {:induction false} InGameHasChannel(ws: seq<State>, es: seq<Event>, i: nat, id: uint64)
    requires Run(ws, es) && AttachBeforeConnect(ws, es) && i < |ws|
    ensures ChannelKept(ws[i], id)
  {
    if i > 0 {
      InGameHasChannel(ws, es, i - 1, id);
      StepKeepsChannel(ws, es, i - 1, id);
    }
  }

  /** The client is in the game, or was in it since it last registered. */
  ghost predicate BeenInGame(ws: seq<State>, es: seq<Event>, i: nat, id: uint64)
    requires |ws| == |es| + 1 && i <= |es|
  {
    (id in ws[i].conns && !ws[i].conns[id].status.NOTINGAME?)
    || (i > 0 && !Registers(ws[i - 1], es[i - 1], id) && BeenInGame(ws, es, i - 1, id))
  }

  lemma StepKeepsAttached(ws: seq<State>, es: seq<Event>, i: nat, id: uint64)
    requires Run(ws, es) && i < |es| && Attached(ws[i].conns, id) && !Registers(ws[i], es[i], id)
    ensures Attached(ws[i + 1].conns, id)
  {
    assert StepAt(ws, es, i);
  }

  /** Whoever is in the game, or was in it since registering, has a channel. */
  lemma {:induction false} BeenInGameHasChannel(ws: seq<State>, es: seq<Event>, i: nat, id: uint64)
    requires Run(ws, es) && AttachBeforeConnect(ws, es) && i < |ws| && BeenInGame(ws, es, i, id)
    ensures Attached(ws[i].conns, id)
  {
    InGameHasChannel(ws, es, i, id);
    if !(id in ws[i].conns && !ws[i].conns[id].status.NOTINGAME?) {
      BeenInGameHasChannel(ws, es, i - 1, id);
      StepKeepsAttached(ws, es, i - 1, id);
    }
  }

  /** KVGet, KVPut and syncClocks only call CONNECTED clients. Unless a Connect has overtaken its channel each of these
      has one, and the conditions under which those handlers end the server never hold. */
  lemma CallsNeverFatal(ws: seq<State>, es: seq<Event>, i: nat, key: uint64, targets: seq<uint64>)
    requires Run(ws, es) && AttachBeforeConnect(ws, es) && i < |ws|
    ensures forall id :: !Unreachable(ws[i].conns, id)
    ensures Chosen(ws[i], key).Some? ==> Attached(ws[i].conns, Chosen(ws[i], key).value)
    ensures IsTargets(ws[i].conns, ws[i].holders, key, targets) ==> AllAttached(ws[i].conns, targets)
  {
    forall id ensures !Unreachable(ws[i].conns, id) {
      InGameHasChannel(ws, es, i, id);
    }
    ChosenFacts(ws[i], key);
    if Chosen(ws[i], key).Some? {
      assert !Unreachable(ws[i].conns, Chosen(ws[i], key).value);
    }
    forall t | t in targets && ws[i].Connected(t) ensures Attached(ws[i].conns, t) {
      assert !Unreachable(ws[i].conns, t);
    }
  }

  /** The last thing that set the client's clock client was a synchronisation, not a Connect or a Register. */
  ghost predicate SyncedSinceConnect(ws: seq<State>, es: seq<Event>, i: nat, id: uint64)
    requires |ws| == |es| + 1 && i <= |es|
  {
    if i == 0 then false
    else
      var w, e := ws[i - 1], es[i - 1];
      if Connects(w, e, id) || Registers(w, e, id) then false
      else if e.SyncClocks? && w.Connected(id) then true
      else SyncedSinceConnect(ws, es, i - 1, id)
  }

  lemma {:induction false} ClockClientIffSynced(ws: seq<State>, es: seq<Event>, i: nat, id: uint64)
    requires Run(ws, es) && i < |ws|
    ensures id in ws[i].conns ==> (ws[i].conns[id].client.Some? <==> SyncedSinceConnect(ws, es, i, id))
    ensures id !in ws[i].conns ==> !SyncedSinceConnect(ws, es, i, id)
  {
    if i > 0 {
      ClockClientIffSynced(ws, es, i - 1, id);
      ClockClientStep(ws, es, i - 1, id);
    }
  }

  /** How one step changes the clock client of one connection. */
  lemma ClockClientStep(ws: seq<State>, es: seq<Event>, i: nat, id: uint64)
    requires Run(ws, es) && i < |es|
    ensures var w, e, w' := ws[i], es[i], ws[i + 1];
      && (id in w.conns ==> id in w'.conns)
      && (id in w'.conns ==>
          if Connects(w, e, id) || Registers(w, e, id) then w'.conns[id].client.None?
          else id in w.conns && if e.SyncClocks? && w.Connected(id) then w'.conns[id].client.Some?
                                else w'.conns[id].client == w.conns[id].client)
  {
    var w, e, w' := ws[i], es[i], ws[i + 1];
    assert StepAt(ws, es, i);
    if e.SyncClocks? && w.Connected(id) {
      assert |w.conns| > 0;
      assert !Unreachable(w.conns, id);
    }
  }

  /** The monitor is safe in a reachable state exactly when every DISCONNECTED client was synchronised after its last
      Connect and before it was reported. */
  lemma MonitorSafeIff(ws: seq<State>, es: seq<Event>, i: nat)
    requires Run(ws, es) && i < |ws|
    ensures MonitorSafe(ws[i].conns) <==> forall id :: IsDisconnected(ws[i].conns, id) ==>
        SyncedSinceConnect(ws, es, i, id)
  {
    forall id | id in ws[i].conns ensures ws[i].conns[id].client.Some? <==> SyncedSinceConnect(ws, es, i, id) {
      ClockClientIffSynced(ws, es, i, id);
    }
  }

  /** A failure report that overtakes the synchronisation started by Connect makes the next monitor round panic. */
  lemma EarlyReportPanics(w: State, info: PeerInfo, pick: Option<uint64>, w1: State, w2: State)
    requires ConnectAccepted(w.conns, info.clientID)
    requires ConnectStep(w, info, pick, w1) && NotifyFailureStep(w1, info.clientID, w2)
    ensures !MonitorSafe(w2.conns)
  {
    assert IsDisconnected(w2.conns, info.clientID);
  }
}
