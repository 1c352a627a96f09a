/** The server's state as one value, and what each handler may do to it, one atomic step at a time.
    Choices the program leaves to map iteration order or to rand.Perm are part of the event. */
module World {
  import opened Base
  import opened Clients

  datatype Status = DISCONNECTED | CONNECTED | RECONNECTED | NOTINGAME

  datatype PeerInfo = PeerInfo(address: string, rpcAddress: string, clientID: uint64, displayName: string)

  const NO_PEER := PeerInfo("", "", 0, "")

  /** rpcClient and client are nil-able handles; a handle is the id that the client process at its far end sent when it
      dialled. */
  datatype Connection = Connection(
    status: Status, displayName: string, address: string, rpcClient: Option<uint64>, rpcAddress: string,
    client: Option<uint64>, offset: int, partner: PeerInfo)

  type Connections = map<uint64, Connection>

  predicate IsConnected(conns: Connections, id: uint64) { id in conns && conns[id].status.CONNECTED? }

  predicate IsDisconnected(conns: Connections, id: uint64) { id in conns && conns[id].status.DISCONNECTED? }

  function InfoOf(conns: Connections, id: uint64): PeerInfo
    requires id in conns
  {
    PeerInfo(conns[id].address, conns[id].rpcAddress, id, conns[id].displayName)
  }

  /** A pick of the loops that look for some other CONNECTED client, None when there is none. */
  ghost predicate IsOtherConnected(conns: Connections, clientID: uint64, pick: Option<uint64>) {
    match pick
    case Some(p) => p != clientID && IsConnected(conns, p)
    case None => forall p :: IsConnected(conns, p) ==> p == clientID
  }

  /** Clients ask for more peers while they have fewer. */
  const MIN_PEER_CONNECTIONS := 2

  /** stores and clocks are the key-value map and the clock offset of each client process the server has a channel
      to. */
  datatype State = State(
    conns: Connections, names: set<string>, holders: map<uint64, seq<uint64>>,
    stores: map<uint64, KVMap>, clocks: map<uint64, int>, offset: int)
  {
    predicate Connected(id: uint64) { IsConnected(conns, id) }

    ghost function ConnectedIds(): set<uint64> { ConnectedOf(conns) }

    function Holders(key: uint64): seq<uint64> { HoldersIn(holders, key) }

    function OnlyConnected(ids: seq<uint64>): seq<uint64> { ConnectedAmong(conns, ids) }

    /** What a client's Get ends with when the server asks client id for the key. */
    function StoredAt(id: uint64, key: uint64): Stats {
      if id in stores then Lookup(stores[id], key) else NO_STATS
    }

    /** Handles lead to the process with the connection's id. */
    ghost predicate ValidHandles() {
      && stores.Keys == clocks.Keys
      && forall id :: ValidHandlesOf(id)
    }

    ghost predicate ValidHandlesOf(id: uint64) {
      id in conns ==> ValidHandle(id, conns[id].rpcClient) && ValidHandle(id, conns[id].client)
    }

    ghost predicate ValidHandle(id: uint64, handle: Option<uint64>) {
      handle.Some? ==> handle.value == id && id in stores
    }

    /** Every holder of a key is a registered client, listed once. */
    ghost predicate ValidHolders(key: uint64) {
      NoDups(Holders(key)) && forall h :: h in Holders(key) ==> h in conns
    }

  }

  /** Indexing a Go map of lists: an absent key has the empty list. */
  function HoldersIn(holders: map<uint64, seq<uint64>>, key: uint64): seq<uint64> {
    if key in holders then holders[key] else []
  }

  function ConnectedAmong(conns: Connections, ids: seq<uint64>): seq<uint64> {
    if ids == [] then []
    else if IsConnected(conns, ids[|ids| - 1]) then ConnectedAmong(conns, ids[..|ids| - 1]) + [ids[|ids| - 1]]
    else ConnectedAmong(conns, ids[..|ids| - 1])
  }

  const INITIAL := State(map[], {}, map[], map[], map[], 0)

  /** time.Now() on the server before the TimeRequest, on the client while it answers, and on the server after it. */
  datatype Reading = Reading(before: int, client: int, after: int)

  /** The reply to a KVGet: HasAlready tells the caller to look in its own map. */
  datatype GetReply = Unavailable | HasAlready | Found(value: Stats)

  datatype Event =
    | Register(name: string, id: uint64)
    | Attach(id: uint64, store: KVMap, clock: int)
    | Connect(info: PeerInfo, pick: Option<uint64>)
    | Disconnect(id: uint64)
    | GetNodes(id: uint64, pick: Option<uint64>, peers: seq<PeerInfo>)
    | NotifyFailure(id: uint64)
    | Monitor(answered: set<uint64>)
    | Put(key: uint64, value: Stats, targets: seq<uint64>)
    | Get(client: uint64, key: uint64, reply: GetReply)
    | SyncClocks(readings: map<uint64, Reading>)

  ghost predicate Step(w: State, e: Event, w': State) {
    match e
    case Register(name, id) => RegisterStep(w, name, id, w')
    case Attach(id, store, clock) => AttachStep(w, id, store, clock, w')
    case Connect(info, pick) => ConnectStep(w, info, pick, w')
    case Disconnect(id) => DisconnectStep(w, id, w')
    case GetNodes(id, pick, peers) => GetNodesStep(w, id, pick, peers, w')
    case NotifyFailure(id) => NotifyFailureStep(w, id, w')
    case Monitor(answered) => MonitorStep(w, answered, w')
    case Put(key, value, targets) => PutStep(w, key, value, targets, w')
    case Get(client, key, reply) => w' == w && reply == ReplyTo(w, client, key)
    case SyncClocks(readings) => SyncStep(w, readings, w')
  }

  ghost predicate RegisterStep(w: State, name: string, id: uint64, w': State) {
    if name in w.names then w' == w
    else w' == w.(names := w.names + {name},
                  conns := w.conns[id := Connection(NOTINGAME, name, "", None, "", None, 0, NO_PEER)])
  }

  ghost predicate AttachStep(w: State, id: uint64, store: KVMap, clock: int, w': State) {
    && id in w.conns
    && w' == w.(conns := w.conns[id := w.conns[id].(rpcClient := Some(id))],
                stores := w.stores[id := store], clocks := w.clocks[id := clock])
  }

  predicate ConnectAccepted(conns: Connections, id: uint64) { id in conns && !IsConnected(conns, id) }

  predicate Connects(w: State, e: Event, id: uint64) {
    e.Connect? && e.info.clientID == id && ConnectAccepted(w.conns, id)
  }

  predicate Registers(w: State, e: Event, id: uint64) { e.Register? && e.id == id && e.name !in w.names }

  ghost predicate ConnectChange(conns: Connections, info: PeerInfo, pick: Option<uint64>, conns': Connections) {
    var id := info.clientID;
    if !ConnectAccepted(conns, id) then conns' == conns
    else
      && IsOtherConnected(conns, id, pick)
      && var partner := if pick.Some? then InfoOf(conns, pick.value) else NO_PEER;
         conns' == conns[id := Connection(CONNECTED, info.displayName, info.address, conns[id].rpcClient,
                                          info.rpcAddress, None, 0, partner)]
  }

  ghost predicate ConnectStep(w: State, info: PeerInfo, pick: Option<uint64>, w': State) {
    ConnectChange(w.conns, info, pick, w'.conns) && w' == w.(conns := w'.conns)
  }

  ghost predicate DisconnectStep(w: State, id: uint64, w': State) {
    w' == if id in w.conns then w.(conns := w.conns[id := w.conns[id].(status := NOTINGAME)]) else w
  }

  /** The client has no partner, or the server knows that the partner is gone. */
  predicate NeedsPartner(conns: Connections, id: uint64)
    requires id in conns
  {
    var p := conns[id].partner.clientID;
    p !in conns || conns[p].status.DISCONNECTED?
  }

  function PartnerAfter(conns: Connections, id: uint64, pick: Option<uint64>): PeerInfo
    requires id in conns
    requires pick.Some? ==> pick.value in conns
  {
    if NeedsPartner(conns, id) && pick.Some? then InfoOf(conns, pick.value) else conns[id].partner
  }

  /** What a caller of GetNodes gets, by statuses: a partner that is gone or DISCONNECTED is replaced by another
      CONNECTED client if there is one, and that one is the reply. Otherwise the partner stays, and is the reply exactly
      when it is CONNECTED. */
  ghost predicate AnswersNodes(conns: Connections, id: uint64, peers: seq<PeerInfo>, partner': PeerInfo)
    requires id in conns
  {
    var partner := conns[id].partner;
    var lost := partner.clientID in conns ==> conns[partner.clientID].status == DISCONNECTED;
    if lost && exists other :: IsOther(conns, id, other)
    then IsOther(conns, id, partner'.clientID) && peers == [partner']
    else
      && partner' == partner
      && peers == if partner.clientID in conns && conns[partner.clientID].status == CONNECTED then [partner] else []
  }

  /** Client c is another one than id and CONNECTED. */
  predicate IsOther(conns: Connections, id: uint64, c: uint64) { c != id && c in conns && conns[c].status == CONNECTED }

  ghost predicate GetNodesChange(conns: Connections, id: uint64, pick: Option<uint64>, peers: seq<PeerInfo>,
                                 conns': Connections) {
    if id !in conns then peers == [] && conns' == conns
    else
      && IsOtherConnected(conns, id, pick)
      && var partner := PartnerAfter(conns, id, pick);
         && peers == (if IsConnected(conns, partner.clientID) then [partner] else [])
         && conns' == conns[id := conns[id].(
              partner := partner,
              status := if conns[id].status.RECONNECTED? then CONNECTED else conns[id].status)]
  }

  lemma OtherPick(conns: Connections, id: uint64, pick: Option<uint64>)
    requires IsOtherConnected(conns, id, pick)
    ensures if exists other :: IsOther(conns, id, other) then pick.Some? && IsOther(conns, id, pick.value)
            else pick.None?
  {
    if exists other :: IsOther(conns, id, other) {
      var other :| IsOther(conns, id, other);
      assert IsConnected(conns, other);
    } else if pick.Some? {
      assert IsOther(conns, id, pick.value);
    }
  }

  lemma NodesAnswered(conns: Connections, id: uint64, pick: Option<uint64>, peers: seq<PeerInfo>, conns': Connections)
    requires id in conns && GetNodesChange(conns, id, pick, peers, conns')
    ensures id in conns' && AnswersNodes(conns, id, peers, conns'[id].partner)
  {
    OtherPick(conns, id, pick);
  }

  ghost predicate GetNodesStep(w: State, id: uint64, pick: Option<uint64>, peers: seq<PeerInfo>, w': State) {
    GetNodesChange(w.conns, id, pick, peers, w'.conns) && w' == w.(conns := w'.conns)
  }

  ghost predicate NotifyFailureStep(w: State, id: uint64, w': State) {
    w' == if w.Connected(id) then w.(conns := w.conns[id := w.conns[id].(status := DISCONNECTED)]) else w
  }

  /** The monitor calls Recover on the clock client of every DISCONNECTED client; a nil one is a Go panic. */
  ghost predicate MonitorSafe(conns: Connections) {
    forall id :: IsDisconnected(conns, id) ==> conns[id].client.Some?
  }

  /** One connection after the monitor's round. */
  function Recovered(c: Connection, answers: bool): Connection {
    if c.status.DISCONNECTED? && answers then c.(status := RECONNECTED) else c
  }

  ghost predicate MonitorChange(conns: Connections, answered: set<uint64>, conns': Connections) {
    conns' == map id | id in conns :: Recovered(conns[id], id in answered)
  }

  ghost predicate MonitorStep(w: State, answered: set<uint64>, w': State) {
    MonitorSafe(w.conns) && MonitorChange(w.conns, answered, w'.conns) && w' == w.(conns := w'.conns)
  }

  ghost function ConnectedOf(conns: Connections): set<uint64> { set id | id in conns && IsConnected(conns, id) }

  /** held extended by other CONNECTED clients to make up three copies, as far as there are that many. */
  ghost predicate ExtendsHeld(conns: Connections, held: seq<uint64>, targets: seq<uint64>) {
    && held <= targets
    && NoDups(targets)
    && (forall t :: t in targets ==> IsConnected(conns, t))
    && |targets| == Max(|held|, Min(3, |ConnectedOf(conns)|))
  }

  /** Who a Put may write to: all connected holders in list order, then the fresh ones. */
  ghost predicate IsTargets(conns: Connections, holders: map<uint64, seq<uint64>>, key: uint64, targets: seq<uint64>) {
    ExtendsHeld(conns, ConnectedAmong(conns, HoldersIn(holders, key)), targets)
  }

  predicate Attached(conns: Connections, id: uint64) { id in conns && conns[id].rpcClient.Some? }

  /** A CONNECTED client the server has no channel to: calling it is fatal. */
  predicate Unreachable(conns: Connections, id: uint64) { IsConnected(conns, id) && !Attached(conns, id) }

  /** The client is CONNECTED and stands at position p of the list, and no client behind it is CONNECTED. */
  predicate IsLastConnected(conns: Connections, ids: seq<uint64>, p: nat, id: uint64) {
    && p < |ids| && ids[p] == id && id in conns && conns[id].status == CONNECTED
    && forall q :: p < q < |ids| && ids[q] in conns ==> conns[ids[q]].status != CONNECTED
  }

  predicate NoneConnected(conns: Connections, ids: seq<uint64>) {
    forall q :: 0 <= q < |ids| && ids[q] in conns ==> conns[ids[q]].status != CONNECTED
  }

  ghost predicate AllAttached(conns: Connections, ids: seq<uint64>) { forall id :: id in ids ==> Attached(conns, id) }

  ghost predicate PutStep(w: State, key: uint64, value: Stats, targets: seq<uint64>, w': State) {
    && IsTargets(w.conns, w.holders, key, targets)
    && AllAttached(w.conns, targets)
    && w' == w.(holders := AddHolders(w.holders, key, targets), stores := Written(w.stores, key, value, targets))
  }

  ghost function Written(stores: map<uint64, KVMap>, key: uint64, value: Stats, targets: seq<uint64>): map<uint64,
                         KVMap> {
    map id | id in stores :: if id in targets then stores[id][key := value] else stores[id]
  }

  /** The lists after recording each target that is not in the key's list yet. */
  function AddHolders(holders: map<uint64, seq<uint64>>, key: uint64, targets: seq<uint64>): map<uint64, seq<uint64>> {
    if targets == [] then holders
    else AddHolder(AddHolders(holders, key, targets[..|targets| - 1]), key, targets[|targets| - 1])
  }

  function AddHolder(holders: map<uint64, seq<uint64>>, key: uint64, id: uint64): map<uint64, seq<uint64>> {
    if id in HoldersIn(holders, key) then holders else holders[key := HoldersIn(holders, key) + [id]]
  }

  /** The holder a Get reads from: the last CONNECTED one in the list. */
  function Chosen(w: State, key: uint64): Option<uint64> {
    var held := w.OnlyConnected(w.Holders(key));
    if held == [] then None else Some(held[|held| - 1])
  }

  function ReplyTo(w: State, client: uint64, key: uint64): GetReply {
    match Chosen(w, key)
    case None => Unavailable
    case Some(h) => if h == client then HasAlready else Found(w.StoredAt(h, key))
  }

  /** The value the calling client ends up with: its KVGet returns zeros on an error and its own copy on HasAlready. */
  function ValueRead(w: State, client: uint64, key: uint64): Stats {
    match ReplyTo(w, client, key)
    case Unavailable => NO_STATS
    case HasAlready => w.StoredAt(client, key)
    case Found(v) => v
  }

  /** A client's clock minus the server's, as the server measures it: half the round trip is added to the client's
      answer. */
  function Measured(serverOffset: int, clientOffset: int, r: Reading): int {
    var before, after := r.before + serverOffset, r.after + serverOffset;
    r.client + clientOffset + GoDiv(after - before, 2) - after
  }

  ghost predicate Measurable(conns: Connections, clocks: map<uint64, int>, readings: map<uint64, Reading>) {
    forall id :: IsConnected(conns, id) ==> !Unreachable(conns, id) && id in clocks && id in readings
  }

  function MeasuredFor(id: uint64, offset: int, clocks: map<uint64, int>, readings: map<uint64, Reading>): int {
    if id in clocks && id in readings then Measured(offset, clocks[id], readings[id]) else 0
  }

  /** The measurements of the CONNECTED clients that are not pending any more. */
  ghost function MeasurementsOf(conns: Connections, pending: set<uint64>, offset: int, clocks: map<uint64, int>,
                                readings: map<uint64, Reading>): map<uint64, int> {
    map id | id in conns && id !in pending && IsConnected(conns, id) :: MeasuredFor(id, offset, clocks, readings)
  }

  ghost function Measurements(w: State, readings: map<uint64, Reading>): map<uint64, int> {
    MeasurementsOf(w.conns, {}, w.offset, w.clocks, readings)
  }

  /** What syncClocks divides: the server's own offset counts as one more measurement. */
  ghost function AverageOf(offset: int, m: map<uint64, int>): int {
    GoDiv(offset + Sum(m), |m| + 1)
  }

  /** A measured connection keeps a clock client for its channel. */
  function WithClient(c: Connection): Connection { c.(client := c.rpcClient) }

  ghost function WithClients(conns: Connections, pending: set<uint64>): Connections {
    map id | id in conns :: if id !in pending && IsConnected(conns, id) then WithClient(conns[id]) else conns[id]
  }

  ghost function WithOffsets(conns: Connections, pending: set<uint64>, m: map<uint64, int>, average: int): Connections {
    map id | id in conns :: if id in m && id !in pending then conns[id].(offset := average - m[id]) else conns[id]
  }

  ghost function Corrected(clocks: map<uint64, int>, pending: set<uint64>, m: map<uint64, int>, average: int)
    : map<uint64, int> {
    map id | id in clocks :: if id in m && id !in pending then average - m[id] else clocks[id]
  }

  /** Every measured client replaces its offset by the average minus its measurement. */
  ghost predicate SyncChange(conns: Connections, offset: int, clocks: map<uint64, int>, readings: map<uint64, Reading>,
                             conns': Connections, clocks': map<uint64, int>, average: int) {
    && Measurable(conns, clocks, readings)
    && var m := MeasurementsOf(conns, {}, offset, clocks, readings);
       && average == AverageOf(offset, m)
       && conns' == WithOffsets(WithClients(conns, {}), {}, m, average)
       && clocks' == Corrected(clocks, {}, m, average)
  }

  /** The same, from the state before. */
  ghost predicate Synced(w: State, readings: map<uint64, Reading>, conns: Connections, clocks: map<uint64, int>,
                         average: int) {
    SyncChange(w.conns, w.offset, w.clocks, readings, conns, clocks, average)
  }

  /** The server adds the average to its own offset. */
  ghost predicate SyncStep(w: State, readings: map<uint64, Reading>, w': State) {
    if |w.conns| == 0 then w' == w
    else
      && Synced(w, readings, w'.conns, w'.clocks, w'.offset - w.offset)
      && w' == w.(conns := w'.conns, clocks := w'.clocks, offset := w'.offset)
  }

  ghost predicate StepAt(ws: seq<State>, es: seq<Event>, i: nat)
    requires |ws| == |es| + 1 && i < |es|
  {
    Step(ws[i], es[i], ws[i + 1])
  }

  /** A run of the server from its start: states and the events between them. */
  ghost predicate Run(ws: seq<State>, es: seq<Event>) {
    && |ws| == |es| + 1
    && ws[0] == INITIAL
    && forall i :: 0 <= i < |es| ==> StepAt(ws, es, i)
  }

  lemma RunExtended(ws: seq<State>, es: seq<Event>, e: Event, w: State)
    requires Run(ws, es) && Step(ws[|es|], e, w)
    ensures Run(ws + [w], es + [e])
  {
    forall i | 0 <= i < |es| + 1 ensures StepAt(ws + [w], es + [e], i) {
      assert i < |es| ==> StepAt(ws, es, i);
    }
  }

  lemma {:induction false} ConnectedAmongFacts(conns: Connections, ids: seq<uint64>)
    ensures forall x :: x in ConnectedAmong(conns, ids) <==> x in ids && IsConnected(conns, x)
    ensures NoDups(ids) ==> NoDups(ConnectedAmong(conns, ids))
  {
    if ids != [] {
      var init, last := ids[..|ids| - 1], ids[|ids| - 1];
      ConnectedAmongFacts(conns, init);
      assert ids == init + [last];
      assert NoDups(ids) ==> NoDups(init) && last !in init;
    }
  }

  /** Recording targets keeps the list free of repetitions, with the old list as a prefix, adds exactly the targets,
      and leaves the other keys alone. */
  lemma {:induction false} AddHoldersFacts(holders: map<uint64, seq<uint64>>, key: uint64, targets: seq<uint64>)
    ensures var old', new' := HoldersIn(holders, key), HoldersIn(AddHolders(holders, key, targets), key);
      && old' <= new'
      && (NoDups(old') ==> NoDups(new'))
      && (forall h :: h in new' <==> h in old' || h in targets)
    ensures forall k :: k != key ==> HoldersIn(AddHolders(holders, key, targets), k) == HoldersIn(holders, k)
  {
    if targets != [] {
      var init, last := targets[..|targets| - 1], targets[|targets| - 1];
      AddHoldersFacts(holders, key, init);
      assert targets == init + [last];
    }
  }

  lemma StepKeepsKeys(ws: seq<State>, es: seq<Event>, i: nat)
    requires Run(ws, es) && i < |es| && ws[i].stores.Keys == ws[i].clocks.Keys
    ensures ws[i + 1].stores.Keys == ws[i + 1].clocks.Keys && ws[i].stores.Keys <= ws[i + 1].stores.Keys
  {
    assert StepAt(ws, es, i);
  }

  lemma StepKeepsHandle(ws: seq<State>, es: seq<Event>, i: nat, id: uint64)
    requires Run(ws, es) && i < |es| && ws[i].stores.Keys <= ws[i + 1].stores.Keys
    requires ws[i].ValidHandlesOf(id)
    ensures ws[i + 1].ValidHandlesOf(id)
  {
    assert StepAt(ws, es, i);
  }

  lemma {:induction false} RunHandlesOf(ws: seq<State>, es: seq<Event>, i: nat, id: uint64)
    requires Run(ws, es) && i < |ws|
    ensures ws[i].stores.Keys == ws[i].clocks.Keys && ws[i].ValidHandlesOf(id)
  {
    if i > 0 {
      RunHandlesOf(ws, es, i - 1, id);
      StepKeepsKeys(ws, es, i - 1);
      StepKeepsHandle(ws, es, i - 1, id);
    }
  }

  /** In every reachable state a handle leads to the process with the connection's id. */
  lemma RunHandlesValid(ws: seq<State>, es: seq<Event>, i: nat)
    requires Run(ws, es) && i < |ws|
    ensures ws[i].ValidHandles()
  {
    RunHandlesOf(ws, es, i, 0);
    forall id ensures ws[i].ValidHandlesOf(id) {
      RunHandlesOf(ws, es, i, id);
    }
  }

  lemma StepKeepsHolders(ws: seq<State>, es: seq<Event>, i: nat, k: uint64)
    requires Run(ws, es) && i < |es| && ws[i].ValidHolders(k)
    ensures ws[i + 1].ValidHolders(k)
  {
    assert StepAt(ws, es, i);
    if es[i].Put? {
      AddHoldersFacts(ws[i].holders, es[i].key, es[i].targets);
    }
  }

  /** In every reachable state the holders of a key are registered clients, each listed once. */
  lemma {:induction false} RunHoldersValid(ws: seq<State>, es: seq<Event>, i: nat, key: uint64)
    requires Run(ws, es) && i < |ws|
    ensures ws[i].ValidHolders(key)
  {
    if i > 0 {
      RunHoldersValid(ws, es, i - 1, key);
      StepKeepsHolders(ws, es, i - 1, key);
    }
  }
}
