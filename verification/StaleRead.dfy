/** Runs on which KVGet does not return the last value put: why ReadLatest needs its condition. */
module StaleRead {
  import opened Base
  import opened Decimal
  import opened Clients
  import opened World
  import opened StatsRecovery
  import opened Disks
  import opened ReadLatest

  lemma {:induction false} SameConnectedAmong(c: Connections, d: Connections, ids: seq<uint64>)
    requires forall id :: id in ids ==> (IsConnected(c, id) <==> IsConnected(d, id))
    ensures ConnectedAmong(c, ids) == ConnectedAmong(d, ids)
  {
    if ids != [] {
      SameConnectedAmong(c, d, ids[..|ids| - 1]);
    }
  }

  lemma {:induction false} KnownHoldersAddNothing(holders: map<uint64, seq<uint64>>, key: uint64, targets: seq<uint64>)
    requires forall t :: t in targets ==> t in HoldersIn(holders, key)
    ensures AddHolders(holders, key, targets) == holders
  {
    if targets != [] {
      KnownHoldersAddNothing(holders, key, targets[..|targets| - 1]);
    }
  }

  /** From any state: when the client that a Get would ask leaves, misses a Put that finds no new holder, and comes back
      in a new process with the entry it had, the server asks it once more, and every caller reads its old value instead
      of the new one. */
  lemma RejoinedHolderIsStale(w: State, key: uint64, value: Stats, targets: seq<uint64>, store: KVMap, clock: int,
                              info: PeerInfo,
                              pick: Option<uint64>, w1: State, w2: State, w3: State, w4: State, client: uint64)
    requires Chosen(w, key) == Some(info.clientID) && EntryIn(store, key) == Entry(w, info.clientID, key)
    requires DisconnectStep(w, info.clientID, w1) && PutStep(w1, key, value, targets, w2)
    requires AttachStep(w2, info.clientID, store, clock, w3) && ConnectStep(w3, info, pick, w4)
    requires forall t :: t in targets ==> t in w.Holders(key)
    ensures Chosen(w4, key) == Some(info.clientID)
    ensures ValueRead(w4, client, key) == ValueRead(w, client, key)
  {
    ChosenFacts(w, key);
    KnownHoldersAddNothing(w1.holders, key, targets);
    assert ConnectAccepted(w3.conns, info.clientID);
    assert w4.Holders(key) == w.Holders(key);
    SameConnectedAmong(w.conns, w4.conns, w.Holders(key));
    ReadIsEntry(w, client, key);
    ReadIsEntry(w4, client, key);
  }

  // A run from the start of the server: clients 1 and 2 join and both get OLD, client 2 leaves and misses NEW, and
  // comes back in a new process.

  const KEY: uint64 := 7
  const OLD := Stats(1, 0)
  const NEW := Stats(2, 0)

  function Info(id: uint64): PeerInfo { PeerInfo("", "", id, "") }

  function Registered(name: string): Connection { Connection(NOTINGAME, name, "", None, "", None, 0, NO_PEER) }

  function InGame(id: uint64, status: Status, partner: PeerInfo): Connection {
    Connection(status, "", "", Some(id), "", None, 0, partner)
  }

  const FIRST := InGame(1, CONNECTED, NO_PEER)
  const SECOND := InGame(2, CONNECTED, Info(1))

  /** The two clients, with the key's holders, their maps, and whether client 2 is there. */
  function Both(second: Status, holders: map<uint64, seq<uint64>>, one: KVMap, two: KVMap): State {
    State(map[1 := FIRST, 2 := SECOND.(status := second)], {"a", "b"}, holders, map[1 := one, 2 := two],
        map[1 := 0, 2 := 0], 0)
  }

  /** The run has come to state w, with these files on the two disks. */
  ghost predicate Reached(ws: seq<State>, es: seq<Event>, w: State, one: Directory, two: Directory) {
    && Run(ws, es) && Persistent(map[], es) && ws[|es|] == w
    && DiskAfter(map[], es, 1) == one && DiskAfter(map[], es, 2) == two
  }

  lemma StartReached()
    ensures Reached([INITIAL], [], INITIAL, map[], map[])
  {
  }

  lemma PersistentExtended(disks: map<uint64, Directory>, es: seq<Event>, e: Event)
    requires Persistent(disks, es)
    requires e.Attach? ==> LoadedFrom(DiskAfter(disks, es, e.id), e.store)
    ensures Persistent(disks, es + [e])
  {
    forall i | 0 <= i < |es| + 1 ensures LoadsDisk(disks, es + [e], i) {
      if i < |es| {
        assert LoadsDisk(disks, es, i);
        assert (es + [e])[..i] == es[..i];
      } else {
        assert (es + [e])[..i] == es;
      }
    }
  }

  /** A step that writes no files. */
  lemma OtherReached(ws: seq<State>, es: seq<Event>, w: State, one: Directory, two: Directory, e: Event, w': State)
    requires Reached(ws, es, w, one, two) && Step(w, e, w') && !e.Put?
    requires e.Attach? ==> e.id in {1, 2} && LoadedFrom(if e.id == 1 then one else two, e.store)
    ensures Reached(ws + [w'], es + [e], w', one, two)
  {
    RunExtended(ws, es, e, w');
    PersistentExtended(map[], es, e);
    assert (es + [e])[..|es|] == es;
  }

  function Saved(value: Stats): Directory { map[FileName(KEY) := FileContents(value)] }

  lemma PutReached(ws: seq<State>, es: seq<Event>, w: State, one: Directory, two: Directory, value: Stats,
                   targets: seq<uint64>,
                   w': State, one': Directory, two': Directory)
    requires Reached(ws, es, w, one, two) && PutStep(w, KEY, value, targets, w')
    requires one' == if 1 in targets then one[FileName(KEY) := FileContents(value)] else one
    requires two' == if 2 in targets then two[FileName(KEY) := FileContents(value)] else two
    ensures Reached(ws + [w'], es + [Put(KEY, value, targets)], w', one', two')
  {
    var e := Put(KEY, value, targets);
    RunExtended(ws, es, e, w');
    PersistentExtended(map[], es, e);
    assert (es + [e])[..|es|] == es;
  }

  lemma FirstJoins() returns (ws: seq<State>, es: seq<Event>)
    ensures Reached(ws, es, State(map[1 := FIRST], {"a"}, map[], map[1 := map[]], map[1 := 0], 0), map[], map[])
  {
    StartReached();
    ws, es := [INITIAL], [];
    var w1 := State(map[1 := Registered("a")], {"a"}, map[], map[], map[], 0);
    OtherReached(ws, es, INITIAL, map[], map[], Register("a", 1), w1);
    ws, es := ws + [w1], es + [Register("a", 1)];
    var w2 := State(map[1 := Registered("a").(rpcClient := Some(1))], {"a"}, map[], map[1 := map[]], map[1 := 0], 0);
    OtherReached(ws, es, w1, map[], map[], Attach(1, map[], 0), w2);
    ws, es := ws + [w2], es + [Attach(1, map[], 0)];
    var w3 := State(map[1 := FIRST], {"a"}, map[], map[1 := map[]], map[1 := 0], 0);
    OtherReached(ws, es, w2, map[], map[], Connect(Info(1), None), w3);
    ws, es := ws + [w3], es + [Connect(Info(1), None)];
  }

  lemma SecondJoins() returns (ws: seq<State>, es: seq<Event>)
    ensures Reached(ws, es, Both(CONNECTED, map[], map[], map[]), map[], map[])
  {
    ws, es := FirstJoins();
    var w := State(map[1 := FIRST], {"a"}, map[], map[1 := map[]], map[1 := 0], 0);
    var w1 := State(map[1 := FIRST, 2 := Registered("b")], {"a", "b"}, map[], map[1 := map[]], map[1 := 0], 0);
    OtherReached(ws, es, w, map[], map[], Register("b", 2), w1);
    ws, es := ws + [w1], es + [Register("b", 2)];
    var w2 := State(map[1 := FIRST, 2 := Registered("b").(rpcClient := Some(2))], {"a", "b"}, map[],
                    map[1 := map[], 2 := map[]], map[1 := 0, 2 := 0], 0);
    OtherReached(ws, es, w1, map[], map[], Attach(2, map[], 0), w2);
    ws, es := ws + [w2], es + [Attach(2, map[], 0)];
    var w3 := Both(CONNECTED, map[], map[], map[]);
    OtherReached(ws, es, w2, map[], map[], Connect(Info(2), Some(1)), w3);
    ws, es := ws + [w3], es + [Connect(Info(2), Some(1))];
  }

  lemma ConnectedOfOneOrTwo(conns: Connections)
    requires conns.Keys == {1, 2} && IsConnected(conns, 1)
    ensures ConnectedAmong(conns, [1, 2]) == if IsConnected(conns, 2) then [1, 2] else [1]
    ensures |ConnectedOf(conns)| == if IsConnected(conns, 2) then 2 else 1
  {
    assert [1, 2][..1] == [1];
    assert ConnectedAmong(conns, [1]) == [1];
    assert ConnectedOf(conns) == if IsConnected(conns, 2) then {1, 2} else {1};
  }

  const HELD: map<uint64, seq<uint64>> := map[KEY := [1, 2]]

  lemma NewListOfTwo(key: uint64)
    ensures AddHolders(map[], key, [1, 2]) == map[key := [1, 2]]
  {
    var none: map<uint64, seq<uint64>>, one: seq<uint64>, two: seq<uint64> := map[], [1], [1, 2];
    assert two[..1] == one && one[..0] == [];
    assert AddHolders(none, key, one[..0]) == none;
    assert HoldersIn(none, key) + [1] == one;
    assert AddHolders(none, key, one) == AddHolder(none, key, 1) == map[key := one];
    assert HoldersIn(map[key := one], key) + [2] == two;
  }

  lemma BothAreTargets(conns: Connections, key: uint64)
    requires conns.Keys == {1, 2} && IsConnected(conns, 1) && IsConnected(conns, 2)
    ensures IsTargets(conns, map[], key, [1, 2])
  {
    ConnectedOfOneOrTwo(conns);
  }

  lemma FirstIsTarget(conns: Connections, holders: map<uint64, seq<uint64>>, key: uint64)
    requires conns.Keys == {1, 2} && IsConnected(conns, 1) && !IsConnected(conns, 2) &&
        HoldersIn(holders, key) == [1, 2]
    ensures IsTargets(conns, holders, key, [1]) && AddHolders(holders, key, [1]) == holders
  {
    ConnectedOfOneOrTwo(conns);
    KnownHoldersAddNothing(holders, key, [1]);
  }

  lemma WrittenToTwo(key: uint64, value: Stats, one: KVMap, two: KVMap, targets: seq<uint64>)
    requires 1 in targets
    ensures Written(map[1 := one, 2 := two], key, value, targets)
         == map[1 := one[key := value], 2 := if 2 in targets then two[key := value] else two]
  {
  }

  lemma OldIsPut()
    ensures PutStep(Both(CONNECTED, map[], map[], map[]), KEY, OLD, [1, 2],
        Both(CONNECTED, HELD, map[KEY := OLD], map[KEY := OLD]))
  {
    BothAreTargets(Both(CONNECTED, map[], map[], map[]).conns, KEY);
    NewListOfTwo(KEY);
    WrittenToTwo(KEY, OLD, map[], map[], [1, 2]);
  }

  lemma NewIsPut()
    ensures PutStep(Both(NOTINGAME, HELD, map[KEY := OLD], map[KEY := OLD]), KEY, NEW, [1],
                    Both(NOTINGAME, HELD, map[KEY := NEW], map[KEY := OLD]))
  {
    FirstIsTarget(Both(NOTINGAME, HELD, map[KEY := OLD], map[KEY := OLD]).conns, HELD, KEY);
    WrittenToTwo(KEY, NEW, map[KEY := OLD], map[KEY := OLD], [1]);
    assert map[KEY := OLD][KEY := NEW] == map[KEY := NEW];
  }

  lemma SavedIsLoaded(key: uint64, value: Stats)
    requires key < INT64_MAX
    ensures LoadedFrom(map[FileName(key) := FileContents(value)], map[key := value])
  {
    FileNameFacts(key);
    FileContentsRoundTrip(value);
    assert YieldsLast(map[FileName(key) := FileContents(value)], FileName(key), key, value);
  }

  lemma BothGetOld() returns (ws: seq<State>, es: seq<Event>)
    ensures Reached(ws, es, Both(CONNECTED, HELD, map[KEY := OLD], map[KEY := OLD]), Saved(OLD), Saved(OLD))
  {
    ws, es := SecondJoins();
    var w0, w1 := Both(CONNECTED, map[], map[], map[]), Both(CONNECTED, HELD, map[KEY := OLD], map[KEY := OLD]);
    OldIsPut();
    PutReached(ws, es, w0, map[], map[], OLD, [1, 2], w1, Saved(OLD), Saved(OLD));
    ws, es := ws + [w1], es + [Put(KEY, OLD, [1, 2])];
  }

  lemma SecondLeaves() returns (ws: seq<State>, es: seq<Event>)
    ensures Reached(ws, es, Both(NOTINGAME, HELD, map[KEY := OLD], map[KEY := OLD]), Saved(OLD), Saved(OLD))
  {
    ws, es := BothGetOld();
    var w0 := Both(CONNECTED, HELD, map[KEY := OLD], map[KEY := OLD]);
    var w1 := Both(NOTINGAME, HELD, map[KEY := OLD], map[KEY := OLD]);
    OtherReached(ws, es, w0, Saved(OLD), Saved(OLD), Disconnect(2), w1);
    ws, es := ws + [w1], es + [Disconnect(2)];
  }

  lemma SecondMissesPut() returns (ws: seq<State>, es: seq<Event>)
    ensures Reached(ws, es, Both(NOTINGAME, HELD, map[KEY := NEW], map[KEY := OLD]), Saved(NEW), Saved(OLD))
    ensures |es| > 0 && es[|es| - 1] == Put(KEY, NEW, [1])
  {
    ws, es := SecondLeaves();
    var w0 := Both(NOTINGAME, HELD, map[KEY := OLD], map[KEY := OLD]);
    var w1 := Both(NOTINGAME, HELD, map[KEY := NEW], map[KEY := OLD]);
    NewIsPut();
    PutReached(ws, es, w0, Saved(OLD), Saved(OLD), NEW, [1], w1, Saved(NEW), Saved(OLD));
    ws, es := ws + [w1], es + [Put(KEY, NEW, [1])];
  }

  lemma SecondDialsAgain() returns (ws: seq<State>, es: seq<Event>, p: nat)
    ensures Reached(ws, es, Both(NOTINGAME, HELD, map[KEY := NEW], map[KEY := OLD]), Saved(NEW), Saved(OLD))
    ensures |es| == p + 2 && es[p] == Put(KEY, NEW, [1]) && es[p + 1] == Attach(2, map[KEY := OLD], 0)
  {
    ws, es := SecondMissesPut();
    p := |es| - 1;
    var w := Both(NOTINGAME, HELD, map[KEY := NEW], map[KEY := OLD]);
    SavedIsLoaded(KEY, OLD);
    OtherReached(ws, es, w, Saved(NEW), Saved(OLD), Attach(2, map[KEY := OLD], 0), w);
    ws, es := ws + [w], es + [Attach(2, map[KEY := OLD], 0)];
  }

  lemma SecondJoinsAgain() returns (ws: seq<State>, es: seq<Event>, p: nat)
    ensures Reached(ws, es, Both(CONNECTED, HELD, map[KEY := NEW], map[KEY := OLD]), Saved(NEW), Saved(OLD))
    ensures |es| == p + 3 && es[p] == Put(KEY, NEW, [1])
    ensures es[p + 1] == Attach(2, map[KEY := OLD], 0) && es[p + 2] == Connect(Info(2), Some(1))
  {
    ws, es, p := SecondDialsAgain();
    var w0 := Both(NOTINGAME, HELD, map[KEY := NEW], map[KEY := OLD]);
    var w1 := Both(CONNECTED, HELD, map[KEY := NEW], map[KEY := OLD]);
    OtherReached(ws, es, w0, Saved(NEW), Saved(OLD), Connect(Info(2), Some(1)), w1);
    ws, es := ws + [w1], es + [Connect(Info(2), Some(1))];
  }

  lemma SecondIsAsked(w: State, key: uint64)
    requires w.conns.Keys == {1, 2} && w.Connected(1) && w.Connected(2) && w.Holders(key) == [1, 2]
    ensures ReplyTo(w, 1, key) == Found(w.StoredAt(2, key))
  {
    ConnectedOfOneOrTwo(w.conns);
  }

  /** A run of the server, with no fault of any disk, that ends with a KVGet that replies OLD after NEW was put last. */
  lemma StaleReadRun() returns (ws: seq<State>, es: seq<Event>, p: nat)
    ensures Run(ws, es) && Persistent(map[], es) && |es| == p + 4
    ensures IsLastPut(es, p, p + 3, KEY) && es[p].value == NEW
    ensures es[p + 3] == Get(1, KEY, Found(OLD))
  {
    ws, es, p := SecondJoinsAgain();
    var w := Both(CONNECTED, HELD, map[KEY := NEW], map[KEY := OLD]);
    SecondIsAsked(w, KEY);
    OtherReached(ws, es, w, Saved(NEW), Saved(OLD), Get(1, KEY, Found(OLD)), w);
    ws, es := ws + [w], es + [Get(1, KEY, Found(OLD))];
  }
}
