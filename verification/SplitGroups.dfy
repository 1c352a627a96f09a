/** A run in which clients only join and that leaves two groups of clients that do not hear each other. */
module SplitGroups {
  import opened Base
  import opened Graphs
  import opened PeerGraph
  import World

  /** The run has come to these states of the server and of the tables. */
  ghost predicate Reached(ws: seq<World.State>, ts: seq<Tables>, es: seq<Event>, w: World.State, t: Tables) {
    JoiningRun(ws, ts, es) && ws[|es|] == w && ts[|es|] == t
  }

  lemma ReachedNext(ws: seq<World.State>, ts: seq<Tables>, es: seq<Event>, w: World.State, t: Tables, e: Event,
                    w': World.State, t': Tables)
    requires Reached(ws, ts, es, w, t) && Step(w, t, e, w', t') && JoinsAt(w, e)
    ensures Reached(ws + [w'], ts + [t'], es + [e], w', t')
  {
    var ws', ts', es' := ws + [w'], ts + [t'], es + [e];
    forall i | 0 <= i < |es'| ensures StepAt(ws', ts', es', i) && JoinsAt(ws'[i], es'[i]) {
      if i < |es| {
        JoiningStep(ws, ts, es, i);
      }
    }
  }

  function Registered(name: string): World.Connection {
    World.Connection(World.NOTINGAME, name, "", None, "", None, 0, World.NO_PEER)
  }

  function Info(id: uint64): World.PeerInfo { World.PeerInfo("", "", id, "") }

  /** The connection of a client in the game; partner 0 stands for none. */
  function InGame(id: uint64, partner: uint64): World.Connection {
    World.Connection(World.CONNECTED, "", "", Some(id), "", None, 0,
        if partner == 0 then World.NO_PEER else Info(partner))
  }

  /** The clients in the game with their partners. */
  function Conns(partners: map<uint64, uint64>): World.Connections {
    map id | id in partners :: InGame(id, partners[id])
  }

  /** A state of the server with these clients in the game. */
  predicate Has(w: World.State, partners: map<uint64, uint64>) { w.conns == Conns(partners) }

  /** Client id registers and its channel is accepted. */
  lemma Dial(ws: seq<World.State>, ts: seq<Tables>, es: seq<Event>, w: World.State, t: Tables, id: uint64, name: string)
    returns (ws': seq<World.State>, ts': seq<Tables>, es': seq<Event>)
    requires Reached(ws, ts, es, w, t) && id != 0 && id !in w.conns && name !in w.names
    ensures Reached(ws', ts', es', Dialled(w, id, name), t)
  {
    var w1 := w.(names := w.names + {name}, conns := w.conns[id := Registered(name)]);
    ReachedNext(ws, ts, es, w, t, Server(World.Register(name, id)), w1, t);
    ws', ts', es' := ws + [w1], ts + [t], es + [Server(World.Register(name, id))];
    var w2 := Dialled(w, id, name);
    assert w2.conns == w1.conns[id := w1.conns[id].(rpcClient := Some(id))];
    ReachedNext(ws', ts', es', w1, t, Server(World.Attach(id, map[], 0)), w2, t);
    ws', ts', es' := ws' + [w2], ts' + [t], es' + [Server(World.Attach(id, map[], 0))];
  }

  function Dialled(w: World.State, id: uint64, name: string): World.State {
    w.(names := w.names + {name}, conns := w.conns[id := Registered(name).(rpcClient := Some(id))],
       stores := w.stores[id := map[]], clocks := w.clocks[id := 0])
  }

  /** It then connects, and is given that partner: one in the game, or none when nobody is. */
  lemma Join(ws: seq<World.State>, ts: seq<Tables>, es: seq<Event>, w: World.State, t: Tables,
             partners: map<uint64, uint64>,
             id: uint64, name: string, partner: uint64)
    returns (ws': seq<World.State>, ts': seq<Tables>, es': seq<Event>, w': World.State)
    requires Reached(ws, ts, es, w, t) && Has(w, partners)
    requires id != 0 && id !in partners && 0 !in partners && name !in w.names
    requires if partner == 0 then partners == map[] else partner in partners
    ensures Reached(ws', ts', es', w', t.(peers := t.peers[id := {}]))
    ensures Has(w', partners[id := partner]) && w'.names == w.names + {name}
  {
    ws', ts', es' := Dial(ws, ts, es, w, t, id, name);
    var w1, e := Dialled(w, id, name), World.Connect(Info(id), if partner == 0 then None else Some(partner));
    w' := w1.(conns := w1.conns[id := InGame(id, partner)]);
    ConnectIsStep(w1, partners, id, name, partner, w');
    var t' := t.(peers := t.peers[id := {}]);
    ReachedNext(ws', ts', es', w1, t, Server(e), w', t');
    ws', ts', es' := ws' + [w'], ts' + [t'], es' + [Server(e)];
    assert w'.conns == Conns(partners[id := partner]);
  }

  lemma ConnectIsStep(w: World.State, partners: map<uint64, uint64>, id: uint64, name: string, partner: uint64,
                      w': World.State)
    requires id !in partners && 0 !in partners &&
        w.conns == Conns(partners)[id := Registered(name).(rpcClient := Some(id))]
    requires if partner == 0 then partners == map[] else partner in partners
    requires w' == w.(conns := w.conns[id := InGame(id, partner)])
    ensures World.ConnectAccepted(w.conns, id)
    ensures World.Step(w, World.Connect(Info(id), if partner == 0 then None else Some(partner)), w')
  {
    var pick := if partner == 0 then None else Some(partner);
    assert World.IsOtherConnected(w.conns, id, pick);
    assert partner != 0 ==> World.InfoOf(w.conns, partner) == Info(partner);
  }

  /** Client n asks the server, is told about its partner, adds it, and its Register call arrives there. */
  lemma AskAndRegister(ws: seq<World.State>, ts: seq<Tables>, es: seq<Event>, w: World.State, t: Tables,
                       partners: map<uint64, uint64>, n: uint64, p: uint64)
    returns (ws': seq<World.State>, ts': seq<Tables>, es': seq<Event>, w': World.State)
    requires Reached(ws, ts, es, w, t) && Has(w, partners) && t.registering == multiset{}
    requires n in partners && p in partners && p != n && 0 !in partners && (partners[n] == p || partners[n] == 0)
    requires MayAsk(t, n) && p in t.peers && p !in t.peers[n]
    ensures Reached(ws', ts', es', w', Tables(t.peers[n := t.peers[n] + {p}][p := t.peers[p] + {n}], multiset{}))
    ensures Has(w', partners[n := p]) && w'.names == w.names
  {
    w' := w.(conns := w.conns[n := InGame(n, p)]);
    var ask := Ask(n, Some(p), [Info(p)]);
    AskIsStep(w, partners, n, p, w');
    var t1 := Tables(t.peers[n := t.peers[n] + {p}], multiset{Call(n, p)});
    TellsOne(t, n, p);
    ReachedNext(ws, ts, es, w, t, ask, w', t1);
    ws', ts', es' := ws + [w'], ts + [t1], es + [ask];
    var t2 := Tables(t.peers[n := t.peers[n] + {p}][p := t.peers[p] + {n}], multiset{});
    assert t2 == Received(t1, n, p);
    ReachedNext(ws', ts', es', w', t1, PeerGraph.Registered(n, p), w', t2);
    ws', ts', es' := ws' + [w'], ts' + [t2], es' + [PeerGraph.Registered(n, p)];
    assert w'.conns == Conns(partners[n := p]);
  }

  lemma TellsOne(t: Tables, n: uint64, p: uint64)
    requires n in t.peers && p != n && p !in t.peers[n] && t.registering == multiset{}
    ensures AddedAll(t, n, [Info(p)]) == Tables(t.peers[n := t.peers[n] + {p}], multiset{Call(n, p)})
  {
    assert [Info(p)][1..] == [];
    assert AddedAll(t, n, [Info(p)]) == Added(t, n, p);
  }

  lemma AskIsStep(w: World.State, partners: map<uint64, uint64>, n: uint64, p: uint64, w': World.State)
    requires Has(w, partners) && n in partners && p in partners && p != n && 0 !in partners
    requires partners[n] == p || partners[n] == 0
    requires w' == w.(conns := w.conns[n := InGame(n, p)])
    ensures World.Step(w, World.GetNodes(n, Some(p), [Info(p)]), w')
  {
    assert World.IsOtherConnected(w.conns, n, Some(p));
    assert World.InfoOf(w.conns, p) == Info(p);
    assert partners[n] == 0 ==> World.NeedsPartner(w.conns, n);
    assert World.PartnerAfter(w.conns, n, Some(p)) == Info(p);
  }

  function Known(one: set<uint64>, two: set<uint64>, three: set<uint64>, four: set<uint64>, five: set<uint64>): Graph {
    map[1 := one, 2 := two, 3 := three, 4 := four, 5 := five]
  }

  /** What the run has come to: these partners, these tables, and no call under way. */
  ghost predicate Stands(ws: seq<World.State>, ts: seq<Tables>, es: seq<Event>, names: set<string>,
                         partners: map<uint64, uint64>,
                         g: Graph) {
    Run(ws, ts, es) && Has(ws[|es|], partners) && ws[|es|].names == names
    && Reached(ws, ts, es, ws[|es|], Tables(g, multiset{}))
  }

  lemma JoinStands(ws: seq<World.State>, ts: seq<Tables>, es: seq<Event>, names: set<string>,
                   partners: map<uint64, uint64>,
                   g: Graph, id: uint64, name: string, partner: uint64, partners': map<uint64, uint64>, g': Graph)
    returns (ws': seq<World.State>, ts': seq<Tables>, es': seq<Event>)
    requires Stands(ws, ts, es, names, partners, g)
    requires id != 0 && id !in partners && 0 !in partners && name !in names
    requires if partner == 0 then partners == map[] else partner in partners
    requires partners' == partners[id := partner] && g' == g[id := {}]
    ensures Stands(ws', ts', es', names + {name}, partners', g')
  {
    var w';
    ws', ts', es', w' := Join(ws, ts, es, ws[|es|], Tables(g, multiset{}), partners, id, name, partner);
  }

  lemma AskStands(ws: seq<World.State>, ts: seq<Tables>, es: seq<Event>, names: set<string>,
                  partners: map<uint64, uint64>,
                  g: Graph, n: uint64, p: uint64, partners': map<uint64, uint64>, g': Graph)
    returns (ws': seq<World.State>, ts': seq<Tables>, es': seq<Event>)
    requires Stands(ws, ts, es, names, partners, g)
    requires n in partners && p in partners && p != n && 0 !in partners && (partners[n] == p || partners[n] == 0)
    requires n in g && g[n] == {} && p in g
    requires partners' == partners[n := p] && g' == g[n := {p}][p := g[p] + {n}]
    ensures Stands(ws', ts', es', names, partners', g')
  {
    var w';
    assert g[n] + {p} == {p};
    ws', ts', es', w' := AskAndRegister(ws, ts, es, ws[|es|], Tables(g, multiset{}), partners, n, p);
  }

  lemma NobodyStands()
    ensures Stands([World.INITIAL], [NO_TABLES], [], {}, map[], map[])
  {
    assert Conns(map[]) == map[];
  }

  lemma FirstGroup() returns (ws: seq<World.State>, ts: seq<Tables>, es: seq<Event>)
    ensures Stands(ws, ts, es, {"a", "b"}, map[1 := 2, 2 := 1], map[1 := {2}, 2 := {1}])
  {
    NobodyStands();
    ws, ts, es := [World.INITIAL], [NO_TABLES], [];
    ws, ts, es := JoinStands(ws, ts, es, {}, map[], map[], 1, "a", 0, map[1 := 0], map[1 := {}]);
    ws, ts, es := JoinStands(ws, ts, es, {} + {"a"}, map[1 := 0], map[1 := {}], 2, "b", 1, map[1 := 0, 2 := 1],
        map[1 := {}, 2 := {}]);
    var none: set<uint64>, one: set<uint64>, two: set<uint64> := {}, {1}, {2};
    assert none + {1} == one;
    assert map[1 := none, 2 := none][1 := two][2 := none + {1}] == map[1 := two, 2 := one];
    ws, ts, es := AskStands(ws, ts, es, {} + {"a"} + {"b"}, map[1 := 0, 2 := 1], map[1 := none, 2 := none], 1, 2,
                            map[1 := 2, 2 := 1], map[1 := two, 2 := one]);
    assert {} + {"a"} + {"b"} == {"a", "b"};
  }

  /** Clients 3 and 4 join, and 4 asks first. */
  lemma SecondGroup() returns (ws: seq<World.State>, ts: seq<Tables>, es: seq<Event>)
    ensures Stands(ws, ts, es, {"a", "b"} + {"c"} + {"d"}, map[1 := 2, 2 := 1, 3 := 1, 4 := 3],
                   map[1 := {2}, 2 := {1}, 3 := {4}, 4 := {3}])
  {
    var none: set<uint64>, one: set<uint64>, two: set<uint64> := {}, {1}, {2};
    var three: set<uint64>, four: set<uint64> := {3}, {4};
    ws, ts, es := FirstGroup();
    ws, ts, es := JoinStands(ws, ts, es, {"a", "b"}, map[1 := 2, 2 := 1], map[1 := two, 2 := one], 3, "c", 1,
                             map[1 := 2, 2 := 1, 3 := 1], map[1 := two, 2 := one, 3 := none]);
    ws, ts, es := JoinStands(ws, ts, es, {"a", "b"} + {"c"}, map[1 := 2, 2 := 1, 3 := 1],
                             map[1 := two, 2 := one, 3 := none], 4, "d", 3,
                             map[1 := 2, 2 := 1, 3 := 1, 4 := 3], map[1 := two, 2 := one, 3 := none, 4 := none]);
    assert none + {4} == four;
    ws, ts, es := AskStands(ws, ts, es, {"a", "b"} + {"c"} + {"d"}, map[1 := 2, 2 := 1, 3 := 1, 4 := 3],
                            map[1 := two, 2 := one, 3 := none, 4 := none], 4, 3,
                            map[1 := 2, 2 := 1, 3 := 1, 4 := 3], map[1 := two, 2 := one, 3 := four, 4 := three]);
  }

  const PARTNERS: map<uint64, uint64> := map[1 := 2, 2 := 1, 3 := 1, 4 := 3, 5 := 3]

  /** Client 5 joins and asks before 3 does; 3 then has two peers. */
  lemma ThirdStaysApart() returns (ws: seq<World.State>, ts: seq<Tables>, es: seq<Event>)
    ensures Stands(ws, ts, es, {"a", "b"} + {"c"} + {"d"} + {"e"}, PARTNERS, Known({2}, {1}, {4, 5}, {3}, {3}))
  {
    var none: set<uint64>, one: set<uint64>, two: set<uint64> := {}, {1}, {2};
    var three: set<uint64>, four: set<uint64> := {3}, {4};
    var both: set<uint64> := {4, 5};
    ws, ts, es := SecondGroup();
    ws, ts, es := JoinStands(ws, ts, es, {"a", "b"} + {"c"} + {"d"}, map[1 := 2, 2 := 1, 3 := 1, 4 := 3],
                             map[1 := two, 2 := one, 3 := four, 4 := three], 5, "e", 3,
                             PARTNERS, Known(two, one, four, three, none));
    assert four + {5} == both;
    ws, ts, es := AskStands(ws, ts, es, {"a", "b"} + {"c"} + {"d"} + {"e"}, PARTNERS,
        Known(two, one, four, three, none), 5, 3,
                            PARTNERS, Known(two, one, both, three, three));
  }

  lemma {:induction false} PathStaysIn(g: Graph, player: uint64, p: seq<uint64>, inside: set<uint64>, k: nat)
    requires IsPath(g, player, p) && p[0] in inside && k < |p|
    requires forall n :: n in inside ==> Neighbours(g, player, n) <= inside
    ensures p[k] in inside
  {
    if k > 0 {
      PathStaysIn(g, player, p, inside, k - 1);
      assert IsHop(g, player, p, k - 1);
    }
  }

  /** No client of one group has a path to one of the other. */
  ghost predicate Apart(g: Graph, one: set<uint64>, other: set<uint64>) {
    forall a, b :: (a in one && b in other) || (a in other && b in one) ==> !Reachable(g, a, a, b)
  }

  lemma CutOff(g: Graph, inside: set<uint64>, a: uint64, b: uint64)
    requires forall n :: n in inside ==> Neighbours(g, a, n) <= inside
    requires a in inside && b !in inside
    ensures !Reachable(g, a, a, b)
  {
    if Reachable(g, a, a, b) {
      var p :| PathTo(g, a, a, p, b);
      PathStaysIn(g, a, p, inside, |p| - 1);
    }
  }

  lemma GroupsApart(g: Graph)
    requires g == Known({2}, {1}, {4, 5}, {3}, {3})
    ensures Apart(g, {1, 2}, {3, 4, 5})
  {
    forall a, b | (a in {1, 2} && b in {3, 4, 5}) || (a in {3, 4, 5} && b in {1, 2}) ensures !Reachable(g, a, a, b) {
      CutOff(g, if a in {1, 2} then {1, 2} else {3, 4, 5}, a, b);
    }
  }

  lemma SplitIsSettled(w: World.State, t: Tables)
    requires Has(w, PARTNERS) && t == Tables(Known({2}, {1}, {4, 5}, {3}, {3}), multiset{})
    ensures Settled(w, t)
  {
    assert |{4 as uint64, 5}| == 2;
  }

  /** A run that goes on from the first one up to its event k without anybody else entering the game. */
  ghost predicate Continues(ws: seq<World.State>, ts: seq<Tables>, es: seq<Event>, vs: seq<World.State>,
                            us: seq<Tables>,
                            fs: seq<Event>, k: nat) {
    && ws <= vs && ts <= us && es <= fs && JoiningRun(vs, us, fs) && |es| <= k < |vs|
    && NobodyEnters(vs, fs, |es|, k)
  }

  /** However such a run goes on, the tables stay as they are. */
  ghost predicate Final(ws: seq<World.State>, ts: seq<Tables>, es: seq<Event>)
    requires |ts| == |es| + 1
  {
    forall vs, us, fs, k :: Continues(ws, ts, es, vs, us, fs, k) ==> us[k] == ts[|es|]
  }

  lemma SettledIsFinal(ws: seq<World.State>, ts: seq<Tables>, es: seq<Event>)
    requires JoiningRun(ws, ts, es) && Settled(ws[|es|], ts[|es|])
    ensures Final(ws, ts, es)
  {
    forall vs, us, fs, k | Continues(ws, ts, es, vs, us, fs, k) ensures us[k] == ts[|es|] {
      assert vs[|es|] == ws[|es|] && us[|es|] == ts[|es|];
      SettledStays(vs, us, fs, |es|, k);
    }
  }

  /** That everybody asks in time cannot be dropped: client 3, with whom two others register before it first asks the
      server, never asks. The others may go on asking and are told nothing new: as long as nobody else joins, 1 and 2
      stay cut off from 3, 4 and 5. */
  lemma LateAskingSplits() returns (ws: seq<World.State>, ts: seq<Tables>, es: seq<Event>)
    ensures JoiningRun(ws, ts, es) && Final(ws, ts, es)
    ensures forall id :: id in {1, 2, 3, 4, 5} ==> ws[|es|].Connected(id)
    ensures Apart(ts[|es|].peers, {1, 2}, {3, 4, 5})
  {
    ws, ts, es := ThirdStaysApart();
    SplitIsSettled(ws[|es|], ts[|es|]);
    SettledIsFinal(ws, ts, es);
    GroupsApart(ts[|es|].peers);
  }
}
