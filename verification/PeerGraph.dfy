/** The server and the clients' peer tables together: who ends up knowing whom, and who hears a player. */
module PeerGraph {
  import opened Base
  import opened Graphs
  import Recording
  import opened Updates
  import Flood = UpdateFlood
  import PartnerGraph
  import World
  import WorkerNetwork

  /** A Register call under way: its sender has added the receiver. */
  datatype Call = Call(sender: uint64, receiver: uint64)

  /** The tables of the clients in the game. */
  datatype Tables = Tables(peers: Graph, registering: multiset<Call>)

  const NO_TABLES := Tables(map[], multiset{})

  /** A handler of the server other than GetNodes, a client's round of asking for peers with the server's GetNodes in
      it, or a Register call that arrives. */
  datatype Event =
    | Server(e: World.Event)
    | Ask(n: uint64, pick: Option<uint64>, reply: seq<World.PeerInfo>)
    | Registered(n: uint64, p: uint64)

  /** What getMorePeers does with one client that it is told about. */
  function Added(t: Tables, n: uint64, p: uint64): (t': Tables)
    requires n in t.peers
    ensures t'.peers.Keys == t.peers.Keys
  {
    if p == n || p in t.peers[n] then t
    else Tables(t.peers[n := t.peers[n] + {p}], t.registering + multiset{Call(n, p)})
  }

  function AddedAll(t: Tables, n: uint64, reply: seq<World.PeerInfo>): Tables
    requires n in t.peers
    decreases |reply|
  {
    if reply == [] then t else AddedAll(Added(t, n, reply[0].clientID), n, reply[1..])
  }

  /** A client enters the game in a new process, which knows nobody. */
  function Entered(t: Tables, w: World.State, e: World.Event): Tables {
    if e.Connect? && World.ConnectAccepted(w.conns, e.info.clientID)
    then t.(peers := t.peers[e.info.clientID := {}])
    else t
  }

  function Received(t: Tables, n: uint64, p: uint64): Tables
    requires p in t.peers
  {
    Tables(t.peers[p := t.peers[p] + {n}], t.registering - multiset{Call(n, p)})
  }

  /** A client asks only while it has too few peers. */
  predicate MayAsk(t: Tables, n: uint64) { n in t.peers && |t.peers[n]| < World.MIN_PEER_CONNECTIONS }

  ghost predicate Step(w: World.State, t: Tables, e: Event, w': World.State, t': Tables) {
    match e
    case Server(s) => !s.GetNodes? && World.Step(w, s, w') && t' == Entered(t, w, s)
    case Ask(n, pick, reply) =>
      MayAsk(t, n) && World.Step(w, World.GetNodes(n, pick, reply), w') && t' == AddedAll(t, n, reply)
    case Registered(n, p) => w' == w && Call(n, p) in t.registering && p in t.peers && t' == Received(t, n, p)
  }

  ghost predicate StepAt(ws: seq<World.State>, ts: seq<Tables>, es: seq<Event>, i: nat)
    requires |ws| == |ts| == |es| + 1 && i < |es|
  {
    Step(ws[i], ts[i], es[i], ws[i + 1], ts[i + 1])
  }

  ghost predicate Run(ws: seq<World.State>, ts: seq<Tables>, es: seq<Event>) {
    && |ws| == |ts| == |es| + 1
    && ws[0] == World.INITIAL && ts[0] == NO_TABLES
    && forall i :: 0 <= i < |es| ==> StepAt(ws, ts, es, i)
  }

  function ServerEvent(e: Event): Option<World.Event> {
    match e
    case Server(s) => Some(s)
    case Ask(n, pick, reply) => Some(World.GetNodes(n, pick, reply))
    case Registered(_, _) => None
  }

  /** New ids are nonzero and fresh, and nobody leaves or is reported. */
  ghost predicate OnlyJoins(ws: seq<World.State>, es: seq<Event>)
    requires |ws| == |es| + 1
  {
    forall i :: 0 <= i < |es| ==> JoinsAt(ws[i], es[i])
  }

  predicate JoinsAt(w: World.State, e: Event) {
    ServerEvent(e).Some? ==> PartnerGraph.Joins(w, ServerEvent(e).value)
  }

  ghost predicate JoiningRun(ws: seq<World.State>, ts: seq<Tables>, es: seq<Event>) {
    Run(ws, ts, es) && OnlyJoins(ws, es)
  }

  lemma JoiningStep(ws: seq<World.State>, ts: seq<Tables>, es: seq<Event>, i: nat)
    requires JoiningRun(ws, ts, es) && i < |es|
    ensures Step(ws[i], ts[i], es[i], ws[i + 1], ts[i + 1]) && JoinsAt(ws[i], es[i])
  {
    assert StepAt(ws, ts, es, i);
  }

  lemma JoinsExtended(vs: seq<World.State>, fs: seq<World.Event>, f: World.Event, w: World.State)
    requires |vs| == |fs| + 1 && PartnerGraph.OnlyJoins(vs, fs) && PartnerGraph.Joins(vs[|fs|], f)
    ensures PartnerGraph.OnlyJoins(vs + [w], fs + [f])
  {
  }

  /** The server's part is a run of the server. */
  lemma {:induction false} ServerRun(ws: seq<World.State>, ts: seq<Tables>, es: seq<Event>, k: nat)
    returns (vs: seq<World.State>, fs: seq<World.Event>)
    requires JoiningRun(ws, ts, es) && k < |ws|
    ensures World.Run(vs, fs) && PartnerGraph.OnlyJoins(vs, fs) && vs[|fs|] == ws[k]
  {
    if k == 0 {
      vs, fs := [World.INITIAL], [];
    } else {
      vs, fs := ServerRun(ws, ts, es, k - 1);
      JoiningStep(ws, ts, es, k - 1);
      var f := ServerEvent(es[k - 1]);
      if f.Some? {
        World.RunExtended(vs, fs, f.value, ws[k]);
        JoinsExtended(vs, fs, f.value, ws[k]);
        vs, fs := vs + [ws[k]], fs + [f.value];
      }
    }
  }

  predicate InOrOut(w: World.State, id: uint64) {
    id in w.conns ==> w.conns[id].status.CONNECTED? || w.conns[id].status.NOTINGAME?
  }

  lemma JoinKeepsInOrOut(w: World.State, e: World.Event, w': World.State, id: uint64)
    requires World.Step(w, e, w') && PartnerGraph.Joins(w, e) && InOrOut(w, id)
    ensures InOrOut(w', id)
  {
  }

  lemma JoinConnects(w: World.State, e: World.Event, w': World.State, id: uint64)
    requires World.Step(w, e, w') && PartnerGraph.Joins(w, e) && InOrOut(w, id)
    ensures w'.Connected(id) <==> w.Connected(id) || World.Connects(w, e, id)
  {
  }

  /** The clients that have a table are those in the game. */
  lemma {:induction false} TablesOfConnected(ws: seq<World.State>, ts: seq<Tables>, es: seq<Event>, k: nat, id: uint64)
    requires JoiningRun(ws, ts, es) && k < |ws|
    ensures InOrOut(ws[k], id) && (id in ts[k].peers <==> ws[k].Connected(id))
  {
    if k > 0 {
      TablesOfConnected(ws, ts, es, k - 1, id);
      JoiningStep(ws, ts, es, k - 1);
      var e := es[k - 1];
      if ServerEvent(e).Some? {
        JoinKeepsInOrOut(ws[k - 1], ServerEvent(e).value, ws[k], id);
        JoinConnects(ws[k - 1], ServerEvent(e).value, ws[k], id);
      }
      if e.Ask? {
        AddedAllKeys(ts[k - 1], e.n, e.reply);
      }
    }
  }

  lemma {:induction false} AddedAllKeys(t: Tables, n: uint64, reply: seq<World.PeerInfo>)
    requires n in t.peers
    ensures AddedAll(t, n, reply).peers.Keys == t.peers.Keys
    decreases |reply|
  {
    if reply != [] {
      AddedAllKeys(Added(t, n, reply[0].clientID), n, reply[1..]);
    }
  }

  /** Asking adds exactly the clients that the server names, other than the asking one, to its table and to no other. */
  lemma {:induction false} AddedAllIs(t: Tables, n: uint64, reply: seq<World.PeerInfo>, id: uint64)
    requires n in t.peers
    ensures AddedAll(t, n, reply).peers.Keys == t.peers.Keys
    ensures id in AddedAll(t, n, reply).peers[n] <==>
      id in t.peers[n] || (id != n && exists p :: p in reply && p.clientID == id)
    ensures forall m :: m in t.peers && m != n ==> AddedAll(t, n, reply).peers[m] == t.peers[m]
    decreases |reply|
  {
    if reply != [] {
      AddedAllIs(Added(t, n, reply[0].clientID), n, reply[1..], id);
      assert reply == [reply[0]] + reply[1..];
    }
  }

  predicate Knows(g: Graph, a: uint64, b: uint64) { a in g && b in g[a] }

  ghost predicate Symmetric(g: Graph) {
    forall a, b :: Knows(g, a, b) ==> Knows(g, b, a)
  }

  /** The reply to a's asking names b. */
  predicate Tells(e: Event, a: uint64, b: uint64) {
    e.Ask? && e.n == a && a != b && exists p :: p in e.reply && p.clientID == b
  }

  /** By event k client a has been told about b. */
  ghost predicate Told(es: seq<Event>, k: nat, a: uint64, b: uint64) {
    exists i :: 0 <= i < k && i < |es| && Tells(es[i], a, b)
  }

  lemma ToldStep(es: seq<Event>, k: nat, a: uint64, b: uint64)
    requires k < |es|
    ensures Told(es, k + 1, a, b) <==> Told(es, k, a, b) || Tells(es[k], a, b)
  {
  }

  /** How a's knowing b, and a's call to b, come from what the two were told. */
  predicate Linked(t: Tables, a: uint64, b: uint64, toldA: bool, toldB: bool) {
    && (toldA ==> Knows(t.peers, a, b))
    && (Knows(t.peers, a, b) ==> toldA || toldB)
    && (Knows(t.peers, a, b) ==> Knows(t.peers, b, a) || Call(a, b) in t.registering)
    && (Call(a, b) in t.registering ==> toldA)
  }

  lemma {:induction false} AddedAllLinks(t: Tables, n: uint64, reply: seq<World.PeerInfo>, a: uint64, b: uint64)
    requires n in t.peers && |reply| <= 1
    ensures var told := a == n && a != b && exists p :: p in reply && p.clientID == b;
      && (Knows(AddedAll(t, n, reply).peers, a, b) <==> Knows(t.peers, a, b) || told)
      && (Call(a, b) in AddedAll(t, n, reply).registering <==>
            Call(a, b) in t.registering || (told && !Knows(t.peers, a, b)))
  {
    if reply != [] {
      assert reply[1..] == [] && AddedAll(t, n, reply) == Added(t, n, reply[0].clientID);
      assert reply[0] in reply;
    }
  }

  lemma StepLinks(w: World.State, t: Tables, e: Event, w': World.State, t': Tables, a: uint64, b: uint64, toldA: bool,
                  toldB: bool)
    requires Step(w, t, e, w', t') && Linked(t, a, b, toldA, toldB) && Linked(t, b, a, toldB, toldA)
    requires e.Server? && e.e.Connect? && World.ConnectAccepted(w.conns, e.e.info.clientID) ==>
               e.e.info.clientID !in t.peers && !Knows(t.peers, a, e.e.info.clientID) &&
                   !Knows(t.peers, b, e.e.info.clientID)
    requires e.Ask? ==> |e.reply| <= 1
    ensures Linked(t', a, b, toldA || Tells(e, a, b), toldB || Tells(e, b, a))
  {
    match e
    case Server(s) =>
    case Ask(n, pick, reply) =>
      AddedAllLinks(t, n, reply, a, b);
      AddedAllLinks(t, n, reply, b, a);
    case Registered(n, p) =>
  }

  /** Only clients in the game are known or called. */
  predicate Closed(t: Tables, a: uint64, b: uint64) {
    && (Knows(t.peers, a, b) ==> b in t.peers)
    && (Call(a, b) in t.registering ==> a in t.peers && b in t.peers)
  }

  lemma ReplyIsConnected(w: World.State, n: uint64, pick: Option<uint64>, reply: seq<World.PeerInfo>, w': World.State)
    requires World.Step(w, World.GetNodes(n, pick, reply), w')
    ensures |reply| <= 1 && forall p :: p in reply ==> w.Connected(p.clientID)
    ensures n in w.conns && reply != [] ==> n in w'.conns && reply == [w'.conns[n].partner]
    ensures n in w.conns && reply == [] ==> n in w'.conns && !w.Connected(w'.conns[n].partner.clientID)
  {
  }

  lemma StepKeepsClosed(w: World.State, t: Tables, e: Event, w': World.State, t': Tables, a: uint64, b: uint64)
    requires Step(w, t, e, w', t') && Closed(t, a, b) && Closed(t, b, a)
    requires w.Connected(b) ==> b in t.peers
    ensures Closed(t', a, b)
  {
    if e.Ask? {
      ReplyIsConnected(w, e.n, e.pick, e.reply, w');
      AddedAllLinks(t, e.n, e.reply, a, b);
      AddedAllKeys(t, e.n, e.reply);
    }
  }

  lemma ClosedNext(ws: seq<World.State>, ts: seq<Tables>, es: seq<Event>, i: nat, a: uint64, b: uint64)
    requires JoiningRun(ws, ts, es) && i < |es| && Closed(ts[i], a, b) && Closed(ts[i], b, a)
    ensures Closed(ts[i + 1], a, b)
  {
    JoiningStep(ws, ts, es, i);
    TablesOfConnected(ws, ts, es, i, b);
    StepKeepsClosed(ws[i], ts[i], es[i], ws[i + 1], ts[i + 1], a, b);
  }

  lemma {:induction false} RunClosed(ws: seq<World.State>, ts: seq<Tables>, es: seq<Event>, k: nat, a: uint64,
                                     b: uint64)
    requires JoiningRun(ws, ts, es) && k < |ws|
    ensures Closed(ts[k], a, b) && Closed(ts[k], b, a)
  {
    if k > 0 {
      RunClosed(ws, ts, es, k - 1, a, b);
      ClosedNext(ws, ts, es, k - 1, a, b);
      ClosedNext(ws, ts, es, k - 1, b, a);
    }
  }

  lemma NewcomerUnknown(ws: seq<World.State>, ts: seq<Tables>, es: seq<Event>, k: nat, a: uint64, id: uint64)
    requires JoiningRun(ws, ts, es) && k < |es| && World.ConnectAccepted(ws[k].conns, id)
    ensures id !in ts[k].peers && !Knows(ts[k].peers, a, id)
  {
    TablesOfConnected(ws, ts, es, k, id);
    RunClosed(ws, ts, es, k, a, id);
  }

  lemma ReplyShort(w: World.State, t: Tables, e: Event, w': World.State, t': Tables)
    requires Step(w, t, e, w', t')
    ensures e.Ask? ==> |e.reply| <= 1
  {
    if e.Ask? {
      ReplyIsConnected(w, e.n, e.pick, e.reply, w');
    }
  }

  /** Over every joining run: who knows whom, and which calls are under way, as far as it follows from what was told. */
  lemma {:induction false} RunLinked(ws: seq<World.State>, ts: seq<Tables>, es: seq<Event>, k: nat, a: uint64,
                                     b: uint64)
    requires JoiningRun(ws, ts, es) && k < |ws|
    ensures Linked(ts[k], a, b, Told(es, k, a, b), Told(es, k, b, a))
    ensures Linked(ts[k], b, a, Told(es, k, b, a), Told(es, k, a, b))
  {
    if k > 0 {
      var i := k - 1;
      RunLinked(ws, ts, es, i, a, b);
      JoiningStep(ws, ts, es, i);
      ReplyShort(ws[i], ts[i], es[i], ws[k], ts[k]);
      if es[i].Server? && es[i].e.Connect? && World.ConnectAccepted(ws[i].conns, es[i].e.info.clientID) {
        NewcomerUnknown(ws, ts, es, i, a, es[i].e.info.clientID);
        NewcomerUnknown(ws, ts, es, i, b, es[i].e.info.clientID);
      }
      ToldStep(es, i, a, b);
      ToldStep(es, i, b, a);
      StepLinks(ws[i], ts[i], es[i], ws[k], ts[k], a, b, Told(es, i, a, b), Told(es, i, b, a));
      StepLinks(ws[i], ts[i], es[i], ws[k], ts[k], b, a, Told(es, i, b, a), Told(es, i, a, b));
    }
  }

  /** Once no Register call is under way, two clients know each other if and only if one of them was told about the
      other. */
  lemma QuiescentKnowsIffTold(ws: seq<World.State>, ts: seq<Tables>, es: seq<Event>, k: nat, a: uint64, b: uint64)
    requires JoiningRun(ws, ts, es) && k < |ws| && ts[k].registering == multiset{}
    ensures Knows(ts[k].peers, a, b) <==> Told(es, k, a, b) || Told(es, k, b, a)
  {
    RunLinked(ws, ts, es, k, a, b);
  }

  lemma QuiescentTablesSymmetric(ws: seq<World.State>, ts: seq<Tables>, es: seq<Event>, k: nat)
    requires JoiningRun(ws, ts, es) && k < |ws| && ts[k].registering == multiset{}
    ensures Symmetric(ts[k].peers)
  {
    forall a, b | Knows(ts[k].peers, a, b) ensures Knows(ts[k].peers, b, a) {
      QuiescentKnowsIffTold(ws, ts, es, k, a, b);
      QuiescentKnowsIffTold(ws, ts, es, k, b, a);
    }
  }

  predicate HasPartner(w: World.State, n: uint64, p: uint64) {
    w.Connected(n) && w.Connected(p) && w.conns[n].partner.clientID == p
  }

  lemma JoinKeepsConnected(w: World.State, e: World.Event, w': World.State, id: uint64)
    requires World.Step(w, e, w') && PartnerGraph.Joins(w, e) && w.Connected(id)
    ensures w'.Connected(id)
  {
  }

  lemma JoinKeepsPartnerOf(w: World.State, e: World.Event, w': World.State, n: uint64, p: uint64)
    requires World.Step(w, e, w') && PartnerGraph.Joins(w, e) && w'.Connected(n)
    requires w.Connected(n) && w.Connected(p) && w.conns[n].partner.clientID == p
    ensures w'.conns[n].partner.clientID == p
  {
  }

  lemma JoinKeepsPartner(w: World.State, e: World.Event, w': World.State, n: uint64, p: uint64)
    requires World.Step(w, e, w') && PartnerGraph.Joins(w, e) && HasPartner(w, n, p)
    ensures HasPartner(w', n, p)
  {
    JoinKeepsConnected(w, e, w', n);
    JoinKeepsConnected(w, e, w', p);
    JoinKeepsPartnerOf(w, e, w', n, p);
  }

  /** While clients only join, a partner in the game stays the partner. */
  lemma {:induction false} PartnerStays(ws: seq<World.State>, ts: seq<Tables>, es: seq<Event>, i: nat, k: nat,
                                        n: uint64, p: uint64)
    requires JoiningRun(ws, ts, es) && i <= k < |ws| && HasPartner(ws[i], n, p)
    ensures HasPartner(ws[k], n, p)
  {
    if i < k {
      PartnerStays(ws, ts, es, i, k - 1, n, p);
      JoiningStep(ws, ts, es, k - 1);
      if ServerEvent(es[k - 1]).Some? {
        JoinKeepsPartner(ws[k - 1], ServerEvent(es[k - 1]).value, ws[k], n, p);
      }
    }
  }

  /** A client of the game has no partner, or another client of the game. */
  predicate PartnerInGame(w: World.State, n: uint64) {
    w.Connected(n) ==>
      var p := w.conns[n].partner.clientID; p == 0 || (p != n && w.Connected(p))
  }

  lemma JoinKeepsNonzero(w: World.State, e: World.Event, w': World.State)
    requires World.Step(w, e, w') && PartnerGraph.Joins(w, e) && 0 !in w.conns
    ensures 0 !in w'.conns
  {
  }

  lemma NewPartner(w: World.State, e: World.Event, w': World.State, n: uint64)
    requires World.Step(w, e, w') && PartnerGraph.Joins(w, e) && InOrOut(w, n) && w'.Connected(n)
    ensures var p := w'.conns[n].partner.clientID;
      || p == 0
      || (p != n && w.Connected(p))
      || (w.Connected(n) && p == w.conns[n].partner.clientID)
  {
  }

  lemma {:induction false} RunPartnerInGame(ws: seq<World.State>, ts: seq<Tables>, es: seq<Event>, k: nat, n: uint64)
    requires JoiningRun(ws, ts, es) && k < |ws|
    ensures 0 !in ws[k].conns && PartnerInGame(ws[k], n)
  {
    if k > 0 {
      var i := k - 1;
      RunPartnerInGame(ws, ts, es, i, n);
      JoiningStep(ws, ts, es, i);
      TablesOfConnected(ws, ts, es, i, n);
      var e := ServerEvent(es[i]);
      if e.Some? {
        JoinKeepsNonzero(ws[i], e.value, ws[k]);
        if ws[k].Connected(n) {
          NewPartner(ws[i], e.value, ws[k], n);
          var p := ws[k].conns[n].partner.clientID;
          if ws[i].Connected(p) {
            JoinKeepsConnected(ws[i], e.value, ws[k], p);
          }
        }
      }
    }
  }

  ghost predicate HasCompany(w: World.State, n: uint64) { exists other :: other != n && w.Connected(other) }

  /** The client asks: it has fewer than two peers, and at that moment somebody else is in the game. */
  ghost predicate AsksInTime(w: World.State, t: Tables, e: Event, n: uint64) {
    e.Ask? && e.n == n && n in t.peers && |t.peers[n]| < 2 && HasCompany(w, n)
  }

  lemma GetNodesAnswers(w: World.State, n: uint64, pick: Option<uint64>, reply: seq<World.PeerInfo>, w': World.State)
    requires World.Step(w, World.GetNodes(n, pick, reply), w')
    requires w.Connected(n) && 0 !in w.conns && PartnerInGame(w, n)
    ensures reply != [] <==> HasCompany(w, n)
  {
    var p := w.conns[n].partner.clientID;
    assert p != 0 ==> p != n && w.Connected(p);
    assert pick.Some? ==> pick.value != n && w.Connected(pick.value);
    if HasCompany(w, n) {
      var other :| other != n && w.Connected(other);
      assert pick.Some?;
    } else {
      assert p == 0 && World.NeedsPartner(w.conns, n);
      assert pick.None?;
    }
  }

  /** Exactly then the server names its partner. */
  lemma AskingIsAnsweredIff(ws: seq<World.State>, ts: seq<Tables>, es: seq<Event>, i: nat, n: uint64)
    requires JoiningRun(ws, ts, es) && i < |es|
    ensures AsksInTime(ws[i], ts[i], es[i], n) <==> es[i].Ask? && es[i].n == n && es[i].reply != []
  {
    if es[i].Ask? && es[i].n == n {
      JoiningStep(ws, ts, es, i);
      TablesOfConnected(ws, ts, es, i, n);
      RunPartnerInGame(ws, ts, es, i, n);
      GetNodesAnswers(ws[i], n, es[i].pick, es[i].reply, ws[i + 1]);
    }
  }

  /** The client has asked, having fewer than two peers, while somebody else was in the game. */
  ghost predicate AskedInTime(ws: seq<World.State>, ts: seq<Tables>, es: seq<Event>, k: nat, n: uint64)
    requires |ws| == |ts| == |es| + 1
  {
    exists i :: 0 <= i < k && i < |es| && AsksInTime(ws[i], ts[i], es[i], n)
  }

  lemma AskingTellsPartner(ws: seq<World.State>, ts: seq<Tables>, es: seq<Event>, i: nat, k: nat, n: uint64)
    requires JoiningRun(ws, ts, es) && i < k < |ws| && AsksInTime(ws[i], ts[i], es[i], n)
    ensures es[i].reply != [] && n in ws[i + 1].conns && es[i].reply == [ws[i + 1].conns[n].partner]
    ensures HasPartner(ws[k], n, es[i].reply[0].clientID)
  {
    JoiningStep(ws, ts, es, i);
    AskingIsAnsweredIff(ws, ts, es, i, n);
    TablesOfConnected(ws, ts, es, i, n);
    var p := es[i].reply[0].clientID;
    assert es[i].reply[0] in es[i].reply;
    ReplyIsConnected(ws[i], n, es[i].pick, es[i].reply, ws[i + 1]);
    StillConnected(ws, ts, es, i, n);
    StillConnected(ws, ts, es, i, p);
    PartnerStays(ws, ts, es, i + 1, k, n, p);
  }

  lemma StillConnected(ws: seq<World.State>, ts: seq<Tables>, es: seq<Event>, i: nat, id: uint64)
    requires JoiningRun(ws, ts, es) && i < |es| && ws[i].Connected(id)
    ensures ws[i + 1].Connected(id)
  {
    JoiningStep(ws, ts, es, i);
    TablesOfConnected(ws, ts, es, i, id);
    if ServerEvent(es[i]).Some? {
      JoinConnects(ws[i], ServerEvent(es[i]).value, ws[i + 1], id);
    }
  }

  /** A client is told about its partner exactly when it asks in time, and about nobody else. */
  lemma ToldIffAskedInTime(ws: seq<World.State>, ts: seq<Tables>, es: seq<Event>, k: nat, n: uint64, b: uint64)
    requires JoiningRun(ws, ts, es) && k < |ws| && n != b
    ensures Told(es, k, n, b) <==> AskedInTime(ws, ts, es, k, n) && HasPartner(ws[k], n, b)
  {
    if Told(es, k, n, b) {
      var i :| 0 <= i < k && i < |es| && Tells(es[i], n, b);
      AskingIsAnsweredIff(ws, ts, es, i, n);
      AskingTellsPartner(ws, ts, es, i, k, n);
    }
    if AskedInTime(ws, ts, es, k, n) && HasPartner(ws[k], n, b) {
      var i :| 0 <= i < k && i < |es| && AsksInTime(ws[i], ts[i], es[i], n);
      AskingTellsPartner(ws, ts, es, i, k, n);
      assert es[i].reply[0] in es[i].reply && Tells(es[i], n, b);
    }
  }

  /** Who ends up knowing its partner: the client that asks in time, and the one whose partner has it for a partner in
      turn and asks in time. */
  lemma KnowsPartnerIff(ws: seq<World.State>, ts: seq<Tables>, es: seq<Event>, k: nat, n: uint64, p: uint64)
    requires JoiningRun(ws, ts, es) && k < |ws| && ts[k].registering == multiset{}
    requires HasPartner(ws[k], n, p) && p != n
    ensures Knows(ts[k].peers, n, p) <==>
      AskedInTime(ws, ts, es, k, n) || (AskedInTime(ws, ts, es, k, p) && HasPartner(ws[k], p, n))
  {
    QuiescentKnowsIffTold(ws, ts, es, k, n, p);
    ToldIffAskedInTime(ws, ts, es, k, n, p);
    ToldIffAskedInTime(ws, ts, es, k, p, n);
  }

  lemma StepKeepsPeers(w: World.State, t: Tables, e: Event, w': World.State, t': Tables, n: uint64)
    requires Step(w, t, e, w', t') && n in t.peers
    requires e.Server? && e.e.Connect? && World.ConnectAccepted(w.conns, e.e.info.clientID) ==>
        e.e.info.clientID !in t.peers
    ensures n in t'.peers && t.peers[n] <= t'.peers[n]
  {
    forall b | b in t.peers[n] ensures n in t'.peers && b in t'.peers[n] {
      if e.Ask? {
        ReplyIsConnected(w, e.n, e.pick, e.reply, w');
        AddedAllLinks(t, e.n, e.reply, n, b);
        assert Knows(t.peers, n, b);
      }
    }
    if e.Ask? {
      AddedAllKeys(t, e.n, e.reply);
    }
  }

  predicate HasEnough(t: Tables, n: uint64) { n in t.peers && |t.peers[n]| >= 2 }

  lemma EnoughPeersNext(ws: seq<World.State>, ts: seq<Tables>, es: seq<Event>, i: nat, n: uint64)
    requires JoiningRun(ws, ts, es) && i < |es| && HasEnough(ts[i], n)
    ensures HasEnough(ts[i + 1], n) && !AsksInTime(ws[i], ts[i], es[i], n)
  {
    JoiningStep(ws, ts, es, i);
    if es[i].Server? && es[i].e.Connect? && World.ConnectAccepted(ws[i].conns, es[i].e.info.clientID) {
      NewcomerUnknown(ws, ts, es, i, n, es[i].e.info.clientID);
    }
    StepKeepsPeers(ws[i], ts[i], es[i], ws[i + 1], ts[i + 1], n);
    Flood.SubsetCardinality(ts[i].peers[n], ts[i + 1].peers[n]);
  }

  lemma AskedInTimeNext(ws: seq<World.State>, ts: seq<Tables>, es: seq<Event>, k: nat, n: uint64)
    requires |ws| == |ts| == |es| + 1 && k < |es| && !AsksInTime(ws[k], ts[k], es[k], n)
    ensures AskedInTime(ws, ts, es, k + 1, n) <==> AskedInTime(ws, ts, es, k, n)
  {
  }

  /** The guard: a client that has two peers before it asks in time never asks again. */
  lemma {:induction false} EnoughPeersStay(ws: seq<World.State>, ts: seq<Tables>, es: seq<Event>, i: nat, k: nat,
                                           n: uint64)
    requires JoiningRun(ws, ts, es) && i <= k < |ws| && HasEnough(ts[i], n)
    ensures HasEnough(ts[k], n) && (AskedInTime(ws, ts, es, k, n) <==> AskedInTime(ws, ts, es, i, n))
  {
    if i < k {
      EnoughPeersStay(ws, ts, es, i, k - 1, n);
      EnoughPeersNext(ws, ts, es, k - 1, n);
      AskedInTimeNext(ws, ts, es, k - 1, n);
    }
  }

  /** Every client with a partner has asked in time, or its partner is its partner in turn and has. */
  ghost predicate PartnersTold(ws: seq<World.State>, ts: seq<Tables>, es: seq<Event>, k: nat)
    requires k < |ws| == |ts| == |es| + 1
  {
    var w := ws[k];
    forall n, p {:trigger HasPartner(w, n, p)} :: HasPartner(w, n, p) && p != n ==>
      AskedInTime(ws, ts, es, k, n) || (AskedInTime(ws, ts, es, k, p) && HasPartner(w, p, n))
  }

  ghost predicate PartnersKnown(w: World.State, g: Graph) {
    forall n, p {:trigger HasPartner(w, n, p)} :: HasPartner(w, n, p) && p != n ==> Knows(g, n, p)
  }

  /** All partners end up known if and only if every client asks in time or is told about by its partner. */
  lemma PartnersKnownIff(ws: seq<World.State>, ts: seq<Tables>, es: seq<Event>, k: nat)
    requires JoiningRun(ws, ts, es) && k < |ws| && ts[k].registering == multiset{}
    ensures PartnersKnown(ws[k], ts[k].peers) <==> PartnersTold(ws, ts, es, k)
  {
    forall n, p {:trigger HasPartner(ws[k], n, p)} | HasPartner(ws[k], n, p) && p != n
      ensures Knows(ts[k].peers, n, p) <==>
      AskedInTime(ws, ts, es, k, n) || (AskedInTime(ws, ts, es, k, p) && HasPartner(ws[k], p, n))
    {
      KnowsPartnerIff(ws, ts, es, k, n, p);
    }
  }

  lemma EdgeReachable(w: World.State, g: Graph, origin: uint64, a: uint64, b: uint64)
    requires PartnersKnown(w, g) && Symmetric(g) && PartnerGraph.Edge(w.conns, a, b) && Reachable(g, origin, origin, a)
    ensures Reachable(g, origin, origin, b)
  {
    if b == origin {
      StartReachable(g, origin, origin);
    } else if a != b {
      assert HasPartner(w, a, b) || HasPartner(w, b, a);
      assert Knows(g, b, a) ==> Knows(g, a, b);
      NeighbourReachable(g, origin, origin, a, b);
    }
  }

  lemma {:induction false} PathReachable(w: World.State, g: Graph, p: seq<uint64>, origin: uint64, n: uint64, k: nat)
    requires PartnersKnown(w, g) && Symmetric(g) && PartnerGraph.IsPath(w.conns, p, origin, n) && k < |p|
    ensures Reachable(g, origin, origin, p[k])
  {
    if k == 0 {
      StartReachable(g, origin, origin);
    } else {
      PathReachable(w, g, p, origin, n, k - 1);
      assert PartnerGraph.Edge(w.conns, p[k - 1], p[k]);
      EdgeReachable(w, g, origin, p[k - 1], p[k]);
    }
  }

  /** While clients only join: once no Register call is under way, and if every client asked in time or was told about
      by its partner, a player's update can take a path to every other player. */
  lemma EveryPlayerReachable(ws: seq<World.State>, ts: seq<Tables>, es: seq<Event>, k: nat, origin: uint64, n: uint64)
    requires JoiningRun(ws, ts, es) && k < |ws| && ts[k].registering == multiset{} && PartnersTold(ws, ts, es, k)
    requires ws[k].Connected(origin) && ws[k].Connected(n)
    ensures Reachable(ts[k].peers, origin, origin, n)
  {
    PartnersKnownIff(ws, ts, es, k);
    QuiescentTablesSymmetric(ws, ts, es, k);
    var vs, fs := ServerRun(ws, ts, es, k);
    PartnerGraph.PlayersAreConnected(vs, fs, |fs|, origin, n);
    var p :| PartnerGraph.IsPath(ws[k].conns, p, origin, n);
    PathReachable(ws[k], ts[k].peers, p, origin, n, |p| - 1);
  }

  /** From the server's choice of partners to the clients' workers: in that case, if no copy of a player's update is
      lost, aged out or rejected, every CONNECTED player's worker passes it to the screen. */
  lemma EveryPlayerHears(ws: seq<World.State>, ts: seq<Tables>, es: seq<Event>, k: nat, u: Update,
                         ns: seq<WorkerNetwork.Network>, nes: seq<WorkerNetwork.Event>, n: uint64)
    requires JoiningRun(ws, ts, es) && k < |ws| && ts[k].registering == multiset{} && PartnersTold(ws, ts, es, k)
    requires ws[k].Connected(u.playerID) && ws[k].Connected(n)
    requires WorkerNetwork.Run(ts[k].peers, u.playerID, u, ns, nes) && WorkerNetwork.FaithfulUpTo(ns, nes, u, |nes|)
    requires forall r :: WorkerNetwork.Packet(r, u) !in ns[|nes|].inFlight
    ensures n in ns[|nes|].logs
    ensures var log := ns[|nes|].logs[n]; u in Recording.After(n, Recording.INITIAL, log, |log|).shown
  {
    EveryPlayerReachable(ws, ts, es, k, u.playerID, n);
    WorkerNetwork.UpdateReachesExactly(ts[k].peers, u.playerID, u, ns, nes, n);
    WorkerNetwork.AcceptedIsShown(n, ns[|nes|].logs[n], u);
  }

  /** No call is under way, and everybody has enough peers or knows its partner. */
  ghost predicate Settled(w: World.State, t: Tables) {
    && t.registering == multiset{}
    && forall n :: n in t.peers ==> SettledAt(w, t, n)
  }

  predicate SettledAt(w: World.State, t: Tables, n: uint64)
    requires n in t.peers
  {
    n in w.conns && (|t.peers[n]| >= 2 || w.conns[n].partner.clientID in t.peers[n])
  }

  /** No Connect is accepted from event i on up to event k. */
  ghost predicate NobodyEnters(ws: seq<World.State>, es: seq<Event>, i: nat, k: nat)
    requires |ws| == |es| + 1
  {
    forall j :: i <= j < k && j < |es| && es[j].Server? && es[j].e.Connect? ==>
      !World.ConnectAccepted(ws[j].conns, es[j].e.info.clientID)
  }

  /** A client that asks in a settled state is told about a partner that it knows. */
  lemma SettledAskAddsNothing(ws: seq<World.State>, ts: seq<Tables>, es: seq<Event>, i: nat)
    requires JoiningRun(ws, ts, es) && i < |es| && Settled(ws[i], ts[i]) && es[i].Ask?
    ensures ts[i + 1] == ts[i]
  {
    var w, t, n, reply := ws[i], ts[i], es[i].n, es[i].reply;
    JoiningStep(ws, ts, es, i);
    assert SettledAt(w, t, n);
    var p := w.conns[n].partner.clientID;
    RunClosed(ws, ts, es, i, n, p);
    TablesOfConnected(ws, ts, es, i, n);
    TablesOfConnected(ws, ts, es, i, p);
    JoinKeepsPartner(w, World.GetNodes(n, es[i].pick, reply), ws[i + 1], n, p);
    ReplyIsConnected(w, n, es[i].pick, reply, ws[i + 1]);
    if reply != [] {
      assert reply[1..] == [] && AddedAll(t, n, reply) == Added(t, n, reply[0].clientID);
    }
  }

  lemma SettledStep(ws: seq<World.State>, ts: seq<Tables>, es: seq<Event>, i: nat)
    requires JoiningRun(ws, ts, es) && i < |es| && Settled(ws[i], ts[i]) && NobodyEnters(ws, es, i, i + 1)
    ensures ts[i + 1] == ts[i] && Settled(ws[i + 1], ts[i + 1])
  {
    JoiningStep(ws, ts, es, i);
    if es[i].Ask? {
      SettledAskAddsNothing(ws, ts, es, i);
    }
    forall n | n in ts[i].peers ensures SettledAt(ws[i + 1], ts[i], n) {
      assert SettledAt(ws[i], ts[i], n);
      SettledAtStays(ws, ts, es, i, n);
    }
  }

  lemma SettledAtStays(ws: seq<World.State>, ts: seq<Tables>, es: seq<Event>, i: nat, n: uint64)
    requires JoiningRun(ws, ts, es) && i < |es| && n in ts[i].peers && SettledAt(ws[i], ts[i], n)
    ensures SettledAt(ws[i + 1], ts[i], n)
  {
    var p := ws[i].conns[n].partner.clientID;
    TablesOfConnected(ws, ts, es, i, n);
    StillConnected(ws, ts, es, i, n);
    if p in ts[i].peers[n] {
      RunClosed(ws, ts, es, i, n, p);
      TablesOfConnected(ws, ts, es, i, p);
      PartnerStays(ws, ts, es, i, i + 1, n, p);
    }
  }

  /** Finality: from a settled state on, as long as nobody else enters, clients may go on asking but no table
      changes. */
  lemma {:induction false} SettledStays(ws: seq<World.State>, ts: seq<Tables>, es: seq<Event>, i: nat, k: nat)
    requires JoiningRun(ws, ts, es) && i <= k < |ws| && Settled(ws[i], ts[i]) && NobodyEnters(ws, es, i, k)
    ensures ts[k] == ts[i] && Settled(ws[k], ts[k])
  {
    if i < k {
      SettledStays(ws, ts, es, i, k - 1);
      SettledStep(ws, ts, es, k - 1);
    }
  }
}
