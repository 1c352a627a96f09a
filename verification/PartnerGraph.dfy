/** While clients only join, the partners that the server assigns keep the players connected as one graph. */
module PartnerGraph {
  import opened Base
  import opened World

  /** New ids are nonzero and fresh, and nobody leaves or is reported. */
  ghost predicate OnlyJoins(ws: seq<State>, es: seq<Event>)
    requires |ws| == |es| + 1
  {
    forall i :: 0 <= i < |es| ==> Joins(ws[i], es[i])
  }

  predicate Joins(w: State, e: Event) {
    match e
    case Register(name, id) => name !in w.names ==> id != 0 && id !in w.conns
    case Disconnect(id) => id !in w.conns
    case NotifyFailure(id) => !w.Connected(id)
    case _ => true
  }

  /** The clients in the order of their accepted Connect calls. */
  function Joiners(ws: seq<State>, es: seq<Event>, i: nat): seq<uint64>
    requires |ws| == |es| + 1 && i <= |es|
  {
    if i == 0 then []
    else if es[i - 1].Connect? && ConnectAccepted(ws[i - 1].conns, es[i - 1].info.clientID)
    then Joiners(ws, es, i - 1) + [es[i - 1].info.clientID]
    else Joiners(ws, es, i - 1)
  }

  /** Everybody but the first joiner has a partner that joined earlier; joiners stay CONNECTED. */
  ghost predicate Ranked(conns: Connections, order: seq<uint64>) {
    && 0 !in conns
    && NoDups(order)
    && (forall id :: id in order <==> IsConnected(conns, id))
    && (forall id :: id in conns ==> conns[id].status.CONNECTED? || conns[id].status.NOTINGAME?)
    && (forall n :: 0 < n < |order| ==> PartnerEarlier(conns, order, n))
  }

  predicate PartnerEarlier(conns: Connections, order: seq<uint64>, n: nat)
    requires n < |order|
  {
    order[n] in conns && conns[order[n]].partner.clientID in order[..n]
  }

  lemma ConnectKeepsRanked(conns: Connections, info: PeerInfo, pick: Option<uint64>, conns': Connections,
                           order: seq<uint64>)
    requires Ranked(conns, order) && ConnectAccepted(conns, info.clientID)
    requires ConnectChange(conns, info, pick, conns')
    ensures Ranked(conns', order + [info.clientID])
  {
    var order' := order + [info.clientID];
    assert info.clientID !in order;
    forall n | 0 < n < |order'| ensures PartnerEarlier(conns', order', n) {
      if n < |order| {
        assert PartnerEarlier(conns, order, n);
        assert order'[..n] == order[..n] && order[n] in order;
      } else {
        assert order'[..n] == order;
        assert IsConnected(conns, order[0]);
      }
    }
  }

  lemma GetNodesKeepsRanked(conns: Connections, id: uint64, pick: Option<uint64>, peers: seq<PeerInfo>,
                            conns': Connections,
                            order: seq<uint64>)
    requires Ranked(conns, order) && GetNodesChange(conns, id, pick, peers, conns')
    ensures Ranked(conns', order)
  {
    forall n | 0 < n < |order| ensures PartnerEarlier(conns', order, n) {
      assert PartnerEarlier(conns, order, n);
      var p := conns[order[n]].partner.clientID;
      assert p in order && IsConnected(conns, p);
    }
  }

  predicate SamePartner(conns: Connections, conns': Connections, id: uint64) {
    && (id in conns ==>
          id in conns' && conns'[id].status == conns[id].status && conns'[id].partner == conns[id].partner)
    && (id in conns' && id !in conns ==> id != 0 && conns'[id].status.NOTINGAME?)
  }

  /** The other steps change neither who is CONNECTED nor anybody's partner. */
  ghost predicate SamePartners(conns: Connections, conns': Connections) {
    forall id :: SamePartner(conns, conns', id)
  }

  lemma SamePartnersKeepsRanked(conns: Connections, conns': Connections, order: seq<uint64>)
    requires Ranked(conns, order) && SamePartners(conns, conns')
    ensures Ranked(conns', order)
  {
    assert SamePartner(conns, conns', 0);
    forall id ensures id in order <==> IsConnected(conns', id) {
      assert SamePartner(conns, conns', id);
    }
    forall id | id in conns' ensures conns'[id].status.CONNECTED? || conns'[id].status.NOTINGAME? {
      assert SamePartner(conns, conns', id);
    }
    forall n | 0 < n < |order| ensures PartnerEarlier(conns', order, n) {
      assert PartnerEarlier(conns, order, n) && SamePartner(conns, conns', order[n]);
    }
  }

  lemma OtherStepsKeepPartner(ws: seq<State>, es: seq<Event>, i: nat, id: uint64)
    requires Run(ws, es) && i < |es| && Joins(ws[i], es[i])
    requires id in ws[i].conns ==> ws[i].conns[id].status.CONNECTED? || ws[i].conns[id].status.NOTINGAME?
    requires !es[i].GetNodes?
    requires es[i].Connect? ==> !ConnectAccepted(ws[i].conns, es[i].info.clientID)
    ensures SamePartner(ws[i].conns, ws[i + 1].conns, id)
  {
    assert StepAt(ws, es, i);
  }

  lemma ConnectAndGetNodesChange(ws: seq<State>, es: seq<Event>, i: nat)
    requires Run(ws, es) && i < |es|
    ensures es[i].Connect? ==> ConnectChange(ws[i].conns, es[i].info, es[i].pick, ws[i + 1].conns)
    ensures es[i].GetNodes? ==> GetNodesChange(ws[i].conns, es[i].id, es[i].pick, es[i].peers, ws[i + 1].conns)
  {
    assert StepAt(ws, es, i);
  }

  lemma OtherJoinStep(ws: seq<State>, es: seq<Event>, i: nat, order: seq<uint64>)
    requires Run(ws, es) && i < |es| && Joins(ws[i], es[i]) && Ranked(ws[i].conns, order)
    requires !es[i].GetNodes? && (es[i].Connect? ==> !ConnectAccepted(ws[i].conns, es[i].info.clientID))
    ensures Ranked(ws[i + 1].conns, order)
  {
    var conns, conns' := ws[i].conns, ws[i + 1].conns;
    forall id ensures SamePartner(conns, conns', id) {
      OtherStepsKeepPartner(ws, es, i, id);
    }
    SamePartnersKeepsRanked(conns, conns', order);
  }

  lemma JoinStep(ws: seq<State>, es: seq<Event>, i: nat)
    requires Run(ws, es) && OnlyJoins(ws, es) && 0 < i <= |es| && Ranked(ws[i - 1].conns, Joiners(ws, es, i - 1))
    ensures Ranked(ws[i].conns, Joiners(ws, es, i))
  {
    var e, conns, conns', order := es[i - 1], ws[i - 1].conns, ws[i].conns, Joiners(ws, es, i - 1);
    ConnectAndGetNodesChange(ws, es, i - 1);
    if e.Connect? && ConnectAccepted(conns, e.info.clientID) {
      ConnectKeepsRanked(conns, e.info, e.pick, conns', order);
    } else if e.GetNodes? {
      GetNodesKeepsRanked(conns, e.id, e.pick, e.peers, conns', order);
    } else {
      OtherJoinStep(ws, es, i - 1, order);
    }
  }

  lemma {:induction false} RunRanked(ws: seq<State>, es: seq<Event>, i: nat)
    requires Run(ws, es) && OnlyJoins(ws, es) && i < |ws|
    ensures Ranked(ws[i].conns, Joiners(ws, es, i))
  {
    if i > 0 {
      RunRanked(ws, es, i - 1);
      JoinStep(ws, es, i);
    }
  }

  /** Two CONNECTED clients, one of which is the other's partner. */
  predicate Edge(conns: Connections, a: uint64, b: uint64) {
    && IsConnected(conns, a) && IsConnected(conns, b)
    && (conns[a].partner.clientID == b || conns[b].partner.clientID == a)
  }

  ghost predicate IsPath(conns: Connections, p: seq<uint64>, a: uint64, b: uint64) {
    && |p| > 0 && p[0] == a && p[|p| - 1] == b
    && forall i :: 0 <= i < |p| - 1 ==> Edge(conns, p[i], p[i + 1])
  }

  /** Following partners from any joiner leads to the first one. */
  lemma {:induction false} PathToFirst(conns: Connections, order: seq<uint64>, n: nat) returns (p: seq<uint64>)
    requires Ranked(conns, order) && n < |order|
    ensures IsPath(conns, p, order[n], order[0])
    decreases n
  {
    if n == 0 {
      p := [order[0]];
    } else {
      assert PartnerEarlier(conns, order, n);
      var m :| 0 <= m < n && order[..n][m] == conns[order[n]].partner.clientID;
      var q := PathToFirst(conns, order, m);
      assert order[n] in order && order[m] in order;
      p := [order[n]] + q;
    }
  }

  function Reverse(p: seq<uint64>): seq<uint64> { seq(|p|, i requires 0 <= i < |p| => p[|p| - 1 - i]) }

  lemma JoinPaths(conns: Connections, p: seq<uint64>, q: seq<uint64>, a: uint64, b: uint64, c: uint64)
    requires IsPath(conns, p, a, c) && IsPath(conns, q, b, c)
    ensures IsPath(conns, p + Reverse(q)[1..], a, b)
  {
    var r := Reverse(q);
    assert r[0] == c && r[|r| - 1] == b;
    forall i | 0 <= i < |r| - 1 ensures Edge(conns, r[i], r[i + 1]) {
      assert Edge(conns, q[|q| - 2 - i], q[|q| - 1 - i]);
    }
    var s := p + r[1..];
    forall i | 0 <= i < |s| - 1 ensures Edge(conns, s[i], s[i + 1]) {
      if i >= |p| - 1 {
        assert s[i] == r[i - |p| + 1] && s[i + 1] == r[i - |p| + 2];
      }
    }
  }

  /** Over every run in which clients only join: any two CONNECTED clients are joined by a path of partner links. */
  lemma PlayersAreConnected(ws: seq<State>, es: seq<Event>, i: nat, a: uint64, b: uint64)
    requires Run(ws, es) && OnlyJoins(ws, es) && i < |ws|
    requires ws[i].Connected(a) && ws[i].Connected(b)
    ensures exists p :: IsPath(ws[i].conns, p, a, b)
  {
    RunRanked(ws, es, i);
    var order := Joiners(ws, es, i);
    assert a in order && b in order;
    var m :| 0 <= m < |order| && order[m] == a;
    var n :| 0 <= n < |order| && order[n] == b;
    var p := PathToFirst(ws[i].conns, order, m);
    var q := PathToFirst(ws[i].conns, order, n);
    JoinPaths(ws[i].conns, p, q, a, b, order[0]);
  }
}
