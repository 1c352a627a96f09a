/** Which peers the server names, and what it says about them, over every run and in terms of statuses. */
module Answers {
  import opened Base
  import opened World

  /** The client has no partner, or one that was reported and has not come back. */
  predicate PartnerLost(w: State, id: uint64)
    requires id in w.conns
  {
    var p := w.conns[id].partner.clientID;
    p in w.conns ==> w.conns[p].status == DISCONNECTED
  }

  /** Over every run a GetNodes answers its caller by the statuses at that moment. Nobody else's connection changes, and
      of the caller's own only the partner and the status. */
  lemma GetNodesAnswer(ws: seq<State>, es: seq<Event>, i: nat)
    requires Run(ws, es) && i < |es| && es[i].GetNodes? && es[i].id in ws[i].conns
    ensures ws[i + 1].conns.Keys == ws[i].conns.Keys
    ensures AnswersNodes(ws[i].conns, es[i].id, es[i].peers, ws[i + 1].conns[es[i].id].partner)
    ensures var w, w', id := ws[i], ws[i + 1], es[i].id;
      && (forall x :: x in w.conns && x != id ==> w'.conns[x] == w.conns[x])
      && w'.conns[id].(partner := w.conns[id].partner, status := w.conns[id].status) == w.conns[id]
      && w'.(conns := w.conns) == w
  {
    assert StepAt(ws, es, i);
    NodesAnswered(ws[i].conns, es[i].id, es[i].pick, es[i].peers, ws[i + 1].conns);
  }

  /** An accepted Connect leaves the caller with another CONNECTED client for partner, or with none when nobody else is
      CONNECTED, with the addresses it sent, and with the channel it had. */
  lemma ConnectAnswer(ws: seq<State>, es: seq<Event>, i: nat)
    requires Run(ws, es) && i < |es| && es[i].Connect? && Connects(ws[i], es[i], es[i].info.clientID)
    ensures es[i].info.clientID in ws[i].conns && ws[i + 1].conns.Keys == ws[i].conns.Keys
    ensures var w, info, c, c' := ws[i], es[i].info, ws[i].conns[es[i].info.clientID],
        ws[i + 1].conns[es[i].info.clientID];
      && (if exists other :: IsOther(w.conns, info.clientID, other)
          then IsOther(w.conns, info.clientID, c'.partner.clientID) else c'.partner == NO_PEER)
      && PeerInfo(c'.address, c'.rpcAddress, info.clientID, c'.displayName) == info
      && c'.rpcClient == c.rpcClient
      && forall x :: x in w.conns && x != info.clientID ==> ws[i + 1].conns[x] == w.conns[x]
  {
    assert StepAt(ws, es, i);
    OtherPick(ws[i].conns, es[i].info.clientID, es[i].pick);
  }

  /** Event k is the last accepted Connect of the client before i. */
  ghost predicate IsLastConnect(ws: seq<State>, es: seq<Event>, k: nat, i: nat, id: uint64)
    requires |ws| == |es| + 1 && i <= |es|
  {
    k < i && Connects(ws[k], es[k], id) && forall l :: k < l < i ==> !Connects(ws[l], es[l], id)
  }

  /** The record is what its client sent with its last accepted Connect. */
  ghost predicate IsCurrent(ws: seq<State>, es: seq<Event>, i: nat, info: PeerInfo)
    requires |ws| == |es| + 1 && i <= |es|
  {
    exists k: nat :: IsLastConnect(ws, es, k, i, info.clientID) && es[k].info == info
  }

  /** The record is what its client sent with some accepted Connect. */
  ghost predicate WasSent(ws: seq<State>, es: seq<Event>, i: nat, info: PeerInfo)
    requires |ws| == |es| + 1 && i <= |es|
  {
    exists k :: 0 <= k < i && Connects(ws[k], es[k], info.clientID) && es[k].info == info
  }

  lemma InfoStep(ws: seq<State>, es: seq<Event>, i: nat, id: uint64)
    requires Run(ws, es) && i < |es| && id in ws[i + 1].conns && ws[i + 1].conns[id].status != NOTINGAME
    ensures if Connects(ws[i], es[i], id) then InfoOf(ws[i + 1].conns, id) == es[i].info
            else id in ws[i].conns && ws[i].conns[id].status != NOTINGAME
                 && InfoOf(ws[i + 1].conns, id) == InfoOf(ws[i].conns, id)
  {
    assert StepAt(ws, es, i);
  }

  /** The server knows every client in the game by what it sent with its last Connect. */
  lemma {:induction false} InfoIsCurrent(ws: seq<State>, es: seq<Event>, i: nat, id: uint64)
    requires Run(ws, es) && i < |ws| && id in ws[i].conns && ws[i].conns[id].status != NOTINGAME
    ensures IsCurrent(ws, es, i, InfoOf(ws[i].conns, id))
  {
    InfoStep(ws, es, i - 1, id);
    var info := InfoOf(ws[i].conns, id);
    if Connects(ws[i - 1], es[i - 1], id) {
      assert IsLastConnect(ws, es, i - 1, i, id);
    } else {
      InfoIsCurrent(ws, es, i - 1, id);
      var k: nat :| IsLastConnect(ws, es, k, i - 1, id) && es[k].info == info;
      assert IsLastConnect(ws, es, k, i, id);
    }
  }

  lemma PartnerStep(ws: seq<State>, es: seq<Event>, i: nat, id: uint64)
    requires Run(ws, es) && i < |es| && id in ws[i + 1].conns
    ensures var partner := ws[i + 1].conns[id].partner;
      || partner == NO_PEER || (id in ws[i].conns && partner == ws[i].conns[id].partner)
      || (ws[i].Connected(partner.clientID) && partner == InfoOf(ws[i].conns, partner.clientID))
  {
    assert StepAt(ws, es, i);
  }

  lemma {:induction false} PartnerWasSent(ws: seq<State>, es: seq<Event>, i: nat, id: uint64)
    requires Run(ws, es) && i < |ws| && id in ws[i].conns
    ensures ws[i].conns[id].partner == NO_PEER || WasSent(ws, es, i, ws[i].conns[id].partner)
  {
    PartnerStep(ws, es, i - 1, id);
    var partner := ws[i].conns[id].partner;
    if id in ws[i - 1].conns && partner == ws[i - 1].conns[id].partner {
      PartnerWasSent(ws, es, i - 1, id);
    } else if partner != NO_PEER {
      InfoIsCurrent(ws, es, i - 1, partner.clientID);
      var k: nat :| IsLastConnect(ws, es, k, i - 1, partner.clientID) && es[k].info == partner;
    }
  }

  /** Whatever GetNodes says about a peer, its two addresses and its name included, is what that peer itself sent with
      an accepted Connect, and with its last one if the caller had lost its partner. The only other record is the empty
      one, handed out when client 0 is CONNECTED. */
  lemma PeersAsTheySaid(ws: seq<State>, es: seq<Event>, i: nat, p: PeerInfo)
    requires Run(ws, es) && i < |es| && es[i].GetNodes? && p in es[i].peers
    ensures WasSent(ws, es, i, p) || (p == NO_PEER && ws[i].Connected(0))
    ensures es[i].id in ws[i].conns && (PartnerLost(ws[i], es[i].id) ==> IsCurrent(ws, es, i, p))
  {
    var id := es[i].id;
    assert StepAt(ws, es, i);
    PartnerWasSent(ws, es, i, id);
    if PartnerLost(ws[i], id) {
      InfoIsCurrent(ws, es, i, p.clientID);
      var k: nat :| IsLastConnect(ws, es, k, i, p.clientID) && es[k].info == p;
    }
  }
}
