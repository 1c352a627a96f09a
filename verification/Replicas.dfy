/** Which copies a KVPut makes and which of them a KVGet asks, in terms of statuses, numbers and what was written. */
module Replicas {
  import opened Base
  import opened Clients
  import opened World
  import opened Disks
  import opened ReadLatest

  /** The CONNECTED clients on the key's list, and the CONNECTED ones that store the value under it. */
  ghost function ConnectedHolders(w: State, key: uint64): set<uint64> {
    set h | h in w.conns && w.conns[h].status == CONNECTED && h in w.Holders(key)
  }

  ghost function ConnectedStoring(w: State, key: uint64, value: Stats): set<uint64> {
    set h | h in w.conns && w.conns[h].status == CONNECTED && Entry(w, h, key) == Some(value)
  }

  ghost function AllConnected(w: State): set<uint64> { set h | h in w.conns && w.conns[h].status == CONNECTED }

  lemma SubsetSize(a: set<uint64>, b: set<uint64>)
    requires a <= b
    ensures |a| <= |b|
  {
    assert b == a + (b - a);
  }

  lemma SubsetSame(a: set<uint64>, b: set<uint64>)
    requires a <= b && |a| >= |b|
    ensures a == b
  {
    assert b == a + (b - a);
  }

  lemma SizesOfPut(ws: seq<State>, es: seq<Event>, i: nat)
    requires Run(ws, es) && i < |es| && es[i].Put?
    ensures var w, key, written := ws[i], es[i].key, Elements(es[i].targets);
      && |written| == Max(|ConnectedHolders(w, key)|, Min(3, |AllConnected(w)|))
      && ConnectedHolders(w, key) <= written <= AllConnected(w)
  {
    var w, key, targets := ws[i], es[i].key, es[i].targets;
    PutReplicates(ws, es, i);
    NoDupsCardinality(targets);
    RunHoldersValid(ws, es, i, key);
    assert w.ValidHolders(key);
    ConnectedAmongFacts(w.conns, w.Holders(key));
    NoDupsCardinality(w.OnlyConnected(w.Holders(key)));
    assert Elements(w.OnlyConnected(w.Holders(key))) == ConnectedHolders(w, key);
    assert w.ConnectedIds() == AllConnected(w);
  }

  lemma WrittenIsStored(ws: seq<State>, es: seq<Event>, i: nat)
    requires Run(ws, es) && i < |es| && es[i].Put?
    ensures Elements(es[i].targets) <= ConnectedStoring(ws[i + 1], es[i].key, es[i].value)
  {
    PutReplicates(ws, es, i);
    assert StepAt(ws, es, i);
  }

  /** Three copies, over every run: after a Put at least three CONNECTED clients store the value, or all of them if
      there are fewer. It writes to exactly three when that many are CONNECTED and at most three of them had the key,
      and nobody else's entry changes. */
  lemma PutReachesThree(ws: seq<State>, es: seq<Event>, i: nat)
    requires Run(ws, es) && i < |es| && es[i].Put?
    ensures var w, w', key, value, written := ws[i], ws[i + 1], es[i].key, es[i].value, Elements(es[i].targets);
      && AllConnected(w') == AllConnected(w)
      && (if |AllConnected(w)| >= 3 then |ConnectedStoring(w', key, value)| >= 3
          else ConnectedStoring(w', key, value) == AllConnected(w'))
      && (|AllConnected(w)| >= 3 && |ConnectedHolders(w, key)| <= 3 ==> |written| == 3)
      && (|ConnectedHolders(w, key)| > 3 ==> written == ConnectedHolders(w, key))
      && (forall h, k :: h !in written || k != key ==> Entry(w', h, k) == Entry(w, h, k))
  {
    var w, w', key, value, written := ws[i], ws[i + 1], es[i].key, es[i].value, Elements(es[i].targets);
    SizesOfPut(ws, es, i);
    WrittenIsStored(ws, es, i);
    SubsetSize(written, ConnectedStoring(w', key, value));
    SubsetSize(ConnectedHolders(w, key), AllConnected(w));
    assert AllConnected(w') == AllConnected(w) by {
      assert StepAt(ws, es, i);
    }
    if |AllConnected(w)| < 3 {
      SubsetSame(written, AllConnected(w));
    }
    if |ConnectedHolders(w, key)| > 3 {
      SubsetSame(ConnectedHolders(w, key), written);
    }
    forall h, k | h !in written || k != key ensures Entry(w', h, k) == Entry(w, h, k) {
      EntryStep(ws, es, i, h, k);
    }
  }

  ghost predicate HasLastConnected(conns: Connections, ids: seq<uint64>, id: uint64) {
    exists p :: IsLastConnected(conns, ids, p, id)
  }

  lemma LastConnectedExtends(conns: Connections, ids: seq<uint64>, last: uint64, id: uint64)
    requires HasLastConnected(conns, ids, id)
    ensures HasLastConnected(conns, ids + [last], if IsConnected(conns, last) then last else id)
  {
    var p :| IsLastConnected(conns, ids, p, id);
    assert IsLastConnected(conns, ids + [last], if IsConnected(conns, last) then |ids| else p,
                           if IsConnected(conns, last) then last else id);
  }

  lemma {:induction false} LastOfConnected(conns: Connections, ids: seq<uint64>)
    ensures var held := ConnectedAmong(conns, ids);
      if held == [] then NoneConnected(conns, ids) else HasLastConnected(conns, ids, held[|held| - 1])
  {
    if ids != [] {
      var init, last := ids[..|ids| - 1], ids[|ids| - 1];
      LastOfConnected(conns, init);
      assert ids == init + [last];
      var held := ConnectedAmong(conns, init);
      if held != [] {
        LastConnectedExtends(conns, init, last, held[|held| - 1]);
      } else if IsConnected(conns, last) {
        assert IsLastConnected(conns, ids, |init|, last);
      }
    }
  }

  /** The server asks a client if and only if it is the last CONNECTED one of the list. */
  lemma AskedIff(w: State, key: uint64, h: uint64)
    ensures Chosen(w, key) == Some(h) <==> HasLastConnected(w.conns, w.Holders(key), h)
    ensures Chosen(w, key) == None <==> NoneConnected(w.conns, w.Holders(key))
  {
    LastOfConnected(w.conns, w.Holders(key));
    if HasLastConnected(w.conns, w.Holders(key), h) {
      assert Chosen(w, key).Some?;
      var c := Chosen(w, key).value;
      var p :| IsLastConnected(w.conns, w.Holders(key), p, h);
      var q :| IsLastConnected(w.conns, w.Holders(key), q, c);
    }
  }

  /** The client has been written the key by event k. */
  predicate WrittenBy(es: seq<Event>, k: nat, h: uint64, key: uint64)
    requires k <= |es|
  {
    exists j :: 0 <= j < k && Delivers(es[j], h, key)
  }

  lemma {:induction false} WrittenByIff(es: seq<Event>, k: nat, h: uint64, key: uint64)
    requires k <= |es|
    ensures WrittenBy(es, k, h, key) <==> LastDelivered(es[..k], h, key).Some?
  {
    if k > 0 {
      WrittenByIff(es, k - 1, h, key);
      assert es[..k][..k - 1] == es[..k - 1];
    }
  }

  lemma ListGrowsStep(ws: seq<State>, es: seq<Event>, i: nat, key: uint64)
    requires Run(ws, es) && i < |es|
    ensures ws[i].Holders(key) <= ws[i + 1].Holders(key)
  {
    if es[i].Put? {
      PutRecordsHolders(ws, es, i);
    } else {
      OtherKeepsLists(ws, es, i);
    }
  }

  lemma OtherKeepsLists(ws: seq<State>, es: seq<Event>, i: nat)
    requires Run(ws, es) && i < |es| && !es[i].Put?
    ensures ws[i + 1].holders == ws[i].holders
  {
    assert StepAt(ws, es, i);
  }

  lemma {:induction false} ListGrows(ws: seq<State>, es: seq<Event>, i: nat, j: nat, key: uint64)
    requires Run(ws, es) && i <= j < |ws|
    ensures ws[i].Holders(key) <= ws[j].Holders(key)
  {
    if i < j {
      ListGrows(ws, es, i, j - 1, key);
      ListGrowsStep(ws, es, j - 1, key);
    }
  }

  /** Whoever stands earlier in a list was written the key no later. */
  lemma ListedInOrder(ws: seq<State>, es: seq<Event>, g: nat, key: uint64, p: nat, q: nat, k: nat)
    requires Run(ws, es) && k <= g < |ws| && p <= q < |ws[g].Holders(key)|
    requires WrittenBy(es, k, ws[g].Holders(key)[q], key)
    ensures WrittenBy(es, k, ws[g].Holders(key)[p], key)
  {
    var now, then', hp, hq := ws[g].Holders(key), ws[k].Holders(key), ws[g].Holders(key)[p], ws[g].Holders(key)[q];
    WrittenByIff(es, k, hq, key);
    WrittenByIff(es, k, hp, key);
    ListedIffDelivered(ws, es, k, hq, key);
    ListedIffDelivered(ws, es, k, hp, key);
    ListGrows(ws, es, k, g, key);
    RunHoldersValid(ws, es, g, key);
    assert ws[g].ValidHolders(key);
    var r :| 0 <= r < |then'| && then'[r] == hq;
    assert now[r] == hq && r == q && then'[p] == hp;
  }

  /** The client is CONNECTED, has been written the key, and no other such client got it for the first time later. */
  ghost predicate IsLatestRecruit(ws: seq<State>, es: seq<Event>, g: nat, h: uint64, key: uint64)
    requires |ws| == |es| + 1 && g <= |es|
  {
    && ws[g].Connected(h) && WrittenBy(es, g, h, key)
    && forall other, k: nat :: ws[g].Connected(other) && WrittenBy(es, g, other, key) ==>
        k <= g && WrittenBy(es, k, h, key) ==> WrittenBy(es, k, other, key)
  }

  /** The reply of the KVGet at g is that of asking client h. */
  ghost predicate AnsweredBy(ws: seq<State>, es: seq<Event>, g: nat, h: uint64)
    requires |ws| == |es| + 1 && g < |es| && es[g].Get?
  {
    && IsLatestRecruit(ws, es, g, h, es[g].key)
    && es[g].reply == if h == es[g].client then HasAlready else Found(OrZeros(Entry(ws[g], h, es[g].key)))
  }

  lemma AskedIsLatest(ws: seq<State>, es: seq<Event>, g: nat, key: uint64)
    requires Run(ws, es) && g < |ws| && Chosen(ws[g], key).Some?
    ensures IsLatestRecruit(ws, es, g, Chosen(ws[g], key).value, key)
  {
    var w, h, ids := ws[g], Chosen(ws[g], key).value, ws[g].Holders(key);
    AskedIff(w, key, h);
    var q :| IsLastConnected(w.conns, ids, q, h);
    WrittenByIff(es, g, h, key);
    ListedIffDelivered(ws, es, g, h, key);
    forall other, k: nat | w.Connected(other) && WrittenBy(es, g, other, key) && k <= g && WrittenBy(es, k, h, key)
      ensures WrittenBy(es, k, other, key)
    {
      WrittenByIff(es, g, other, key);
      ListedIffDelivered(ws, es, g, other, key);
      var p :| 0 <= p < |ids| && ids[p] == other;
      ListedInOrder(ws, es, g, key, p, q, k);
    }
  }

  /** What a KVGet answers, over every run: it is unavailable exactly when no client that was ever written the key is
      CONNECTED. Otherwise the client asked is CONNECTED and no other CONNECTED one got the key for the first time in a
      later Put; the caller is told to look at its own copy exactly when it is the one asked, and gets that client's
      entry if not. */
  lemma GetAsksLatestRecruit(ws: seq<State>, es: seq<Event>, g: nat)
    requires Run(ws, es) && g < |es| && es[g].Get?
    ensures var key, reply := es[g].key, es[g].reply;
      if forall h :: WrittenBy(es, g, h, key) ==> !ws[g].Connected(h) then reply == Unavailable
      else exists h :: AnsweredBy(ws, es, g, h)
  {
    var w, key := ws[g], es[g].key;
    assert StepAt(ws, es, g);
    ChosenFacts(w, key);
    forall h ensures WrittenBy(es, g, h, key) <==> h in w.Holders(key) {
      WrittenByIff(es, g, h, key);
      ListedIffDelivered(ws, es, g, h, key);
    }
    if Chosen(w, key).Some? {
      AskedIsLatest(ws, es, g, key);
      assert AnsweredBy(ws, es, g, Chosen(w, key).value);
    }
  }
}
