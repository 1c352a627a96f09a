/** What a KVGet returns, over every run of the server. */
module ReadLatest {
  import opened Base
  import opened Decimal
  import opened Clients
  import opened World
  import opened Disks

  /** The entry of the key in the memory of client h. */
  function Entry(w: State, h: uint64, key: uint64): Option<Stats> {
    if h in w.stores && key in w.stores[h] then Some(w.stores[h][key]) else None
  }

  lemma PutEntry(w: State, key: uint64, value: Stats, targets: seq<uint64>, w': State, h: uint64, k: uint64)
    requires w.ValidHandlesOf(h) && PutStep(w, key, value, targets, w')
    ensures Entry(w', h, k) == if k == key && h in targets then Some(value) else Entry(w, h, k)
  {
    if h in targets {
      assert Attached(w.conns, h);
    }
  }

  lemma OtherEntry(w: State, e: Event, w': State, h: uint64, key: uint64)
    requires !e.Put? && Step(w, e, w')
    ensures Entry(w', h, key) == if Attaches(e, h) then EntryIn(e.store, key) else Entry(w, h, key)
  {
  }

  /** Only a Put to the client and a new process of it change an entry. */
  lemma EntryStep(ws: seq<State>, es: seq<Event>, i: nat, h: uint64, key: uint64)
    requires Run(ws, es) && i < |es|
    ensures Entry(ws[i + 1], h, key) == if Delivers(es[i], h, key) then Some(es[i].value)
                                        else if Attaches(es[i], h) then EntryIn(es[i].store, key)
                                        else Entry(ws[i], h, key)
  {
    var w, e, w' := ws[i], es[i], ws[i + 1];
    assert StepAt(ws, es, i);
    if e.Put? {
      RunHandlesOf(ws, es, i, h);
      PutEntry(w, e.key, e.value, e.targets, w', h, key);
    } else {
      OtherEntry(w, e, w', h, key);
    }
  }

  lemma ListedStep(ws: seq<State>, es: seq<Event>, i: nat, h: uint64, key: uint64)
    requires Run(ws, es) && i < |es|
    ensures h in ws[i + 1].Holders(key) <==> h in ws[i].Holders(key) || Delivers(es[i], h, key)
  {
    assert StepAt(ws, es, i);
    if es[i].Put? {
      AddHoldersFacts(ws[i].holders, es[i].key, es[i].targets);
    }
  }

  /** A client is listed for a key exactly when it was written to. */
  lemma {:induction false} ListedIffDelivered(ws: seq<State>, es: seq<Event>, i: nat, h: uint64, key: uint64)
    requires Run(ws, es) && i < |ws|
    ensures h in ws[i].Holders(key) <==> LastDelivered(es[..i], h, key).Some?
  {
    if i > 0 {
      ListedIffDelivered(ws, es, i - 1, h, key);
      ListedStep(ws, es, i - 1, h, key);
      assert es[..i][..i - 1] == es[..i - 1];
    }
  }

  /** Whatever happens to its disk, a client stores what was last written to it since its process was started. */
  lemma {:induction false} ProcessStoresDelivered(ws: seq<State>, es: seq<Event>, i: nat, h: uint64, key: uint64)
    requires Run(ws, es) && i < |ws| && SinceAttach(es[..i], h, key).Some?
    ensures Entry(ws[i], h, key) == SinceAttach(es[..i], h, key)
  {
    EntryStep(ws, es, i - 1, h, key);
    assert es[..i][..i - 1] == es[..i - 1];
    if !Delivers(es[i - 1], h, key) {
      ProcessStoresDelivered(ws, es, i - 1, h, key);
    }
  }

  /** The invariant of the store for keys below the limit: a holder stores what was written to it last, through any
      disconnections and restarts. */
  lemma {:induction false} HoldersStoreLastDelivered(disks: map<uint64, Directory>, ws: seq<State>, es: seq<Event>,
                                                     i: nat,
                                                     h: uint64, key: uint64)
    requires Run(ws, es) && Persistent(disks, es) && i < |ws| && key < INT64_MAX && LastDelivered(es[..i], h, key).Some?
    ensures Entry(ws[i], h, key) == LastDelivered(es[..i], h, key)
  {
    EntryStep(ws, es, i - 1, h, key);
    assert es[..i][..i - 1] == es[..i - 1];
    if !Delivers(es[i - 1], h, key) {
      if Attaches(es[i - 1], h) {
        SmallKeyReloaded(disks, es, i - 1, key);
      } else {
        HoldersStoreLastDelivered(disks, ws, es, i - 1, h, key);
      }
    }
  }

  /** And for keys beyond it: a client stores exactly what was written to it since its process was started. */
  lemma {:induction false} LargeKeysStoreSinceAttach(disks: map<uint64, Directory>, ws: seq<State>, es: seq<Event>,
                                                     i: nat,
                                                     h: uint64, key: uint64)
    requires Run(ws, es) && Persistent(disks, es) && i < |ws| && key > INT64_MAX
    ensures Entry(ws[i], h, key) == SinceAttach(es[..i], h, key)
  {
    if i > 0 {
      EntryStep(ws, es, i - 1, h, key);
      assert es[..i][..i - 1] == es[..i - 1];
      if Attaches(es[i - 1], h) {
        LargeKeyNotReloaded(disks, es, i - 1, key);
      } else {
        LargeKeysStoreSinceAttach(disks, ws, es, i - 1, h, key);
      }
    }
  }

  /** And for the limit key: a holder stores what was written to it last, unless a restart has put the pair of another
      key in its place. */
  lemma {:induction false} LimitKeyStored(disks: map<uint64, Directory>, ws: seq<State>, es: seq<Event>, i: nat,
                                          h: uint64)
    requires Run(ws, es) && Persistent(disks, es) && i < |ws| && LastDelivered(es[..i], h, INT64_MAX).Some?
    ensures var override := OverrideValue(disks, es[..i], h);
      Entry(ws[i], h, INT64_MAX) == if override.Some? then override else LastDelivered(es[..i], h, INT64_MAX)
  {
    EntryStep(ws, es, i - 1, h, INT64_MAX);
    assert es[..i][..i - 1] == es[..i - 1];
    if !Delivers(es[i - 1], h, INT64_MAX) {
      if Attaches(es[i - 1], h) {
        LimitKeyReloaded(disks, es, i - 1);
      } else {
        LimitKeyStored(disks, ws, es, i - 1, h);
      }
    }
  }

  /** What client h has kept of what was written to it: all of it below the limit, only what its process got beyond it,
      and at the limit all of it unless another key's pair has taken its place. */
  ghost function Kept(disks: map<uint64, Directory>, es: seq<Event>, h: uint64, key: uint64): Option<Stats> {
    if key > INT64_MAX then SinceAttach(es, h, key)
    else if key == INT64_MAX && OverrideValue(disks, es, h).Some? then OverrideValue(disks, es, h)
    else LastDelivered(es, h, key)
  }

  lemma HolderStoresKept(disks: map<uint64, Directory>, ws: seq<State>, es: seq<Event>, i: nat, h: uint64, key: uint64)
    requires Run(ws, es) && Persistent(disks, es) && i < |ws| && h in ws[i].Holders(key)
    ensures Entry(ws[i], h, key) == Kept(disks, es[..i], h, key)
  {
    ListedIffDelivered(ws, es, i, h, key);
    if key < INT64_MAX {
      HoldersStoreLastDelivered(disks, ws, es, i, h, key);
    } else if key == INT64_MAX {
      LimitKeyStored(disks, ws, es, i, h);
    } else {
      LargeKeysStoreSinceAttach(disks, ws, es, i, h, key);
    }
  }

  lemma ChosenFacts(w: State, key: uint64)
    ensures Chosen(w, key).Some? ==> Chosen(w, key).value in w.Holders(key) && w.Connected(Chosen(w, key).value)
    ensures Chosen(w, key).None? ==> forall h :: h in w.Holders(key) ==> !w.Connected(h)
  {
    var held := w.OnlyConnected(w.Holders(key));
    ConnectedAmongFacts(w.conns, w.Holders(key));
    if held != [] {
      assert held[|held| - 1] in held;
    }
  }

  function OrZeros(entry: Option<Stats>): Stats { if entry.Some? then entry.value else NO_STATS }

  lemma ReadIsEntry(w: State, client: uint64, key: uint64)
    ensures ValueRead(w, client, key)
         == if Chosen(w, key).Some? then OrZeros(Entry(w, Chosen(w, key).value, key)) else NO_STATS
  {
  }

  /** What a caller of KVGet reads is what the client that the server asks has kept; zeros when the server asks
      nobody. */
  lemma GetReadsKept(disks: map<uint64, Directory>, ws: seq<State>, es: seq<Event>, g: nat, client: uint64, key: uint64)
    requires Run(ws, es) && Persistent(disks, es) && g < |ws|
    ensures ValueRead(ws[g], client, key) == match Chosen(ws[g], key)
                                             case None => NO_STATS
                                             case Some(h) => OrZeros(Kept(disks, es[..g], h, key))
  {
    ReadIsEntry(ws[g], client, key);
    ChosenFacts(ws[g], key);
    if Chosen(ws[g], key).Some? {
      HolderStoresKept(disks, ws, es, g, Chosen(ws[g], key).value, key);
    }
  }

  lemma {:induction false} DeliveredWasPut(es: seq<Event>, h: uint64, key: uint64)
    requires LastDelivered(es, h, key).Some?
    ensures exists j :: 0 <= j < |es| && Delivers(es[j], h, key) && es[j].value == LastDelivered(es, h, key).value
  {
    var last := |es| - 1;
    if Delivers(es[last], h, key) {
    } else {
      DeliveredWasPut(es[..last], h, key);
      var j :| 0 <= j < last && Delivers(es[..last][j], h, key)
               && es[..last][j].value == LastDelivered(es[..last], h, key).value;
      assert Delivers(es[j], h, key);
    }
  }

  lemma {:induction false} SinceAttachIsLast(es: seq<Event>, h: uint64, key: uint64)
    ensures SinceAttach(es, h, key).Some? ==> SinceAttach(es, h, key) == LastDelivered(es, h, key)
  {
    if es != [] {
      SinceAttachIsLast(es[..|es| - 1], h, key);
    }
  }

  /** The key is beyond the limit and the client was restarted after it was last written to. */
  predicate LostAtRestart(es: seq<Event>, h: uint64, key: uint64) { key > INT64_MAX && SinceAttach(es, h, key).None? }

  /** The key is the limit and a restart has put another key's pair in its place. */
  ghost predicate Overridden(disks: map<uint64, Directory>, es: seq<Event>, h: uint64, key: uint64) {
    key == INT64_MAX && OverrideValue(disks, es, h).Some?
  }

  /** Provenance: whatever the disconnections and restarts, a value read was written by an earlier Put of that very key,
      unless the client that the server asks has lost it at a restart, and then zeros are read, or has another key's
      pair in its place. */
  lemma GetReadsSomePut(disks: map<uint64, Directory>, ws: seq<State>, es: seq<Event>, g: nat, client: uint64,
                        key: uint64)
    requires Run(ws, es) && Persistent(disks, es) && g < |ws| && Chosen(ws[g], key).Some?
    ensures var h, value := Chosen(ws[g], key).value, ValueRead(ws[g], client, key);
      if LostAtRestart(es[..g], h, key) then value == NO_STATS
      else if Overridden(disks, es[..g], h, key) then WrittenBeyond(disks, es[..g], h, value)
      else exists j :: 0 <= j < g && Delivers(es[j], h, key) && es[j].value == value
  {
    var h := Chosen(ws[g], key).value;
    GetReadsKept(disks, ws, es, g, client, key);
    ChosenFacts(ws[g], key);
    ListedIffDelivered(ws, es, g, h, key);
    SinceAttachIsLast(es[..g], h, key);
    if Overridden(disks, es[..g], h, key) {
      PersistentPrefix(disks, es, g);
      OverrideWasWritten(disks, es[..g], h);
    } else if !LostAtRestart(es[..g], h, key) {
      EarlierPut(es, g, h, key, ValueRead(ws[g], client, key));
    }
  }

  /** Event p is the last write of the key before g. */
  ghost predicate IsLastPut(es: seq<Event>, p: nat, g: nat, key: uint64) {
    p < g <= |es| && Writes(es[p], key) && forall j :: p < j < g ==> !Writes(es[j], key)
  }

  ghost predicate AttachedBetween(es: seq<Event>, h: uint64, p: nat, g: nat) {
    exists k :: p < k < g && k < |es| && Attaches(es[k], h)
  }

  lemma {:induction false} DeliveredUpTo(es: seq<Event>, p: nat, g: nat, h: uint64, key: uint64)
    requires IsLastPut(es, p, g, key)
    ensures LastDelivered(es[..g], h, key)
         == if h in es[p].targets then Some(es[p].value) else LastDelivered(es[..p], h, key)
    decreases g
  {
    assert es[..g][..g - 1] == es[..g - 1];
    if g > p + 1 {
      assert !Writes(es[g - 1], key);
      DeliveredUpTo(es, p, g - 1, h, key);
    }
  }

  lemma {:induction false} SinceAttachUpTo(es: seq<Event>, p: nat, g: nat, h: uint64, key: uint64)
    requires IsLastPut(es, p, g, key)
    ensures SinceAttach(es[..g], h, key)
         == if AttachedBetween(es, h, p, g) then None
            else if h in es[p].targets then Some(es[p].value) else SinceAttach(es[..p], h, key)
    decreases g
  {
    assert es[..g][..g - 1] == es[..g - 1];
    if g > p + 1 {
      assert !Writes(es[g - 1], key);
      SinceAttachUpTo(es, p, g - 1, h, key);
      assert AttachedBetween(es, h, p, g) <==> AttachedBetween(es, h, p, g - 1) || Attaches(es[g - 1], h);
    } else {
      assert !AttachedBetween(es, h, p, g);
    }
  }

  lemma TargetsAreTheConnected(ws: seq<State>, es: seq<Event>, p: nat, h: uint64, key: uint64)
    requires Run(ws, es) && p < |es| && Writes(es[p], key) && h in ws[p + 1].Holders(key)
    ensures h in es[p].targets <==> ws[p].Connected(h)
  {
    assert StepAt(ws, es, p);
    AddHoldersFacts(ws[p].holders, key, es[p].targets);
    ConnectedAmongFacts(ws[p].conns, ws[p].Holders(key));
  }

  /** A holder was written to by the last Put exactly when it was CONNECTED at it. */
  lemma HolderGotLastPutIff(ws: seq<State>, es: seq<Event>, p: nat, g: nat, h: uint64, key: uint64)
    requires Run(ws, es) && IsLastPut(es, p, g, key) && h in ws[g].Holders(key)
    ensures h in es[p].targets <==> ws[p].Connected(h)
  {
    ListedIffDelivered(ws, es, g, h, key);
    ListedIffDelivered(ws, es, p + 1, h, key);
    DeliveredUpTo(es, p, g, h, key);
    DeliveredUpTo(es, p, p + 1, h, key);
    TargetsAreTheConnected(ws, es, p, h, key);
  }

  /** Whatever becomes of disks: every holder that was CONNECTED at the last Put of the key, and whose process has been
      the same since, stores the value of that Put, for every key. */
  lemma SameProcessStoresLastPut(ws: seq<State>, es: seq<Event>, p: nat, g: nat, h: uint64, key: uint64)
    requires Run(ws, es) && IsLastPut(es, p, g, key) && h in ws[g].Holders(key)
    requires ws[p].Connected(h) && !AttachedBetween(es, h, p, g)
    ensures Entry(ws[g], h, key) == Some(es[p].value)
  {
    HolderGotLastPutIff(ws, es, p, g, h, key);
    SinceAttachUpTo(es, p, g, h, key);
    ProcessStoresDelivered(ws, es, g, h, key);
  }

  /** So a Get that asks such a client reads the last Put. */
  lemma SameProcessReadsLastPut(ws: seq<State>, es: seq<Event>, p: nat, g: nat, client: uint64, key: uint64)
    requires Run(ws, es) && IsLastPut(es, p, g, key) && Chosen(ws[g], key).Some?
    requires var h := Chosen(ws[g], key).value; ws[p].Connected(h) && !AttachedBetween(es, h, p, g)
    ensures ValueRead(ws[g], client, key) == es[p].value
  {
    ReadIsEntry(ws[g], client, key);
    ChosenFacts(ws[g], key);
    SameProcessStoresLastPut(ws, es, p, g, Chosen(ws[g], key).value, key);
  }

  /** The client was CONNECTED at the last Put and still has what it got then. */
  ghost predicate HasLastPut(disks: map<uint64, Directory>, ws: seq<State>, es: seq<Event>, p: nat, g: nat, h: uint64,
                             key: uint64)
    requires p < |ws| && g <= |es|
  {
    && ws[p].Connected(h)
    && (key > INT64_MAX ==> !AttachedBetween(es, h, p, g))
    && !Overridden(disks, es[..g], h, key)
  }

  /** Replication: a Put writes to distinct CONNECTED clients, among them every CONNECTED holder, made up to three as
      far as there are CONNECTED clients, and each of them then stores the value and is on the key's list. */
  lemma PutReplicates(ws: seq<State>, es: seq<Event>, i: nat)
    requires Run(ws, es) && i < |es| && es[i].Put?
    ensures var w, w', key, targets := ws[i], ws[i + 1], es[i].key, es[i].targets;
      && NoDups(targets)
      && |targets| == Max(|w.OnlyConnected(w.Holders(key))|, Min(3, |w.ConnectedIds()|))
      && (forall t :: t in targets ==>
          w.Connected(t) && Entry(w', t, key) == Some(es[i].value) && t in w'.Holders(key))
      && (forall h :: h in w.Holders(key) && w.Connected(h) ==> h in targets)
  {
    var w, w', key, targets := ws[i], ws[i + 1], es[i].key, es[i].targets;
    assert StepAt(ws, es, i);
    AddHoldersFacts(w.holders, key, targets);
    ConnectedAmongFacts(w.conns, w.Holders(key));
    forall t | t in targets ensures Entry(w', t, key) == Some(es[i].value) {
      EntryStep(ws, es, i, t, key);
    }
  }

  /** Bookkeeping: the key's list keeps its order and grows by the new targets, without repetitions; everybody on it is
      registered; and the lists of other keys stay. */
  lemma PutRecordsHolders(ws: seq<State>, es: seq<Event>, i: nat)
    requires Run(ws, es) && i < |es| && es[i].Put?
    ensures var w, w', key, targets := ws[i], ws[i + 1], es[i].key, es[i].targets;
      && w.Holders(key) <= w'.Holders(key)
      && NoDups(w'.Holders(key))
      && (forall h :: h in w'.Holders(key) <==> h in w.Holders(key) || h in targets)
      && (forall h :: h in w'.Holders(key) ==> h in w'.conns)
      && forall k :: k != key ==> w'.Holders(k) == w.Holders(k)
  {
    assert StepAt(ws, es, i);
    AddHoldersFacts(ws[i].holders, es[i].key, es[i].targets);
    RunHoldersValid(ws, es, i + 1, es[i].key);
  }

  /** Read-latest, for every key: the value read is that of the last Put if the client that the server asks was
      CONNECTED at that Put and, for a key beyond the limit, has not been restarted since, and for the limit key has no
      other pair in its place. If not, it is that of an earlier Put, or zeros if the client has lost the key, or that
      other pair. */
  lemma ReadLatestIff(disks: map<uint64, Directory>, ws: seq<State>, es: seq<Event>, p: nat, g: nat, client: uint64,
                      key: uint64)
    requires Run(ws, es) && Persistent(disks, es) && IsLastPut(es, p, g, key) && Chosen(ws[g], key).Some?
    ensures var h, value := Chosen(ws[g], key).value, ValueRead(ws[g], client, key);
      if HasLastPut(disks, ws, es, p, g, h, key) then value == es[p].value
      else if LostAtRestart(es[..g], h, key) then value == NO_STATS
      else if Overridden(disks, es[..g], h, key) then OverrideValue(disks, es[..g], h) == Some(value)
      else exists j :: 0 <= j < p && Delivers(es[j], h, key) && es[j].value == value
  {
    var h := Chosen(ws[g], key).value;
    GetReadsKept(disks, ws, es, g, client, key);
    ChosenFacts(ws[g], key);
    ListedIffDelivered(ws, es, g, h, key);
    HolderGotLastPutIff(ws, es, p, g, h, key);
    DeliveredUpTo(es, p, g, h, key);
    SinceAttachUpTo(es, p, g, h, key);
    if !HasLastPut(disks, ws, es, p, g, h, key) && !LostAtRestart(es[..g], h, key)
       && !Overridden(disks, es[..g], h, key) {
      SinceAttachIsLast(es[..p], h, key);
      EarlierPut(es, p, h, key, ValueRead(ws[g], client, key));
    }
  }

  lemma EarlierPut(es: seq<Event>, p: nat, h: uint64, key: uint64, value: Stats)
    requires p <= |es| && LastDelivered(es[..p], h, key) == Some(value)
    ensures exists j :: 0 <= j < p && Delivers(es[j], h, key) && es[j].value == value
  {
    DeliveredWasPut(es[..p], h, key);
    var j :| 0 <= j < p && Delivers(es[..p][j], h, key) && es[..p][j].value == value;
    assert Delivers(es[j], h, key);
  }

  /** A client that was restarted after the last Put has lost a key beyond the limit: whoever asks for it reads
      zeros. */
  lemma RestartLosesLargeKey(disks: map<uint64, Directory>, ws: seq<State>, es: seq<Event>, p: nat, g: nat,
                             client: uint64,
                             key: uint64)
    requires Run(ws, es) && Persistent(disks, es) && IsLastPut(es, p, g, key) && key > INT64_MAX &&
        Chosen(ws[g], key).Some?
    requires AttachedBetween(es, Chosen(ws[g], key).value, p, g)
    ensures ValueRead(ws[g], client, key) == NO_STATS
  {
    SinceAttachUpTo(es, p, g, Chosen(ws[g], key).value, key);
    GetReadsKept(disks, ws, es, g, client, key);
  }

  /** With values that are not zeros and are never written again, the last Put is read if and only if the client asked
      has it. */
  lemma ReadsLastPutIff(disks: map<uint64, Directory>, ws: seq<State>, es: seq<Event>, p: nat, g: nat, client: uint64,
                        key: uint64)
    requires Run(ws, es) && Persistent(disks, es) && IsLastPut(es, p, g, key) && Chosen(ws[g], key).Some?
    requires forall j :: 0 <= j < p && Writes(es[j], key) ==> es[j].value != es[p].value
    requires key > INT64_MAX ==> es[p].value != NO_STATS
    requires key == INT64_MAX ==> !WrittenBeyond(disks, es[..g], Chosen(ws[g], key).value, es[p].value)
    ensures ValueRead(ws[g], client, key) == es[p].value
       <==> HasLastPut(disks, ws, es, p, g, Chosen(ws[g], key).value, key)
  {
    ReadLatestIff(disks, ws, es, p, g, client, key);
    if Overridden(disks, es[..g], Chosen(ws[g], key).value, key) {
      PersistentPrefix(disks, es, g);
      OverrideWasWritten(disks, es[..g], Chosen(ws[g], key).value);
    }
  }
}
