/** How far apart the clocks are after syncClocks, for hardware clocks that do not drift and any message delays. */
module ClockSync {
  import opened Base
  import opened World

  /** A TimeRequest in true time: when it is sent, and how long the request and the reply travel. */
  datatype Trip = Trip(start: int, request: nat, reply: nat) {
    function RoundTrip(): int { request + reply }

    /** Half the round trip, rounded up. */
    function Bound(): int { (RoundTrip() + 1) / 2 }
  }

  /** A hardware clock reads true time plus a constant; these are the constants of the server and of the clients. */
  datatype Hardware = Hardware(server: int, clients: map<uint64, int>)

  /** What time.Now() returns at the three instants of a trip. */
  function ReadingOf(hw: Hardware, id: uint64, trip: Trip): Reading
    requires id in hw.clients
  {
    Reading(trip.start + hw.server,
            trip.start + trip.request + hw.clients[id],
            trip.start + trip.request + trip.reply + hw.server)
  }

  ghost predicate NoDrift(w: State, hw: Hardware, trips: map<uint64, Trip>, readings: map<uint64, Reading>) {
    forall id :: w.Connected(id) ==>
      id in hw.clients && id in trips && id in readings && id in w.clocks &&
          readings[id] == ReadingOf(hw, id, trips[id])
  }

  /** A client's adjusted clock minus the server's. */
  function Skew(w: State, hw: Hardware, id: uint64): int
    requires id in w.clocks && id in hw.clients
  {
    (hw.clients[id] + w.clocks[id]) - (hw.server + w.offset)
  }

  /** What one synchronisation does to one CONNECTED client. */
  ghost predicate ClientSynced(w: State, reading: Reading, w': State, id: uint64) {
    && id in w.clocks && id in w'.clocks
    && w'.clocks[id] == (w'.offset - w.offset) - Measured(w.offset, w.clocks[id], reading)
  }

  lemma SyncReachesClient(w: State, readings: map<uint64, Reading>, w': State, id: uint64)
    requires SyncStep(w, readings, w') && w.Connected(id)
    ensures id in readings && ClientSynced(w, readings[id], w', id)
  {
    assert id in w.conns && |w.conns| > 0;
    assert id in w.clocks && id in readings;
    assert MeasurementsOf(w.conns, {}, w.offset, w.clocks, readings)[id] == Measured(w.offset, w.clocks[id],
        readings[id]);
  }

  /** The measurement is the skew before the synchronisation, off by at most half the round trip. */
  lemma MeasuredIsSkew(w: State, hw: Hardware, id: uint64, trip: Trip)
    requires id in w.clocks && id in hw.clients
    ensures Measured(w.offset, w.clocks[id], ReadingOf(hw, id, trip)) == Skew(w, hw, id) + trip.request - trip.Bound()
  {
    QuotientRemainder(trip.request + trip.reply, 2);
  }

  lemma SkewAfterStep(w: State, w': State, hw: Hardware, id: uint64, trip: Trip)
    requires id in hw.clients && ClientSynced(w, ReadingOf(hw, id, trip), w', id)
    ensures Skew(w', hw, id) == trip.Bound() - trip.request - w.clocks[id]
    ensures w'.clocks[id] == (w'.offset - w.offset) - (Skew(w, hw, id) + trip.request - trip.Bound())
  {
    MeasuredIsSkew(w, hw, id, trip);
  }

  /** Event i of the run is a synchronisation that reaches client id, over the given trips and without drift. */
  ghost predicate SyncsAt(ws: seq<State>, es: seq<Event>, i: nat, hw: Hardware, trips: map<uint64, Trip>, id: uint64) {
    && |ws| == |es| + 1 && i < |es| && es[i].SyncClocks?
    && NoDrift(ws[i], hw, trips, es[i].readings) && ws[i].Connected(id)
  }

  /** What SyncsAt says of the one client. */
  lemma SyncsClient(ws: seq<State>, es: seq<Event>, i: nat, hw: Hardware, trips: map<uint64, Trip>, id: uint64)
    requires Run(ws, es) && SyncsAt(ws, es, i, hw, trips, id)
    ensures id in hw.clients && id in trips && ClientSynced(ws[i], ReadingOf(hw, id, trips[id]), ws[i + 1], id)
  {
    assert StepAt(ws, es, i);
    SyncReachesClient(ws[i], es[i].readings, ws[i + 1], id);
  }

  /** After a synchronisation a client's skew is minus its old offset, within half the round trip: the old offset is
      lost because the client replaces it by a correction that was measured with the old offset in force. */
  lemma SkewAfterSync(ws: seq<State>, es: seq<Event>, i: nat, hw: Hardware, trips: map<uint64, Trip>, id: uint64)
    requires Run(ws, es) && SyncsAt(ws, es, i, hw, trips, id)
    ensures id in hw.clients && id in trips && id in ws[i].clocks && id in ws[i + 1].clocks
    ensures Skew(ws[i + 1], hw, id) == trips[id].Bound() - trips[id].request - ws[i].clocks[id]
    ensures -trips[id].Bound() <= Skew(ws[i + 1], hw, id) + ws[i].clocks[id] <= trips[id].Bound()
  {
    SyncsClient(ws, es, i, hw, trips, id);
    SkewAfterStep(ws[i], ws[i + 1], hw, id, trips[id]);
  }

  /** Clients that had no offset end within half their round trip of the server, and within the sum of each other. */
  lemma FirstSyncAgrees(ws: seq<State>, es: seq<Event>, i: nat, hw: Hardware, trips: map<uint64, Trip>, a: uint64,
                        b: uint64)
    requires Run(ws, es) && SyncsAt(ws, es, i, hw, trips, a) && SyncsAt(ws, es, i, hw, trips, b)
    requires a in ws[i].clocks && ws[i].clocks[a] == 0 && b in ws[i].clocks && ws[i].clocks[b] == 0
    ensures {a, b} <= ws[i + 1].clocks.Keys * hw.clients.Keys * trips.Keys
    ensures -trips[a].Bound() <= Skew(ws[i + 1], hw, a) <= trips[a].Bound()
    ensures -(trips[a].Bound() + trips[b].Bound()) <= Skew(ws[i + 1], hw, a) - Skew(ws[i + 1], hw, b)
                                                   <= trips[a].Bound() + trips[b].Bound()
  {
    SkewAfterSync(ws, es, i, hw, trips, a);
    SkewAfterSync(ws, es, i, hw, trips, b);
  }

  /** When the delays are symmetric the clocks agree exactly if and only if the client had no offset before. */
  lemma SymmetricSyncAgreesIff(ws: seq<State>, es: seq<Event>, i: nat, hw: Hardware, trips: map<uint64, Trip>,
                               id: uint64)
    requires Run(ws, es) && SyncsAt(ws, es, i, hw, trips, id)
    requires id in trips && trips[id].request == trips[id].reply
    ensures id in hw.clients && id in ws[i].clocks && id in ws[i + 1].clocks
    ensures Skew(ws[i + 1], hw, id) == 0 <==> ws[i].clocks[id] == 0
  {
    SkewAfterSync(ws, es, i, hw, trips, id);
  }

  /** Nothing sets the clocks of the client or the server between the two states. */
  ghost predicate ClockUntouched(es: seq<Event>, i: nat, j: nat, id: uint64) {
    forall k :: i <= k < j && k < |es| ==> !es[k].SyncClocks? && !(es[k].Attach? && es[k].id == id)
  }

  predicate SameClock(w: State, w': State, id: uint64) {
    w'.offset == w.offset && id in w.clocks && id in w'.clocks && w'.clocks[id] == w.clocks[id]
  }

  lemma StepKeepsClock(ws: seq<State>, es: seq<Event>, k: nat, id: uint64)
    requires Run(ws, es) && k < |es| && id in ws[k].clocks
    requires !es[k].SyncClocks? && !(es[k].Attach? && es[k].id == id)
    ensures SameClock(ws[k], ws[k + 1], id)
  {
    assert StepAt(ws, es, k);
  }

  lemma {:induction false} ClockStays(ws: seq<State>, es: seq<Event>, i: nat, j: nat, id: uint64)
    requires Run(ws, es) && i <= j < |ws| && ClockUntouched(es, i, j, id) && id in ws[i].clocks
    ensures SameClock(ws[i], ws[j], id)
  {
    if i < j {
      ClockStays(ws, es, i, j - 1, id);
      StepKeepsClock(ws, es, j - 1, id);
    }
  }

  /** Event k sets the clock of the client: a synchronisation that reaches it, or a new process. */
  predicate SetsClock(w: State, e: Event, id: uint64) {
    (e.SyncClocks? && w.Connected(id)) || (e.Attach? && e.id == id)
  }

  ghost predicate ClockLeft(ws: seq<State>, es: seq<Event>, i: nat, j: nat, id: uint64)
    requires |ws| == |es| + 1
  {
    forall k :: i <= k < j && k < |es| ==> !SetsClock(ws[k], es[k], id)
  }

  lemma ClockLeftStep(ws: seq<State>, es: seq<Event>, k: nat, id: uint64)
    requires Run(ws, es) && k < |es| && id in ws[k].clocks && !SetsClock(ws[k], es[k], id)
    ensures id in ws[k + 1].clocks && ws[k + 1].clocks[id] == ws[k].clocks[id]
  {
    assert StepAt(ws, es, k);
  }

  lemma {:induction false} ClockLeftAlone(ws: seq<State>, es: seq<Event>, i: nat, j: nat, id: uint64)
    requires Run(ws, es) && i <= j < |ws| && ClockLeft(ws, es, i, j, id) && id in ws[i].clocks
    ensures id in ws[j].clocks && ws[j].clocks[id] == ws[i].clocks[id]
  {
    if i < j {
      ClockLeftAlone(ws, es, i, j - 1, id);
      ClockLeftStep(ws, es, j - 1, id);
    }
  }

  /** A new process starts without an offset. Whatever its client's clock was before, and whatever is synchronised in
      the meantime, the first synchronisation that reaches it brings it within half its round trip of the server. */
  lemma NewProcessAgrees(ws: seq<State>, es: seq<Event>, a: nat, j: nat, hw: Hardware, trips: map<uint64, Trip>,
                         id: uint64)
    requires Run(ws, es) && a < j && a < |es| && es[a].Attach? && es[a].id == id && es[a].clock == 0
    requires ClockLeft(ws, es, a + 1, j, id) && SyncsAt(ws, es, j, hw, trips, id)
    ensures id in hw.clients && id in trips && id in ws[j + 1].clocks
    ensures Skew(ws[j + 1], hw, id) == trips[id].Bound() - trips[id].request
    ensures -trips[id].Bound() <= Skew(ws[j + 1], hw, id) <= trips[id].Bound()
  {
    assert StepAt(ws, es, a);
    ClockLeftAlone(ws, es, a + 1, j, id);
    SkewAfterSync(ws, es, j, hw, trips, id);
  }

  /** How far the measurement over a trip is from the skew. */
  function Error(trip: Trip): int { trip.request - trip.Bound() }

  /** Every Connect starts a synchronisation. The second one of a client undoes the first, whatever else happens in
      between: its skew is again what it was at the start, less the correction that the first one added to the server's
      own clock, and off by the errors of the two measurements. */
  lemma SecondSyncUndoesFirst(ws: seq<State>, es: seq<Event>, i: nat, j: nat, hw: Hardware,
                              ti: map<uint64, Trip>, tj: map<uint64, Trip>, id: uint64)
    requires Run(ws, es) && i < j && SyncsAt(ws, es, i, hw, ti, id) && SyncsAt(ws, es, j, hw, tj, id)
    requires ClockUntouched(es, i + 1, j, id)
    ensures id in hw.clients && id in ti && id in tj && id in ws[i].clocks && id in ws[i + 1].clocks &&
        id in ws[j + 1].clocks
    ensures Skew(ws[j + 1], hw, id)
         == Skew(ws[i], hw, id) - (ws[i + 1].offset - ws[i].offset) + Error(ti[id]) - Error(tj[id])
    ensures 0 - ti[id].Bound() <= Error(ti[id]) <= ti[id].Bound() &&
        0 - tj[id].Bound() <= Error(tj[id]) <= tj[id].Bound()
  {
    SyncsClient(ws, es, i, hw, ti, id);
    SyncsClient(ws, es, j, hw, tj, id);
    SkewAfterStep(ws[i], ws[i + 1], hw, id, ti[id]);
    ClockStays(ws, es, i + 1, j, id);
    SkewAfterStep(ws[j], ws[j + 1], hw, id, tj[id]);
  }

  ghost function Differences(a: int, m: map<uint64, int>): map<uint64, int> { map k | k in m :: a - m[k] }

  lemma Distribute(n: int, a: int)
    ensures n * a == (n - 1) * a + a && a * (n + 1) == n * a + a
  {
  }

  lemma DifferencesRemove(m: map<uint64, int>, a: int, k: uint64)
    requires k in m
    ensures Sum(Differences(a, m)) == (a - m[k]) + Sum(Differences(a, m - {k}))
  {
    SumRemove(Differences(a, m), k);
    assert Differences(a, m) - {k} == Differences(a, m - {k});
  }

  lemma {:induction false} SumOfDifferences(m: map<uint64, int>, a: int)
    ensures Sum(Differences(a, m)) + Sum(m) == |m| * a
    decreases |m|
  {
    if m == map[] {
      assert Differences(a, m) == map[];
    } else {
      var k :| k in m;
      SumOfDifferences(m - {k}, a);
      SumRemove(m, k);
      DifferencesRemove(m, a, k);
      Distribute(|m|, a);
      assert |m - {k}| == |m| - 1;
    }
  }

  /** The new offsets of the synchronised clients. */
  ghost function NewOffsets(w: State, w': State): map<uint64, int> {
    map id | id in w.conns && w.Connected(id) && id in w'.clocks :: w'.clocks[id]
  }

  lemma NewOffsetIs(w: State, readings: map<uint64, Reading>, w': State, id: uint64)
    requires SyncStep(w, readings, w') && w.Connected(id)
    ensures id in w'.clocks && id in Measurements(w, readings)
    ensures w'.clocks[id] == (w'.offset - w.offset) - Measurements(w, readings)[id]
  {
    assert id in w.conns && |w.conns| > 0;
    assert !Unreachable(w.conns, id);
  }

  /** The new offset of a client is what the average and its measurement make it. */
  ghost predicate OffsetFrom(w: State, m: map<uint64, int>, w': State, id: uint64) {
    w.Connected(id) ==> id in w'.clocks && id in m && w'.clocks[id] == (w'.offset - w.offset) - m[id]
  }

  lemma AllOffsetsFrom(w: State, readings: map<uint64, Reading>, w': State)
    requires SyncStep(w, readings, w') && |w.conns| > 0
    ensures w'.offset - w.offset == AverageOf(w.offset, Measurements(w, readings))
    ensures forall id :: OffsetFrom(w, Measurements(w, readings), w', id)
  {
    forall id ensures OffsetFrom(w, Measurements(w, readings), w', id) {
      if w.Connected(id) {
        NewOffsetIs(w, readings, w', id);
      }
    }
  }

  lemma MeasuredClients(w: State, readings: map<uint64, Reading>)
    ensures Measurements(w, readings).Keys == w.ConnectedIds() && |Measurements(w, readings)| == |w.ConnectedIds()|
  {
    assert |Measurements(w, readings)| == |Measurements(w, readings).Keys|;
  }

  lemma NewOffsetsAre(w: State, m: map<uint64, int>, w': State)
    requires m.Keys == w.ConnectedIds() && forall id :: OffsetFrom(w, m, w', id)
    ensures NewOffsets(w, w') == Differences(w'.offset - w.offset, m)
  {
    forall id | w.Connected(id) ensures id in w'.clocks && id in m && w'.clocks[id] == (w'.offset - w.offset) - m[id] {
      assert OffsetFrom(w, m, w', id);
    }
  }

  /** The server's correction and the clients' new offsets, given the server's old offset and the measurements. */
  ghost predicate AddsUp(offset: int, m: map<uint64, int>, correction: int, news: map<uint64, int>) {
    var dropped := GoRem(offset + Sum(m), |m| + 1);
    correction + Sum(news) == offset - dropped && 0 - |m| <= dropped <= |m|
  }

  lemma AverageAddsUp(offset: int, m: map<uint64, int>, average: int)
    requires average == AverageOf(offset, m)
    ensures AddsUp(offset, m, average, Differences(average, m))
  {
    SumOfDifferences(m, average);
    GoDivRem(offset + Sum(m), |m| + 1);
    Distribute(|m|, average);
  }

  lemma OffsetsAddUp(w: State, m: map<uint64, int>, w': State, average: int)
    requires m.Keys == w.ConnectedIds() && average == w'.offset - w.offset == AverageOf(w.offset, m)
    requires forall id :: OffsetFrom(w, m, w', id)
    ensures AddsUp(w.offset, m, average, NewOffsets(w, w'))
  {
    NewOffsetsAre(w, m, w');
    AverageAddsUp(w.offset, m, average);
  }

  /** The corrections of one synchronisation add up, over as many measurements as there are CONNECTED clients. */
  ghost predicate Balanced(w: State, readings: map<uint64, Reading>, w': State) {
    && AddsUp(w.offset, Measurements(w, readings), w'.offset - w.offset, NewOffsets(w, w'))
    && |Measurements(w, readings)| == |w.ConnectedIds()|
  }

  lemma StepAddsUp(w: State, readings: map<uint64, Reading>, w': State)
    requires SyncStep(w, readings, w') && |w.conns| > 0
    ensures Balanced(w, readings, w')
  {
    AllOffsetsFrom(w, readings, w');
    MeasuredClients(w, readings);
    OffsetsAddUp(w, Measurements(w, readings), w', w'.offset - w.offset);
  }

  /** The client has a new process or a new connection. */
  predicate StartsOver(w: State, e: Event, id: uint64) {
    (e.Attach? && e.id == id) || Connects(w, e, id) || Registers(w, e, id)
  }

  predicate OffsetIsKnown(w: State, id: uint64) {
    id in w.conns && id in w.clocks && w.conns[id].offset == w.clocks[id]
  }

  lemma SyncStepAt(ws: seq<State>, es: seq<Event>, i: nat)
    requires Run(ws, es) && i < |es| && es[i].SyncClocks?
    ensures SyncStep(ws[i], es[i].readings, ws[i + 1])
  {
    assert StepAt(ws, es, i);
  }

  lemma OffsetStep(ws: seq<State>, es: seq<Event>, k: nat, id: uint64)
    requires Run(ws, es) && k < |es| && OffsetIsKnown(ws[k], id) && !StartsOver(ws[k], es[k], id)
    requires !(es[k].SyncClocks? && ws[k].Connected(id))
    ensures OffsetIsKnown(ws[k + 1], id)
  {
    assert StepAt(ws, es, k);
  }

  lemma SyncMakesKnown(ws: seq<State>, es: seq<Event>, i: nat, id: uint64)
    requires Run(ws, es) && i < |es| && es[i].SyncClocks? && ws[i].Connected(id)
    ensures OffsetIsKnown(ws[i + 1], id)
  {
    SyncStepAt(ws, es, i);
    NewOffsetIs(ws[i], es[i].readings, ws[i + 1], id);
  }

  /** From a synchronisation of a client until its next Connect, registration or process, the server has on record the
      offset that the client's clock really has. */
  lemma {:induction false} ServerKnowsOffset(ws: seq<State>, es: seq<Event>, s: nat, i: nat, id: uint64)
    requires Run(ws, es) && s < i < |ws| && es[s].SyncClocks? && ws[s].Connected(id)
    requires forall k :: s < k < i ==> !StartsOver(ws[k], es[k], id)
    ensures OffsetIsKnown(ws[i], id)
  {
    if es[i - 1].SyncClocks? && ws[i - 1].Connected(id) {
      SyncMakesKnown(ws, es, i - 1, id);
    } else {
      ServerKnowsOffset(ws, es, s, i - 1, id);
      OffsetStep(ws, es, i - 1, id);
    }
  }

  /** Conservation: the server's correction and the clients' new offsets add up to the server's old offset less the
      remainder that the division drops, and that is smaller than the number of clocks. From zero offsets, the
      corrections of the server and of its n CONNECTED clients thus cancel up to n nanoseconds, whatever the order of
      the map. */
  lemma CorrectionsAddUp(ws: seq<State>, es: seq<Event>, i: nat)
    requires Run(ws, es) && i < |es| && es[i].SyncClocks? && |ws[i].conns| > 0
    ensures Balanced(ws[i], es[i].readings, ws[i + 1])
  {
    SyncStepAt(ws, es, i);
    StepAddsUp(ws[i], es[i].readings, ws[i + 1]);
  }
}
