/** The network of the clients' workers, handling any updates, refines the flooding of each single update. */
module WorkerNetwork {
  import opened Base
  import opened Updates
  import opened Recording
  import opened AtMostOnce
  import Graphs
  import Flood = UpdateFlood

  datatype Packet = Packet(to: uint64, update: Update)

  /** logs holds what each client's worker has taken from RecordUpdates so far. inFlight holds the updates on the
      network and those waiting in RecordUpdates. */
  datatype Network = Network(logs: map<uint64, seq<Delivery>>, inFlight: multiset<Packet>)

  datatype Event = Deliver(n: uint64, d: Delivery) | Originate(n: uint64,
      u: Update) | Lose(p: Packet) | Duplicate(p: Packet)

  function WorkerAt(n: uint64, log: seq<Delivery>): Recording.State { After(n, Recording.INITIAL, log, |log|) }

  predicate RecordsNext(n: uint64, log: seq<Delivery>, d: Delivery) { Records(WorkerAt(n, log), d) }

  predicate AcceptsNext(n: uint64, log: seq<Delivery>, d: Delivery) { Accepts(n, WorkerAt(n, log), d) }

  function Copies(rs: set<uint64>, u: Update): multiset<Packet> { multiset(set r | r in rs :: Packet(r, u)) }

  /** What OutgoingWorker sends for the update. */
  function Outgoing(g: Graphs.Graph, n: uint64, u: Update): multiset<Packet> {
    Copies(Graphs.Neighbours(g, u.playerID, n), u)
  }

  lemma CopiesInsert(rs: set<uint64>, r: uint64, u: Update)
    requires r !in rs
    ensures Copies(rs + {r}, u) == Copies(rs, u) + multiset{Packet(r, u)}
  {
  }

  /** The network after client n has handled delivery d. */
  function Delivered(g: Graphs.Graph, w: Network, n: uint64, d: Delivery, accepted: bool): Network
    requires n in w.logs
  {
    var sent := if accepted then Outgoing(g, n, d.update) else multiset{};
    Network(w.logs[n := w.logs[n] + [d]], w.inFlight - multiset{Packet(n, d.update)} + sent)
  }

  predicate Step(g: Graphs.Graph, w: Network, e: Event, w': Network) {
    match e
    case Deliver(n, d) =>
      && n in g && n in w.logs && Packet(n, d.update) in w.inFlight
      && w' == Delivered(g, w, n, d, AcceptsNext(n, w.logs[n], d))
    case Originate(n, u) => w' == w.(inFlight := w.inFlight + multiset{Packet(n, u)})
    case Lose(p) => p in w.inFlight && w' == w.(inFlight := w.inFlight - multiset{p})
    case Duplicate(p) => p in w.inFlight && w' == w.(inFlight := w.inFlight + multiset{p})
  }

  ghost predicate RecordedBy(n: uint64, log: seq<Delivery>, u: Update) {
    exists i :: 0 <= i < |log| && log[i].update == u && RecordedAt(n, log, i)
  }

  ghost predicate AcceptedBy(n: uint64, log: seq<Delivery>, u: Update) {
    exists i :: 0 <= i < |log| && log[i].update == u && AcceptedAt(n, log, i)
  }

  /** The client writes the update down at most once. */
  ghost predicate RecordsOnce(n: uint64, log: seq<Delivery>, u: Update) {
    forall i, j :: 0 <= i < j < |log| ==> !RecordsTwice(n, log, u, i, j)
  }

  predicate RecordsTwice(n: uint64, log: seq<Delivery>, u: Update, i: nat, j: nat)
    requires i < j < |log|
  {
    log[i].update == u && log[j].update == u && RecordedAt(n, log, i) && RecordedAt(n, log, j)
  }

  /** That is so when the client's clock does not go back, no delivery falls between the fences of its two clock
      readings, and nonces determine times. */
  lemma SoundClockRecordsOnce(n: uint64, log: seq<Delivery>, u: Update)
    requires NondecreasingClock(log) && NoneInGap(log) && NoncesDetermineTimes(log)
    ensures RecordsOnce(n, log, u)
  {
    forall i, j | 0 <= i < j < |log| ensures !RecordsTwice(n, log, u, i, j) {
      if RecordsTwice(n, log, u, i, j) {
        RecordedAtMostOnce(n, log, i, j);
      }
    }
  }

  lemma {:induction false} AfterPrefix(n: uint64, log: seq<Delivery>, d: Delivery, k: nat)
    requires k <= |log|
    ensures After(n, Recording.INITIAL, log + [d], k) == After(n, Recording.INITIAL, log, k)
  {
    if k > 0 {
      AfterPrefix(n, log, d, k - 1);
    }
  }

  lemma EarlierUnchanged(n: uint64, log: seq<Delivery>, d: Delivery, i: nat)
    requires i <= |log|
    ensures if i == |log| then
        && (RecordedAt(n, log + [d], i) <==> RecordsNext(n, log, d))
        && (AcceptedAt(n, log + [d], i) <==> AcceptsNext(n, log, d))
      else
        && (RecordedAt(n, log + [d], i) <==> RecordedAt(n, log, i))
        && (AcceptedAt(n, log + [d], i) <==> AcceptedAt(n, log, i))
  {
    AfterPrefix(n, log, d, i);
  }

  lemma RecordedByAppended(n: uint64, log: seq<Delivery>, d: Delivery, u: Update)
    ensures RecordedBy(n, log + [d], u) <==> RecordedBy(n, log, u) || (d.update == u && RecordsNext(n, log, d))
  {
    var log' := log + [d];
    if RecordedBy(n, log', u) {
      var i :| 0 <= i < |log'| && log'[i].update == u && RecordedAt(n, log', i);
      EarlierUnchanged(n, log, d, i);
      assert i < |log| ==> log[i].update == u;
    }
    if RecordedBy(n, log, u) {
      var i :| 0 <= i < |log| && log[i].update == u && RecordedAt(n, log, i);
      EarlierUnchanged(n, log, d, i);
      assert log'[i].update == u;
    }
    EarlierUnchanged(n, log, d, |log|);
    assert log'[|log|] == d;
  }

  lemma AcceptedByAppended(n: uint64, log: seq<Delivery>, d: Delivery, u: Update)
    ensures AcceptedBy(n, log + [d], u) <==> AcceptedBy(n, log, u) || (d.update == u && AcceptsNext(n, log, d))
  {
    var log' := log + [d];
    if AcceptedBy(n, log', u) {
      var i :| 0 <= i < |log'| && log'[i].update == u && AcceptedAt(n, log', i);
      EarlierUnchanged(n, log, d, i);
      assert i < |log| ==> log[i].update == u;
    }
    if AcceptedBy(n, log, u) {
      var i :| 0 <= i < |log| && log[i].update == u && AcceptedAt(n, log, i);
      EarlierUnchanged(n, log, d, i);
      assert log'[i].update == u;
    }
    EarlierUnchanged(n, log, d, |log|);
    assert log'[|log|] == d;
  }

  lemma RecordedOnce(n: uint64, log: seq<Delivery>, d: Delivery)
    requires RecordsOnce(n, log + [d], d.update) && RecordsNext(n, log, d)
    ensures !RecordedBy(n, log, d.update)
  {
    if RecordedBy(n, log, d.update) {
      var i :| 0 <= i < |log| && log[i].update == d.update && RecordedAt(n, log, i);
      EarlierUnchanged(n, log, d, i);
      EarlierUnchanged(n, log, d, |log|);
      assert (log + [d])[i] == log[i];
      assert RecordsTwice(n, log + [d], d.update, i, |log|);
    }
  }

  /** The flood of update u in a state of the network. */
  ghost predicate Mirrors(w: Network, u: Update, a: Flood.State) {
    && (forall n :: a.inFlight[n] == w.inFlight[Packet(n, u)])
    && (forall n :: n in a.seen <==> n in w.logs && RecordedBy(n, w.logs[n], u))
    && (forall n :: n in a.accepted <==> n in w.logs && AcceptedBy(n, w.logs[n], u))
  }

  function HandlingEvent(n: uint64, accepted: bool, recorded: bool): Flood.Event {
    if accepted then Flood.Accept(n) else if recorded then Flood.Reject(n) else Flood.Ignore(n)
  }

  /** The event of the flood of u that an event of the network amounts to, if it is about u. */
  function FloodEvent(w: Network, e: Event, u: Update): Option<Flood.Event> {
    match e
    case Deliver(n, d) =>
      if d.update != u || n !in w.logs then None
      else Some(HandlingEvent(n, AcceptsNext(n, w.logs[n], d), RecordsNext(n, w.logs[n], d)))
    case Originate(_, _) => None
    case Lose(p) => if p.update == u then Some(Flood.Lose(p.to)) else None
    case Duplicate(p) => if p.update == u then Some(Flood.Duplicate(p.to)) else None
  }

  function FloodAfter(g: Graphs.Graph, u: Update, a: Flood.State, e: Option<Flood.Event>): Flood.State {
    match e
    case None => a
    case Some(Accept(n)) => Flood.Accepted(g, u.playerID, a, n)
    case Some(Reject(n)) => Flood.Consumed(a, n).(seen := a.seen + {n})
    case Some(Ignore(n)) => Flood.Consumed(a, n)
    case Some(Lose(n)) => Flood.Consumed(a, n)
    case Some(Duplicate(n)) => a.(inFlight := a.inFlight + multiset{n})
  }

  lemma OutgoingCounts(g: Graphs.Graph, n: uint64, u: Update, r: uint64, v: Update)
    ensures Outgoing(g, n, u)[Packet(r, v)] == if v == u then multiset(Graphs.Neighbours(g, u.playerID, n))[r] else 0
  {
  }

  lemma OwnDeliveryCounts(g: Graphs.Graph, w: Network, n: uint64, d: Delivery, a: Flood.State, r: uint64,
                          accepted: bool, recorded: bool)
    requires n in w.logs && Packet(n, d.update) in w.inFlight && a.inFlight[r] == w.inFlight[Packet(r, d.update)]
    ensures FloodAfter(g, d.update, a, Some(HandlingEvent(n, accepted, recorded))).inFlight[r]
         == Delivered(g, w, n, d, accepted).inFlight[Packet(r, d.update)]
  {
    OutgoingCounts(g, n, d.update, r, d.update);
    RemovedCounts(w.inFlight, a.inFlight, n, r, d.update);
    var c, b := a.inFlight - multiset{n}, w.inFlight - multiset{Packet(n, d.update)};
    if accepted {
      assert (c + multiset(Graphs.Neighbours(g, d.update.playerID, n)))[r] == (b + Outgoing(g, n, d.update))[Packet(r,
          d.update)];
    } else {
      assert (b + multiset{}) == b;
    }
  }

  lemma RemovedCounts(b: multiset<Packet>, c: multiset<uint64>, n: uint64, r: uint64, u: Update)
    requires c[r] == b[Packet(r, u)]
    ensures (c - multiset{n})[r] == (b - multiset{Packet(n, u)})[Packet(r, u)]
  {
  }

  lemma OtherDeliveryCounts(g: Graphs.Graph, w: Network, n: uint64, d: Delivery, u: Update, r: uint64, accepted: bool)
    requires n in w.logs && u != d.update
    ensures Delivered(g, w, n, d, accepted).inFlight[Packet(r, u)] == w.inFlight[Packet(r, u)]
  {
    OutgoingCounts(g, n, d.update, r, u);
  }

  /** A client has seen u, or accepted it, after the delivery if it had before or does so now. */
  lemma DeliverySeen(w: Network, n: uint64, d: Delivery, u: Update, r: uint64)
    requires n in w.logs && r in w.logs
    ensures var log' := w.logs[n := w.logs[n] + [d]][r];
      && (RecordedBy(r, log', u) <==>
            RecordedBy(r, w.logs[r], u) || (r == n && d.update == u && RecordsNext(n, w.logs[n], d)))
      && (AcceptedBy(r, log', u) <==>
            AcceptedBy(r, w.logs[r], u) || (r == n && d.update == u && AcceptsNext(n, w.logs[n], d)))
  {
    RecordedByAppended(n, w.logs[n], d, u);
    AcceptedByAppended(n, w.logs[n], d, u);
  }

  lemma DeliverySimulated(g: Graphs.Graph, w: Network, n: uint64, d: Delivery, u: Update, a: Flood.State,
                          accepted: bool, recorded: bool)
    requires Mirrors(w, u, a) && n in w.logs && Packet(n, d.update) in w.inFlight
    requires (accepted <==> AcceptsNext(n, w.logs[n], d)) && (recorded <==> RecordsNext(n, w.logs[n], d)) &&
        (accepted ==> recorded)
    ensures var f := if d.update == u then Some(HandlingEvent(n, accepted, recorded)) else None;
      Mirrors(Delivered(g, w, n, d, accepted), u, FloodAfter(g, u, a, f))
  {
    var f := if d.update == u then Some(HandlingEvent(n, accepted, recorded)) else None;
    var w', a' := Delivered(g, w, n, d, accepted), FloodAfter(g, u, a, f);
    forall r ensures a'.inFlight[r] == w'.inFlight[Packet(r, u)] {
      if d.update == u {
        OwnDeliveryCounts(g, w, n, d, a, r, accepted, recorded);
      } else {
        OtherDeliveryCounts(g, w, n, d, u, r, accepted);
      }
    }
    forall r | r in w.logs
      ensures r in a'.seen <==> RecordedBy(r, w'.logs[r], u)
      ensures r in a'.accepted <==> AcceptedBy(r, w'.logs[r], u)
    {
      DeliverySeen(w, n, d, u, r);
    }
  }

  lemma DeliveryIsFloodStep(g: Graphs.Graph, w: Network, n: uint64, d: Delivery, u: Update, a: Flood.State)
    requires Mirrors(w, u, a) && n in g && n in w.logs && Packet(n, u) in w.inFlight && d.update == u
    requires RecordsOnce(n, w.logs[n] + [d], u)
    ensures var f := FloodEvent(w, Deliver(n, d), u);
      f.Some? && Flood.Step(g, u.playerID, a, f.value, FloodAfter(g, u, a, f))
  {
    assert a.inFlight[n] == w.inFlight[Packet(n, u)];
    if RecordsNext(n, w.logs[n], d) {
      RecordedOnce(n, w.logs[n], d);
    }
  }

  lemma LossSimulated(w: Network, p: Packet, w': Network, u: Update, a: Flood.State, a': Flood.State)
    requires Mirrors(w, u, a) && w' == w.(inFlight := w.inFlight - multiset{p})
    requires a' == if p.update == u then Flood.Consumed(a, p.to) else a
    ensures Mirrors(w', u, a')
  {
    assert p == Packet(p.to, p.update);
  }

  lemma AdditionSimulated(w: Network, p: Packet, w': Network, u: Update, a: Flood.State, a': Flood.State)
    requires Mirrors(w, u, a) && w' == w.(inFlight := w.inFlight + multiset{p})
    requires a' == if p.update == u then a.(inFlight := a.inFlight + multiset{p.to}) else a
    ensures Mirrors(w', u, a')
  {
    assert p == Packet(p.to, p.update);
  }

  lemma OtherIsFloodStep(g: Graphs.Graph, w: Network, e: Event, w': Network, u: Update, a: Flood.State)
    requires Mirrors(w, u, a) && Step(g, w, e, w') && (e.Lose? || e.Duplicate?) && e.p.update == u
    ensures var f := FloodEvent(w, e, u);
      f.Some? && Flood.Step(g, u.playerID, a, f.value, FloodAfter(g, u, a, f))
  {
    assert a.inFlight[e.p.to] == w.inFlight[Packet(e.p.to, u)];
  }

  lemma LossMirrored(g: Graphs.Graph, w: Network, p: Packet, w': Network, u: Update, a: Flood.State)
    requires Mirrors(w, u, a) && Step(g, w, Lose(p), w')
    ensures Mirrors(w', u, FloodAfter(g, u, a, FloodEvent(w, Lose(p), u)))
  {
    LossSimulated(w, p, w', u, a, FloodAfter(g, u, a, FloodEvent(w, Lose(p), u)));
  }

  lemma AdditionMirrored(g: Graphs.Graph, w: Network, e: Event, w': Network, u: Update, a: Flood.State)
    requires Mirrors(w, u, a) && Step(g, w, e, w') && (e.Duplicate? || (e.Originate? && e.u != u))
    ensures Mirrors(w', u, FloodAfter(g, u, a, FloodEvent(w, e, u)))
  {
    var p := if e.Duplicate? then e.p else Packet(e.n, e.u);
    AdditionSimulated(w, p, w', u, a, FloodAfter(g, u, a, FloodEvent(w, e, u)));
  }

  /** Simulation: each event is a step of the flood of u, or leaves it alone. */
  lemma StepSimulated(g: Graphs.Graph, w: Network, e: Event, w': Network, u: Update, a: Flood.State)
    requires Mirrors(w, u, a) && Step(g, w, e, w') && !(e.Originate? && e.u == u)
    requires e.Deliver? && e.d.update == u ==> RecordsOnce(e.n, w.logs[e.n] + [e.d], u)
    ensures var f := FloodEvent(w, e, u);
      && Mirrors(w', u, FloodAfter(g, u, a, f))
      && (f.Some? ==> Flood.Step(g, u.playerID, a, f.value, FloodAfter(g, u, a, f)))
  {
    if e.Deliver? {
      var n, d := e.n, e.d;
      DeliverySimulated(g, w, n, d, u, a, AcceptsNext(n, w.logs[n], d), RecordsNext(n, w.logs[n], d));
      if d.update == u {
        DeliveryIsFloodStep(g, w, n, d, u, a);
      }
    } else {
      if e.Lose? {
        LossMirrored(g, w, e.p, w', u, a);
      } else {
        AdditionMirrored(g, w, e, w', u, a);
      }
      if FloodEvent(w, e, u).Some? {
        OtherIsFloodStep(g, w, e, w', u, a);
      }
    }
  }

  /** The update has just been put into the RecordUpdates of its origin, and nowhere else. */
  ghost predicate JustOriginated(w: Network, origin: uint64, u: Update) {
    && (forall n :: w.inFlight[Packet(n, u)] == if n == origin then 1 else 0)
    && forall n :: n in w.logs ==> forall i :: 0 <= i < |w.logs[n]| ==> w.logs[n][i].update != u
  }

  predicate StepAt(g: Graphs.Graph, ws: seq<Network>, es: seq<Event>, i: nat)
    requires |ws| == |es| + 1 && i < |es|
  {
    Step(g, ws[i], es[i], ws[i + 1])
  }

  /** A run from the moment that u was originated, with any other updates around it, in which no client writes u down
      twice. */
  ghost predicate Run(g: Graphs.Graph, origin: uint64, u: Update, ws: seq<Network>, es: seq<Event>) {
    && |ws| == |es| + 1
    && origin in g
    && JustOriginated(ws[0], origin, u)
    && (forall i :: 0 <= i < |es| ==> StepAt(g, ws, es, i))
    && (forall i :: 0 <= i < |es| ==> !(es[i].Originate? && es[i].u == u))
    && (forall i, n :: 0 <= i < |ws| && n in ws[i].logs ==> RecordsOnce(n, ws[i].logs[n], u))
  }

  /** How many copies of u the clients' OutgoingWorkers have sent. */
  function SendsOf(g: Graphs.Graph, ws: seq<Network>, es: seq<Event>, u: Update, k: nat): nat
    requires k <= |es| <= |ws|
  {
    if k == 0 then 0
    else
      var f := FloodEvent(ws[k - 1], es[k - 1], u);
      SendsOf(g, ws, es, u, k - 1)
        + if f.Some? && f.value.Accept? then |Graphs.Neighbours(g, u.playerID, f.value.n)| else 0
  }

  lemma FloodExtended(g: Graphs.Graph, player: uint64, origin: uint64, ss: seq<Flood.State>, fs: seq<Flood.Event>,
                      f: Flood.Event, s: Flood.State)
    requires Flood.Run(g, player, origin, ss, fs) && Flood.Step(g, player, ss[|fs|], f, s)
    ensures Flood.Run(g, player, origin, ss + [s], fs + [f])
  {
    forall i | 0 <= i < |fs| + 1 ensures Flood.StepAt(g, player, ss + [s], fs + [f], i) {
      assert i < |fs| ==> Flood.StepAt(g, player, ss, fs, i);
    }
  }

  lemma RunStepSimulated(g: Graphs.Graph, origin: uint64, u: Update, ws: seq<Network>, es: seq<Event>, i: nat,
                         a: Flood.State)
    requires Run(g, origin, u, ws, es) && i < |es| && Mirrors(ws[i], u, a)
    ensures var f := FloodEvent(ws[i], es[i], u);
      && Mirrors(ws[i + 1], u, FloodAfter(g, u, a, f))
      && (f.Some? ==> Flood.Step(g, u.playerID, a, f.value, FloodAfter(g, u, a, f)))
  {
    assert StepAt(g, ws, es, i);
    var e := es[i];
    if e.Deliver? {
      assert ws[i + 1].logs[e.n] == ws[i].logs[e.n] + [e.d];
    }
    StepSimulated(g, ws[i], e, ws[i + 1], u, a);
  }

  /** Events about u neither lose a copy nor reject or age out the update where it has not been seen. */
  ghost predicate FaithfulTo(w: Network, e: Event, u: Update) {
    var f := FloodEvent(w, e, u);
    f.Some? ==> match f.value
      case Accept(_) => true
      case Ignore(n) => n in w.logs && RecordedBy(n, w.logs[n], u)
      case Duplicate(_) => true
      case _ => false
  }

  ghost predicate FaithfulUpTo(ws: seq<Network>, es: seq<Event>, u: Update, k: nat)
    requires k <= |es| <= |ws|
  {
    forall i :: 0 <= i < k ==> FaithfulTo(ws[i], es[i], u)
  }

  lemma {:induction false} InitialMirrors(w: Network, origin: uint64, u: Update)
    requires JustOriginated(w, origin, u)
    ensures Mirrors(w, u, Flood.Initial(origin))
  {
  }

  /** Refinement: a run of the network contains a run of the flood of u, in which the same clients have seen and
      accepted u, the same copies are in flight, and as many have been sent. */
  lemma {:induction false} Refines(g: Graphs.Graph, origin: uint64, u: Update, ws: seq<Network>, es: seq<Event>, k: nat)
    returns (ss: seq<Flood.State>, fs: seq<Flood.Event>)
    requires Run(g, origin, u, ws, es) && k <= |es|
    ensures Flood.Run(g, u.playerID, origin, ss, fs)
    ensures Mirrors(ws[k], u, ss[|fs|]) && ss[|fs|].sends == SendsOf(g, ws, es, u, k)
    ensures FaithfulUpTo(ws, es, u, k) ==> Flood.FaithfulRun(ss, fs)
  {
    if k == 0 {
      InitialMirrors(ws[0], origin, u);
      ss, fs := [Flood.Initial(origin)], [];
    } else {
      ss, fs := Refines(g, origin, u, ws, es, k - 1);
      var a, f := ss[|fs|], FloodEvent(ws[k - 1], es[k - 1], u);
      RunStepSimulated(g, origin, u, ws, es, k - 1, a);
      if f.Some? {
        var a' := FloodAfter(g, u, a, f);
        FloodExtended(g, u.playerID, origin, ss, fs, f.value, a');
        if FaithfulUpTo(ws, es, u, k) {
          assert FaithfulTo(ws[k - 1], es[k - 1], u);
          FaithfulExtended(ss, fs, f.value, a');
        }
        ss, fs := ss + [a'], fs + [f.value];
      }
    }
  }

  lemma FaithfulExtended(ss: seq<Flood.State>, fs: seq<Flood.Event>, f: Flood.Event, s: Flood.State)
    requires |ss| == |fs| + 1 && Flood.FaithfulRun(ss, fs) && Flood.Faithful(ss[|fs|], f)
    ensures Flood.FaithfulRun(ss + [s], fs + [f])
  {
  }

  lemma {:induction false} ShownStays(n: uint64, log: seq<Delivery>, u: Update, i: nat, k: nat)
    requires i < k <= |log| && log[i].update == u && AcceptedAt(n, log, i)
    ensures u in After(n, Recording.INITIAL, log, k).shown
  {
    if i < k - 1 {
      ShownStays(n, log, u, i, k - 1);
    }
  }

  /** What a worker has accepted went to the screen. */
  lemma AcceptedIsShown(n: uint64, log: seq<Delivery>, u: Update)
    requires AcceptedBy(n, log, u)
    ensures u in WorkerAt(n, log).shown
  {
    var i :| 0 <= i < |log| && log[i].update == u && AcceptedAt(n, log, i);
    ShownStays(n, log, u, i, |log|);
  }

  /** Whatever else the clients exchange, an update is sent at most as often as the degrees add up to. */
  lemma SendsOfUpdateBounded(g: Graphs.Graph, origin: uint64, u: Update, ws: seq<Network>, es: seq<Event>)
    requires Run(g, origin, u, ws, es)
    ensures SendsOf(g, ws, es, u, |es|) <= Sum(Flood.Degrees(g))
  {
    var ss, fs := Refines(g, origin, u, ws, es, |es|);
    Flood.SendsBounded(g, u.playerID, origin, ss, fs, |fs|);
  }

  /** And if no copy of it is lost, aged out or rejected, then once none is left, it has been passed on by exactly the
      clients with a path from the origin that avoids the player. */
  lemma UpdateReachesExactly(g: Graphs.Graph, origin: uint64, u: Update, ws: seq<Network>, es: seq<Event>, n: uint64)
    requires Run(g, origin, u, ws, es) && FaithfulUpTo(ws, es, u, |es|)
    requires forall r :: Packet(r, u) !in ws[|es|].inFlight
    ensures n in ws[|es|].logs && AcceptedBy(n, ws[|es|].logs[n], u) <==> Graphs.Reachable(g, u.playerID, origin, n)
  {
    var ss, fs := Refines(g, origin, u, ws, es, |es|);
    var last := ss[|fs|];
    forall r ensures r !in last.inFlight {
      assert last.inFlight[r] == ws[|es|].inFlight[Packet(r, u)];
    }
    assert last.inFlight == multiset{};
    Flood.QuiescentAcceptedIffReachable(g, u.playerID, origin, ss, fs, n);
  }
}
