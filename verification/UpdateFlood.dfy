/** One update flooding a network of clients: each passes it on to its peers once, and nonces stop the rest. */
module UpdateFlood {
  import opened Base
  import opened Graphs

  // A client sends the update on to its neighbours, leaving out the player the update is about.

  /** inFlight has a copy of the update for each of its elements: on the network or waiting in RecordUpdates. seen and
      accepted are the clients that wrote the nonce down and that passed the update on. */
  datatype State = State(inFlight: multiset<uint64>, seen: set<uint64>, accepted: set<uint64>, sends: nat)

  function Initial(origin: uint64): State { State(multiset{origin}, {}, {}, 0) }

  /** What happens to one copy: its client accepts it, rejects it after writing the nonce down, or ignores it; or the
      network loses or duplicates it. */
  datatype Event = Accept(n: uint64) | Reject(n: uint64) | Ignore(n: uint64) | Lose(n: uint64) | Duplicate(n: uint64)

  function Consumed(s: State, n: uint64): State { s.(inFlight := s.inFlight - multiset{n}) }

  function Accepted(g: Graph, player: uint64, s: State, n: uint64): State {
    var recipients := Neighbours(g, player, n);
    State(s.inFlight - multiset{n} + multiset(recipients), s.seen + {n}, s.accepted + {n}, s.sends + |recipients|)
  }

  predicate Step(g: Graph, player: uint64, s: State, e: Event, s': State) {
    && e.n in s.inFlight
    && match e
       case Accept(n) => n in g && n !in s.seen && s' == Accepted(g, player, s, n)
       case Reject(n) => n !in s.seen && s' == Consumed(s, n).(seen := s.seen + {n})
       case Ignore(n) => s' == Consumed(s, n)
       case Lose(n) => s' == Consumed(s, n)
       case Duplicate(n) => s' == s.(inFlight := s.inFlight + multiset{n})
  }

  predicate StepAt(g: Graph, player: uint64, ss: seq<State>, es: seq<Event>, i: nat)
    requires |ss| == |es| + 1 && i < |es|
  {
    Step(g, player, ss[i], es[i], ss[i + 1])
  }

  ghost predicate Run(g: Graph, player: uint64, origin: uint64, ss: seq<State>, es: seq<Event>) {
    && |ss| == |es| + 1
    && origin in g
    && ss[0] == Initial(origin)
    && forall i :: 0 <= i < |es| ==> StepAt(g, player, ss, es, i)
  }

  function Degrees(g: Graph): map<uint64, int> { map n | n in g :: |g[n]| }

  function SentBy(g: Graph, player: uint64, ns: set<uint64>): map<uint64, int> {
    map n | n in ns :: |Neighbours(g, player, n)|
  }

  predicate Accounted(g: Graph, player: uint64, s: State, sends: int) {
    s.accepted <= s.seen && s.accepted <= g.Keys && s.sends == sends
  }

  lemma AcceptAccounts(g: Graph, player: uint64, s: State, n: uint64)
    requires n !in s.accepted
    ensures Sum(SentBy(g, player, s.accepted + {n})) == Sum(SentBy(g, player, s.accepted)) + |Neighbours(g, player, n)|
  {
    var m, r := SentBy(g, player, s.accepted), |Neighbours(g, player, n)|;
    SumAdd(m, n, r);
    assert SentBy(g, player, s.accepted + {n}) == m[n := r];
  }

  /** Conservation: what was sent is what the clients that accepted have for recipients. */
  lemma {:induction false} SendsAreThoseOfAccepted(g: Graph, player: uint64, origin: uint64, ss: seq<State>,
                                                   es: seq<Event>, i: nat)
    requires Run(g, player, origin, ss, es) && i < |ss|
    ensures Accounted(g, player, ss[i], Sum(SentBy(g, player, ss[i].accepted)))
  {
    if i == 0 {
      assert SentBy(g, player, {}) == map[];
    } else {
      SendsAreThoseOfAccepted(g, player, origin, ss, es, i - 1);
      assert StepAt(g, player, ss, es, i - 1);
      if es[i - 1].Accept? {
        AcceptAccounts(g, player, ss[i - 1], es[i - 1].n);
      }
    }
  }

  lemma {:induction false} SumMonotone(a: map<uint64, int>, b: map<uint64, int>)
    requires a.Keys <= b.Keys
    requires forall k {:trigger b[k]} :: k in b ==> 0 <= b[k] && (k in a ==> a[k] <= b[k])
    ensures Sum(a) <= Sum(b)
    decreases |b|
  {
    if b != map[] {
      var k :| k in b;
      SumRemove(b, k);
      if k in a {
        SumRemove(a, k);
        SumMonotone(a - {k}, b - {k});
      } else {
        SumMonotone(a, b - {k});
      }
    }
  }

  lemma SubsetCardinality<T>(a: set<T>, b: set<T>)
    requires a <= b
    ensures |a| <= |b|
  {
    assert b == a + (b - a);
  }

  lemma RecipientsAtMostDegree(g: Graph, player: uint64, ns: set<uint64>)
    requires ns <= g.Keys
    ensures Sum(SentBy(g, player, ns)) <= Sum(Degrees(g))
  {
    forall n {:trigger Degrees(g)[n]} | n in g
      ensures 0 <= Degrees(g)[n] && (n in ns ==> SentBy(g, player, ns)[n] <= Degrees(g)[n])
    {
      SubsetCardinality(Neighbours(g, player, n), g[n]);
    }
    SumMonotone(SentBy(g, player, ns), Degrees(g));
  }

  /** On any finite graph, cyclic or not, and whatever is lost or duplicated: at most as many sends as the sum of the
      clients' degrees. */
  lemma SendsBounded(g: Graph, player: uint64, origin: uint64, ss: seq<State>, es: seq<Event>, i: nat)
    requires Run(g, player, origin, ss, es) && i < |ss|
    ensures ss[i].sends <= Sum(Degrees(g))
  {
    SendsAreThoseOfAccepted(g, player, origin, ss, es, i);
    RecipientsAtMostDegree(g, player, ss[i].accepted);
  }

  ghost predicate NoDuplicates(es: seq<Event>) { forall i :: 0 <= i < |es| ==> !es[i].Duplicate? }

  /** Every copy is the first one or was sent, and every event consumes one. */
  lemma {:induction false} CopiesConserved(g: Graph, player: uint64, origin: uint64, ss: seq<State>, es: seq<Event>,
                                           i: nat)
    requires Run(g, player, origin, ss, es) && NoDuplicates(es) && i < |ss|
    ensures i + |ss[i].inFlight| == 1 + ss[i].sends
  {
    if i > 0 {
      CopiesConserved(g, player, origin, ss, es, i - 1);
      StepConservesCopies(g, player, ss, es, i - 1);
    }
  }

  lemma StepConservesCopies(g: Graph, player: uint64, ss: seq<State>, es: seq<Event>, i: nat)
    requires |ss| == |es| + 1 && i < |es| && StepAt(g, player, ss, es, i) && !es[i].Duplicate?
    ensures 1 + |ss[i + 1].inFlight| - ss[i + 1].sends == |ss[i].inFlight| - ss[i].sends
  {
    assert |multiset(Neighbours(g, player, es[i].n))| == |Neighbours(g, player, es[i].n)|;
  }

  /** Termination: a run without duplication ends after at most one event more than the sum of the degrees. */
  lemma FloodTerminates(g: Graph, player: uint64, origin: uint64, ss: seq<State>, es: seq<Event>)
    requires Run(g, player, origin, ss, es) && NoDuplicates(es)
    ensures |es| <= 1 + Sum(Degrees(g))
  {
    CopiesConserved(g, player, origin, ss, es, |es|);
    SendsBounded(g, player, origin, ss, es, |es|);
  }

  /** And each event makes a measure smaller: first the clients that have not seen the update, then the copies. */
  lemma StepDecreases(g: Graph, player: uint64, origin: uint64, ss: seq<State>, es: seq<Event>, i: nat)
    requires Run(g, player, origin, ss, es) && i < |es| && !es[i].Duplicate?
    ensures var unseen, unseen' := |g.Keys - ss[i].seen|, |g.Keys - ss[i + 1].seen|;
      unseen' < unseen || (unseen' == unseen && |ss[i + 1].inFlight| < |ss[i].inFlight|)
  {
    assert StepAt(g, player, ss, es, i);
    var n, u, u' := es[i].n, g.Keys - ss[i].seen, g.Keys - ss[i + 1].seen;
    if ss[i + 1].seen == ss[i].seen {
      assert ss[i + 1].inFlight == ss[i].inFlight - multiset{n};
    } else if n in u {
      assert u == u' + {n};
    } else {
      assert u == u';
    }
  }

  /** Copies and the clients that saw one are reachable. */
  ghost predicate AllReachable(g: Graph, player: uint64, origin: uint64, s: State) {
    forall n :: n in s.inFlight || n in s.seen || n in s.accepted ==> Reachable(g, player, origin, n)
  }

  lemma StepKeepsReachable(g: Graph, player: uint64, origin: uint64, s: State, e: Event, s': State)
    requires AllReachable(g, player, origin, s) && Step(g, player, s, e, s')
    ensures AllReachable(g, player, origin, s')
  {
    forall n | n in s'.inFlight || n in s'.seen || n in s'.accepted ensures Reachable(g, player, origin, n) {
      if e.Accept? && n in Neighbours(g, player, e.n) {
        NeighbourReachable(g, player, origin, e.n, n);
      }
    }
  }

  /** In every run, only clients that are reachable accept the update. */
  lemma {:induction false} RunReachable(g: Graph, player: uint64, origin: uint64, ss: seq<State>, es: seq<Event>,
                                        i: nat)
    requires Run(g, player, origin, ss, es) && i < |ss|
    ensures AllReachable(g, player, origin, ss[i])
  {
    if i == 0 {
      StartReachable(g, player, origin);
    } else {
      RunReachable(g, player, origin, ss, es, i - 1);
      assert StepAt(g, player, ss, es, i - 1);
      StepKeepsReachable(g, player, origin, ss[i - 1], es[i - 1], ss[i]);
    }
  }

  /** No copy is lost or rejected, and none is ignored by a client that has not seen one. */
  predicate Faithful(s: State, e: Event) {
    match e
    case Accept(n) => true
    case Ignore(n) => n in s.seen
    case Duplicate(n) => true
    case _ => false
  }

  ghost predicate FaithfulRun(ss: seq<State>, es: seq<Event>)
    requires |ss| == |es| + 1
  {
    forall i :: 0 <= i < |es| ==> Faithful(ss[i], es[i])
  }

  /** A copy for client n has been accepted, or is still in flight. */
  predicate Pending(s: State, n: uint64) { n in s.accepted || n in s.inFlight }

  /** Everybody that a client passed the update on to, and the origin, has it or will get it. */
  ghost predicate Covered(g: Graph, player: uint64, origin: uint64, s: State) {
    && s.seen == s.accepted
    && Pending(s, origin)
    && forall n, m :: n in s.accepted && m in Neighbours(g, player, n) ==> Pending(s, m)
  }

  lemma StepKeepsPending(g: Graph, player: uint64, s: State, e: Event, s': State, n: uint64)
    requires Pending(s, n) && s.seen == s.accepted && Faithful(s, e) && Step(g, player, s, e, s')
    ensures Pending(s', n)
  {
  }

  lemma StepKeepsCovered(g: Graph, player: uint64, origin: uint64, s: State, e: Event, s': State)
    requires Covered(g, player, origin, s) && Faithful(s, e) && Step(g, player, s, e, s')
    ensures Covered(g, player, origin, s')
  {
    StepKeepsPending(g, player, s, e, s', origin);
    forall n, m | n in s'.accepted && m in Neighbours(g, player, n) ensures Pending(s', m) {
      if n in s.accepted {
        StepKeepsPending(g, player, s, e, s', m);
      }
    }
  }

  lemma {:induction false} RunCovered(g: Graph, player: uint64, origin: uint64, ss: seq<State>, es: seq<Event>, i: nat)
    requires Run(g, player, origin, ss, es) && FaithfulRun(ss, es) && i < |ss|
    ensures Covered(g, player, origin, ss[i])
  {
    if i > 0 {
      RunCovered(g, player, origin, ss, es, i - 1);
      assert StepAt(g, player, ss, es, i - 1);
      StepKeepsCovered(g, player, origin, ss[i - 1], es[i - 1], ss[i]);
    }
  }

  lemma {:induction false} PathAccepted(g: Graph, player: uint64, origin: uint64, s: State, p: seq<uint64>, k: nat)
    requires Covered(g, player, origin, s) && s.inFlight == multiset{}
    requires IsPath(g, player, p) && p[0] == origin && k < |p|
    ensures p[k] in s.accepted
  {
    if k > 0 {
      PathAccepted(g, player, origin, s, p, k - 1);
      assert IsHop(g, player, p, k - 1);
      assert Pending(s, p[k]);
    } else {
      assert Pending(s, origin);
    }
  }

  /** If nothing is lost, aged out or rejected, then once no copy is left exactly the reachable clients have accepted
      the update. */
  lemma QuiescentAcceptedIffReachable(g: Graph, player: uint64, origin: uint64, ss: seq<State>, es: seq<Event>,
                                      n: uint64)
    requires Run(g, player, origin, ss, es) && FaithfulRun(ss, es) && ss[|es|].inFlight == multiset{}
    ensures n in ss[|es|].accepted <==> Reachable(g, player, origin, n)
  {
    RunReachable(g, player, origin, ss, es, |es|);
    RunCovered(g, player, origin, ss, es, |es|);
    if Reachable(g, player, origin, n) {
      var p :| PathTo(g, player, origin, p, n);
      PathAccepted(g, player, origin, ss[|es|], p, |p| - 1);
    }
  }

  lemma {:induction false} SeenStays(g: Graph, player: uint64, origin: uint64, ss: seq<State>, es: seq<Event>, i: nat,
                                     j: nat)
    requires Run(g, player, origin, ss, es) && i <= j < |ss|
    ensures ss[i].seen <= ss[j].seen && ss[i].accepted <= ss[j].accepted
  {
    if i < j {
      SeenStays(g, player, origin, ss, es, i, j - 1);
      assert StepAt(g, player, ss, es, j - 1);
    }
  }

  /** Nobody accepts the update twice. */
  lemma AcceptedAtMostOnce(g: Graph, player: uint64, origin: uint64, ss: seq<State>, es: seq<Event>, i: nat, j: nat)
    requires Run(g, player, origin, ss, es) && i < j < |es| && es[i].Accept? && es[j].Accept?
    ensures es[i].n != es[j].n
  {
    assert StepAt(g, player, ss, es, i) && StepAt(g, player, ss, es, j);
    SeenStays(g, player, origin, ss, es, i + 1, j);
  }

  lemma StepNeverSends(g: Graph, player: uint64, s: State, e: Event, s': State)
    requires Step(g, player, s, e, s') && player !in s.inFlight && player !in s.seen
    ensures player !in s'.inFlight && player !in s'.seen
  {
  }

  /** The update of another player never gets to that player. */
  lemma {:induction false} PlayerIsNeverSent(g: Graph, player: uint64, origin: uint64, ss: seq<State>, es: seq<Event>,
                                             i: nat)
    requires Run(g, player, origin, ss, es) && i < |ss| && origin != player
    ensures player !in ss[i].inFlight && player !in ss[i].seen
  {
    if i > 0 {
      PlayerIsNeverSent(g, player, origin, ss, es, i - 1);
      assert StepAt(g, player, ss, es, i - 1);
      StepNeverSends(g, player, ss[i - 1], es[i - 1], ss[i]);
    }
  }
}
