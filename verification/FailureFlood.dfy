/** The news of a failed client spreading through the network: nothing but the TTL stops it. */
module FailureFlood {
  import opened Base
  import opened Graphs

  const FAILURE_NOTIFICATION_TTL := 3

  /** A call of NotifyFailure under way to a client. */
  datatype Message = Message(to: uint64, ttl: nat)

  // After removing the failed client a client sends the news to its neighbours, the failed one left out.

  function ToAll(ns: set<uint64>, ttl: nat): multiset<Message> { multiset(set n | n in ns :: Message(n, ttl)) }

  /** removed holds the clients that have removed the failed one. */
  datatype State = State(inFlight: multiset<Message>, removed: set<uint64>, sends: nat)

  /** The detector has handled the disconnection. */
  function Initial(g: Graph, failed: uint64, detector: uint64, ttl: nat): State {
    var others := Neighbours(g, failed, detector);
    State(ToAll(others, ttl), {detector}, |others|)
  }

  datatype Event = Notify(m: Message) | Lose(m: Message)

  /** What a client sends on when it is notified. */
  function Forwarded(g: Graph, failed: uint64, m: Message): multiset<Message> {
    if m.ttl > 0 then ToAll(Neighbours(g, failed, m.to), m.ttl - 1) else multiset{}
  }

  function Notified(g: Graph, failed: uint64, s: State, m: Message): State {
    var forwarded := Forwarded(g, failed, m);
    State(s.inFlight - multiset{m} + forwarded, s.removed + {m.to}, s.sends + |forwarded|)
  }

  predicate Step(g: Graph, failed: uint64, s: State, e: Event, s': State) {
    && e.m in s.inFlight
    && match e
       case Notify(m) => s' == Notified(g, failed, s, m)
       case Lose(m) => s' == s.(inFlight := s.inFlight - multiset{m})
  }

  predicate StepAt(g: Graph, failed: uint64, ss: seq<State>, es: seq<Event>, i: nat)
    requires |ss| == |es| + 1 && i < |es|
  {
    Step(g, failed, ss[i], es[i], ss[i + 1])
  }

  ghost predicate Run(g: Graph, failed: uint64, detector: uint64, ttl: nat, ss: seq<State>, es: seq<Event>) {
    && |ss| == |es| + 1
    && ss[0] == Initial(g, failed, detector, ttl)
    && forall i :: 0 <= i < |es| ==> StepAt(g, failed, ss, es, i)
  }

  function Power(d: nat, k: nat): nat { if k == 0 then 1 else d * Power(d, k - 1) }

  /** d + d^2 + ... + d^k. */
  function PowerSum(d: nat, k: nat): nat { if k == 0 then 0 else PowerSum(d, k - 1) + Power(d, k) }

  /** How many sends one message with that ttl can cause if nobody has more than d peers. */
  function Future(d: nat, ttl: nat): nat { if ttl == 0 then 0 else Product(d, 1 + Future(d, ttl - 1)) }

  // A product by repeated addition keeps the verifier's arithmetic linear.
  function Product(n: nat, x: nat): nat { if n == 0 then 0 else x + Product(n - 1, x) }

  lemma {:induction false} ProductIsTimes(n: nat, x: nat)
    ensures Product(n, x) == n * x
  {
    if n > 0 {
      ProductIsTimes(n - 1, x);
    }
  }

  lemma {:induction false} ProductMonotone(n: nat, m: nat, x: nat)
    requires n <= m
    ensures Product(n, x) <= Product(m, x)
  {
    if n < m {
      ProductMonotone(n, m - 1, x);
    }
  }

  lemma {:induction false} PowerSumStep(d: nat, k: nat)
    ensures PowerSum(d, k + 1) == d * (1 + PowerSum(d, k))
  {
    assert Power(d, k + 1) == d * Power(d, k);
    if k == 0 {
      assert PowerSum(d, 1) == PowerSum(d, 0) + Power(d, 1) == Power(d, 1);
      assert Power(d, 0) == 1;
    } else {
      PowerSumStep(d, k - 1);
      assert d * (1 + PowerSum(d, k - 1)) + d * Power(d, k) == d * (1 + PowerSum(d, k - 1) + Power(d, k));
    }
  }

  /** The sends that one message can cause, in closed form. */
  lemma {:induction false} FutureIsPowerSum(d: nat, ttl: nat)
    ensures Future(d, ttl) == PowerSum(d, ttl)
  {
    if ttl > 0 {
      FutureIsPowerSum(d, ttl - 1);
      var x := Future(d, ttl - 1);
      ProductIsTimes(d, 1 + x);
      PowerSumStep(d, ttl - 1);
      assert Future(d, ttl) == Product(d, 1 + x) == d * (1 + x);
    }
  }

  /** The sends that the messages in flight can still cause. */
  ghost function Potential(d: nat, ms: multiset<Message>): nat
    decreases |ms|
  {
    if ms == multiset{} then 0
    else
      var m :| m in ms;
      Future(d, m.ttl) + Potential(d, ms - multiset{m})
  }

  lemma {:induction false} PotentialRemove(d: nat, ms: multiset<Message>, m: Message)
    requires m in ms
    ensures Potential(d, ms) == Future(d, m.ttl) + Potential(d, ms - multiset{m})
    decreases |ms|
  {
    var c :| c in ms && Potential(d, ms) == Future(d, c.ttl) + Potential(d, ms - multiset{c});
    if c != m {
      PotentialRemove(d, ms - multiset{c}, m);
      PotentialRemove(d, ms - multiset{m}, c);
      assert ms - multiset{c} - multiset{m} == ms - multiset{m} - multiset{c};
    }
  }

  lemma {:induction false} ToAllFacts(d: nat, base: multiset<Message>, ns: set<uint64>, ttl: nat)
    ensures |ToAll(ns, ttl)| == |ns|
    ensures Potential(d, base + ToAll(ns, ttl)) == Potential(d, base) + Product(|ns|, Future(d, ttl))
    decreases |ns|
  {
    if ns == {} {
      assert ToAll(ns, ttl) == multiset{};
      assert base + ToAll(ns, ttl) == base;
    } else {
      var n :| n in ns;
      var rest, m := ns - {n}, Message(n, ttl);
      ToAllFacts(d, base, rest, ttl);
      ToAllInsert(rest, n, ttl);
      assert ns == rest + {n};
      PotentialInsert(d, base, ToAll(rest, ttl), m);
      assert ToAll(ns, ttl) == ToAll(rest, ttl) + multiset{m};
      assert Product(|ns|, Future(d, ttl)) == Future(d, ttl) + Product(|rest|, Future(d, ttl));
    }
  }

  lemma PotentialInsert(d: nat, a: multiset<Message>, b: multiset<Message>, m: Message)
    ensures Potential(d, a + (b + multiset{m})) == Potential(d, a + b) + Future(d, m.ttl)
  {
    PotentialRemove(d, a + (b + multiset{m}), m);
    assert a + (b + multiset{m}) - multiset{m} == a + b;
  }

  lemma ToAllInsert(ns: set<uint64>, n: uint64, ttl: nat)
    requires n !in ns
    ensures ToAll(ns + {n}, ttl) == ToAll(ns, ttl) + multiset{Message(n, ttl)}
  {
  }

  /** Nobody has more than d peers besides the failed client. */
  ghost predicate DegreeAtMost(g: Graph, failed: uint64, d: nat) {
    forall n :: |Neighbours(g, failed, n)| <= d
  }

  /** What is sent and can still be sent does not grow. */
  lemma NotifyPotential(g: Graph, failed: uint64, d: nat, s: State, m: Message)
    requires DegreeAtMost(g, failed, d) && m in s.inFlight
    ensures var s' := Notified(g, failed, s, m);
      s'.sends + Potential(d, s'.inFlight) <= s.sends + Potential(d, s.inFlight)
  {
    var base := s.inFlight - multiset{m};
    PotentialRemove(d, s.inFlight, m);
    ForwardedPotential(g, failed, d, base, m);
    assert Notified(g, failed, s, m).inFlight == base + Forwarded(g, failed, m);
  }

  lemma ForwardedPotential(g: Graph, failed: uint64, d: nat, base: multiset<Message>, m: Message)
    requires DegreeAtMost(g, failed, d)
    ensures |Forwarded(g, failed, m)| + Potential(d, base + Forwarded(g, failed, m)) <= Potential(d, base) + Future(d,
        m.ttl)
  {
    if m.ttl > 0 {
      ForwardPotential(g, failed, d, base, m.to, m.ttl - 1);
    } else {
      assert base + multiset{} == base;
    }
  }

  lemma ForwardPotential(g: Graph, failed: uint64, d: nat, base: multiset<Message>, n: uint64, ttl: nat)
    requires DegreeAtMost(g, failed, d)
    ensures var others := Neighbours(g, failed, n);
      |ToAll(others, ttl)| + Potential(d, base + ToAll(others, ttl)) <= Potential(d, base) + Future(d, ttl + 1)
  {
    var others := Neighbours(g, failed, n);
    ToAllFacts(d, base, others, ttl);
    ProductMonotone(|others|, d, 1 + Future(d, ttl));
    ProductOfSuccessor(|others|, Future(d, ttl));
  }

  lemma {:induction false} ProductOfSuccessor(n: nat, x: nat)
    ensures Product(n, 1 + x) == n + Product(n, x)
  {
    if n > 0 {
      ProductOfSuccessor(n - 1, x);
    }
  }

  lemma StepPotential(g: Graph, failed: uint64, d: nat, s: State, e: Event, s': State)
    requires DegreeAtMost(g, failed, d) && Step(g, failed, s, e, s')
    ensures s'.sends + Potential(d, s'.inFlight) <= s.sends + Potential(d, s.inFlight)
  {
    if e.Notify? {
      NotifyPotential(g, failed, d, s, e.m);
    } else {
      PotentialRemove(d, s.inFlight, e.m);
    }
  }

  lemma InitialPotential(g: Graph, failed: uint64, detector: uint64, ttl: nat, d: nat)
    requires DegreeAtMost(g, failed, d)
    ensures var s := Initial(g, failed, detector, ttl); s.sends + Potential(d, s.inFlight) <= Future(d, ttl + 1)
  {
    var others := Neighbours(g, failed, detector);
    ForwardPotential(g, failed, d, multiset{}, detector, ttl);
    ToAllFacts(d, multiset{}, others, ttl);
    assert multiset{} + ToAll(others, ttl) == ToAll(others, ttl);
  }

  lemma {:induction false} PotentialBounded(g: Graph, failed: uint64, detector: uint64, ttl: nat, d: nat,
                                            ss: seq<State>, es: seq<Event>, i: nat)
    requires Run(g, failed, detector, ttl, ss, es) && DegreeAtMost(g, failed, d) && i < |ss|
    ensures ss[i].sends + Potential(d, ss[i].inFlight) <= Future(d, ttl + 1)
  {
    if i == 0 {
      InitialPotential(g, failed, detector, ttl, d);
    } else {
      PotentialBounded(g, failed, detector, ttl, d, ss, es, i - 1);
      assert StepAt(g, failed, ss, es, i - 1);
      StepPotential(g, failed, d, ss[i - 1], es[i - 1], ss[i]);
    }
  }

  /** Without any record of what was seen, at most d + d^2 + ... + d^(ttl + 1) messages are sent. */
  lemma SendsBounded(g: Graph, failed: uint64, detector: uint64, ttl: nat, d: nat, ss: seq<State>, es: seq<Event>,
                     i: nat)
    requires Run(g, failed, detector, ttl, ss, es) && DegreeAtMost(g, failed, d) && i < |ss|
    ensures ss[i].sends <= PowerSum(d, ttl + 1)
  {
    PotentialBounded(g, failed, detector, ttl, d, ss, es, i);
    FutureIsPowerSum(d, ttl + 1);
  }

  lemma PowerSumOfFour(d: nat)
    ensures PowerSum(d, 4) == d + Power(d, 2) + Power(d, 3) + Power(d, 4)
  {
    var p1, p2, p3, p4 := Power(d, 1), Power(d, 2), Power(d, 3), Power(d, 4);
    assert p1 == d by {
      assert Power(d, 0) == 1 && p1 == d * Power(d, 0);
    }
    assert PowerSum(d, 1) == PowerSum(d, 0) + p1;
    assert PowerSum(d, 2) == PowerSum(d, 1) + p2;
    assert PowerSum(d, 3) == PowerSum(d, 2) + p3;
    assert PowerSum(d, 4) == PowerSum(d, 3) + p4;
  }

  /** With the program's TTL. */
  lemma SendsBoundedForTTL(g: Graph, failed: uint64, detector: uint64, d: nat, ss: seq<State>, es: seq<Event>)
    requires Run(g, failed, detector, FAILURE_NOTIFICATION_TTL, ss, es) && DegreeAtMost(g, failed, d)
    ensures ss[|es|].sends <= d + Power(d, 2) + Power(d, 3) + Power(d, 4)
  {
    SendsBounded(g, failed, detector, FAILURE_NOTIFICATION_TTL, d, ss, es, |es|);
    PowerSumOfFour(d);
  }

  /** Every message was sent, and every event consumes one. */
  lemma {:induction false} MessagesConserved(g: Graph, failed: uint64, detector: uint64, ttl: nat, ss: seq<State>,
                                             es: seq<Event>, i: nat)
    requires Run(g, failed, detector, ttl, ss, es) && i < |ss|
    ensures i + |ss[i].inFlight| == ss[i].sends
  {
    if i == 0 {
      ToAllFacts(0, multiset{}, Neighbours(g, failed, detector), ttl);
    } else {
      MessagesConserved(g, failed, detector, ttl, ss, es, i - 1);
      assert StepAt(g, failed, ss, es, i - 1);
    }
  }

  /** Termination: no more events than messages that can be sent. */
  lemma FloodTerminates(g: Graph, failed: uint64, detector: uint64, ttl: nat, d: nat, ss: seq<State>, es: seq<Event>)
    requires Run(g, failed, detector, ttl, ss, es) && DegreeAtMost(g, failed, d)
    ensures |es| <= PowerSum(d, ttl + 1)
  {
    MessagesConserved(g, failed, detector, ttl, ss, es, |es|);
    SendsBounded(g, failed, detector, ttl, d, ss, es, |es|);
  }

  /** A message with some ttl left is as many hops away from the detector as the ttl has dropped. */
  ghost predicate Travelled(g: Graph, failed: uint64, detector: uint64, ttl: nat, m: Message) {
    m.ttl <= ttl && AtHops(g, failed, detector, m.to, ttl - m.ttl + 1)
  }

  ghost predicate AllTravelled(g: Graph, failed: uint64, detector: uint64, ttl: nat, s: State) {
    && (forall m :: m in s.inFlight ==> Travelled(g, failed, detector, ttl, m))
    && (forall n :: n in s.removed ==> WithinHops(g, failed, detector, n, ttl + 1))
  }

  lemma StepKeepsTravelled(g: Graph, failed: uint64, detector: uint64, ttl: nat, s: State, e: Event, s': State)
    requires AllTravelled(g, failed, detector, ttl, s) && Step(g, failed, s, e, s')
    ensures AllTravelled(g, failed, detector, ttl, s')
  {
    assert Travelled(g, failed, detector, ttl, e.m);
    forall m | m in s'.inFlight ensures Travelled(g, failed, detector, ttl, m) {
      if m !in s.inFlight {
        assert m in Forwarded(g, failed, e.m);
        OneMoreHop(g, failed, detector, e.m.to, m.to, ttl - e.m.ttl + 1);
      }
    }
    if e.Notify? {
      assert ttl - e.m.ttl + 1 <= ttl + 1 && AtHops(g, failed, detector, e.m.to, ttl - e.m.ttl + 1);
    }
  }

  /** In every run, only clients within ttl + 1 hops of the detector remove the failed one. */
  lemma {:induction false} RunTravelled(g: Graph, failed: uint64, detector: uint64, ttl: nat, ss: seq<State>,
                                        es: seq<Event>, i: nat)
    requires Run(g, failed, detector, ttl, ss, es) && i < |ss|
    ensures AllTravelled(g, failed, detector, ttl, ss[i])
  {
    if i == 0 {
      StartAtZeroHops(g, failed, detector);
      forall m | m in ss[0].inFlight ensures Travelled(g, failed, detector, ttl, m) {
        OneMoreHop(g, failed, detector, detector, m.to, 0);
      }
    } else {
      RunTravelled(g, failed, detector, ttl, ss, es, i - 1);
      assert StepAt(g, failed, ss, es, i - 1);
      StepKeepsTravelled(g, failed, detector, ttl, ss[i - 1], es[i - 1], ss[i]);
    }
  }

  ghost predicate NothingLost(es: seq<Event>) { forall i :: 0 <= i < |es| ==> es[i].Notify? }

  /** The messages delivered by the first i events. */
  ghost function DeliveredBy(es: seq<Event>, i: nat): set<Message>
    requires i <= |es|
  {
    if i == 0 then {} else DeliveredBy(es, i - 1) + {es[i - 1].m}
  }

  /** A message has been delivered or is in flight. */
  ghost predicate Sent(s: State, delivered: set<Message>, m: Message) { m in delivered || m in s.inFlight }

  /** The news has been sent on by everybody who got it with some ttl left, and removed by everybody who got it. */
  ghost predicate Covered(g: Graph, failed: uint64, detector: uint64, ttl: nat, s: State, delivered: set<Message>) {
    && (forall n :: n in Neighbours(g, failed, detector) ==> Sent(s, delivered, Message(n, ttl)))
    && (forall m, n :: m in delivered && m.ttl > 0 && n in Neighbours(g, failed, m.to) ==>
        Sent(s, delivered, Message(n, m.ttl - 1)))
    && (forall m :: m in delivered ==> m.to in s.removed)
    && detector in s.removed
  }

  lemma NotifyKeepsSent(g: Graph, failed: uint64, s: State, delivered: set<Message>, m: Message, x: Message)
    requires Sent(s, delivered, x)
    ensures Sent(Notified(g, failed, s, m), delivered + {m}, x)
  {
  }

  lemma NotifyKeepsCovered(g: Graph, failed: uint64, detector: uint64, ttl: nat, s: State, delivered: set<Message>,
                           e: Event)
    requires Covered(g, failed, detector, ttl, s, delivered) && e.m in s.inFlight
    ensures Covered(g, failed, detector, ttl, Notified(g, failed, s, e.m), delivered + {e.m})
  {
    var s', delivered' := Notified(g, failed, s, e.m), delivered + {e.m};
    forall n | n in Neighbours(g, failed, detector) ensures Sent(s', delivered', Message(n, ttl)) {
      NotifyKeepsSent(g, failed, s, delivered, e.m, Message(n, ttl));
    }
    forall m, n | m in delivered' && m.ttl > 0 && n in Neighbours(g, failed, m.to)
      ensures Sent(s', delivered', Message(n, m.ttl - 1))
    {
      if m in delivered {
        NotifyKeepsSent(g, failed, s, delivered, e.m, Message(n, m.ttl - 1));
      } else {
        assert Message(n, m.ttl - 1) in Forwarded(g, failed, m);
      }
    }
  }

  lemma CoveredNext(g: Graph, failed: uint64, detector: uint64, ttl: nat, ss: seq<State>, es: seq<Event>, i: nat)
    requires Run(g, failed, detector, ttl, ss, es) && i < |es| && es[i].Notify?
    requires Covered(g, failed, detector, ttl, ss[i], DeliveredBy(es, i))
    ensures Covered(g, failed, detector, ttl, ss[i + 1], DeliveredBy(es, i + 1))
  {
    assert StepAt(g, failed, ss, es, i);
    NotifyKeepsCovered(g, failed, detector, ttl, ss[i], DeliveredBy(es, i), es[i]);
  }

  lemma {:induction false} RunCovered(g: Graph, failed: uint64, detector: uint64, ttl: nat, ss: seq<State>,
                                      es: seq<Event>, i: nat)
    requires Run(g, failed, detector, ttl, ss, es) && NothingLost(es) && i < |ss|
    ensures Covered(g, failed, detector, ttl, ss[i], DeliveredBy(es, i))
  {
    if i == 0 {
      InitialCovered(g, failed, detector, ttl);
    } else {
      RunCovered(g, failed, detector, ttl, ss, es, i - 1);
      CoveredNext(g, failed, detector, ttl, ss, es, i - 1);
    }
  }

  lemma InitialCovered(g: Graph, failed: uint64, detector: uint64, ttl: nat)
    ensures Covered(g, failed, detector, ttl, Initial(g, failed, detector, ttl), {})
  {
  }

  /** At quiescence the k-th client of a path has got the news with a ttl of ttl + 1 - k. */
  lemma {:induction false} PathDelivered(g: Graph, failed: uint64, detector: uint64, ttl: nat, s: State,
                                         delivered: set<Message>, p: seq<uint64>, k: nat)
    requires Covered(g, failed, detector, ttl, s, delivered) && s.inFlight == multiset{}
    requires IsPath(g, failed, p) && p[0] == detector && 0 < k < |p| && k <= ttl + 1
    ensures Message(p[k], ttl + 1 - k) in delivered
  {
    assert IsHop(g, failed, p, k - 1);
    assert p[k] in Neighbours(g, failed, p[k - 1]);
    if k == 1 {
      assert Sent(s, delivered, Message(p[1], ttl));
    } else {
      PathDelivered(g, failed, detector, ttl, s, delivered, p, k - 1);
      var m := Message(p[k - 1], ttl + 2 - k);
      assert Sent(s, delivered, Message(p[k], m.ttl - 1));
    }
  }

  /** If nothing is lost, then once no message is left exactly the clients within ttl + 1 hops of the detector, in the
      graph without the failed client, have removed it. */
  lemma RemovedIffWithinHops(g: Graph, failed: uint64, detector: uint64, ttl: nat, ss: seq<State>, es: seq<Event>,
                             n: uint64)
    requires Run(g, failed, detector, ttl, ss, es) && NothingLost(es) && ss[|es|].inFlight == multiset{}
    ensures n in ss[|es|].removed <==> WithinHops(g, failed, detector, n, ttl + 1)
  {
    RunTravelled(g, failed, detector, ttl, ss, es, |es|);
    RunCovered(g, failed, detector, ttl, ss, es, |es|);
    if WithinHops(g, failed, detector, n, ttl + 1) {
      var k: nat :| k <= ttl + 1 && AtHops(g, failed, detector, n, k);
      var p :| PathTo(g, failed, detector, p, n) && |p| == k + 1;
      if k > 0 {
        PathDelivered(g, failed, detector, ttl, ss[|es|], DeliveredBy(es, |es|), p, k);
      }
    }
  }

  /** With the program's TTL: exactly the clients within four hops. */
  lemma RemovedIffWithinFourHops(g: Graph, failed: uint64, detector: uint64, ss: seq<State>, es: seq<Event>, n: uint64)
    requires Run(g, failed, detector, FAILURE_NOTIFICATION_TTL, ss, es)
    requires NothingLost(es) && ss[|es|].inFlight == multiset{}
    ensures n in ss[|es|].removed <==> WithinHops(g, failed, detector, n, 4)
  {
    RemovedIffWithinHops(g, failed, detector, FAILURE_NOTIFICATION_TTL, ss, es, n);
  }

  lemma StepNeverTells(g: Graph, failed: uint64, s: State, e: Event, s': State)
    requires Step(g, failed, s, e, s') && forall m :: m in s.inFlight ==> m.to != failed
    ensures forall m :: m in s'.inFlight ==> m.to != failed
  {
  }

  /** The failed client itself is never told. */
  lemma {:induction false} FailedIsNeverTold(g: Graph, failed: uint64, detector: uint64, ttl: nat, ss: seq<State>,
                                             es: seq<Event>, i: nat)
    requires Run(g, failed, detector, ttl, ss, es) && i < |ss|
    ensures forall m :: m in ss[i].inFlight ==> m.to != failed
  {
    if i > 0 {
      FailedIsNeverTold(g, failed, detector, ttl, ss, es, i - 1);
      assert StepAt(g, failed, ss, es, i - 1);
      StepNeverTells(g, failed, ss[i - 1], es[i - 1], ss[i]);
    }
  }
}
