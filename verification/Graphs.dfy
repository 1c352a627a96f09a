/** The graph of the clients' peers, and the paths in it that avoid one client. */
module Graphs {
  import opened Base

  /** The peers of each client. */
  type Graph = map<uint64, set<uint64>>

  /** The peers that a client sends to when it leaves one out. */
  function Neighbours(g: Graph, avoided: uint64, n: uint64): set<uint64> {
    if n in g then g[n] - {avoided} else {}
  }

  predicate IsHop(g: Graph, avoided: uint64, p: seq<uint64>, i: nat)
    requires i + 1 < |p|
  {
    p[i] in g && p[i + 1] in g[p[i]] && p[i + 1] != avoided
  }

  /** A path that does not come to the avoided client, though it may start there. */
  ghost predicate IsPath(g: Graph, avoided: uint64, p: seq<uint64>) {
    |p| > 0 && forall i :: 0 <= i < |p| - 1 ==> IsHop(g, avoided, p, i)
  }

  ghost predicate PathTo(g: Graph, avoided: uint64, start: uint64, p: seq<uint64>, n: uint64) {
    IsPath(g, avoided, p) && p[0] == start && p[|p| - 1] == n
  }

  ghost predicate Reachable(g: Graph, avoided: uint64, start: uint64, n: uint64) {
    exists p :: PathTo(g, avoided, start, p, n)
  }

  ghost predicate AtHops(g: Graph, avoided: uint64, start: uint64, n: uint64, hops: nat) {
    exists p :: PathTo(g, avoided, start, p, n) && |p| == hops + 1
  }

  ghost predicate WithinHops(g: Graph, avoided: uint64, start: uint64, n: uint64, hops: nat) {
    exists k: nat :: k <= hops && AtHops(g, avoided, start, n, k)
  }

  lemma StartAtZeroHops(g: Graph, avoided: uint64, start: uint64)
    ensures AtHops(g, avoided, start, start, 0)
  {
    assert PathTo(g, avoided, start, [start], start);
  }

  lemma PathExtended(g: Graph, avoided: uint64, start: uint64, p: seq<uint64>, n: uint64, m: uint64)
    requires PathTo(g, avoided, start, p, n) && m in Neighbours(g, avoided, n)
    ensures PathTo(g, avoided, start, p + [m], m)
  {
    var q := p + [m];
    forall i | 0 <= i < |q| - 1 ensures IsHop(g, avoided, q, i) {
      assert i < |p| - 1 ==> IsHop(g, avoided, p, i);
    }
  }

  lemma OneMoreHop(g: Graph, avoided: uint64, start: uint64, n: uint64, m: uint64, hops: nat)
    requires AtHops(g, avoided, start, n, hops) && m in Neighbours(g, avoided, n)
    ensures AtHops(g, avoided, start, m, hops + 1)
  {
    var p :| PathTo(g, avoided, start, p, n) && |p| == hops + 1;
    PathExtended(g, avoided, start, p, n, m);
  }

  lemma StartReachable(g: Graph, avoided: uint64, start: uint64)
    ensures Reachable(g, avoided, start, start)
  {
    assert PathTo(g, avoided, start, [start], start);
  }

  lemma NeighbourReachable(g: Graph, avoided: uint64, start: uint64, n: uint64, m: uint64)
    requires Reachable(g, avoided, start, n) && m in Neighbours(g, avoided, n)
    ensures Reachable(g, avoided, start, m)
  {
    var p :| PathTo(g, avoided, start, p, n);
    PathExtended(g, avoided, start, p, n, m);
  }
}
