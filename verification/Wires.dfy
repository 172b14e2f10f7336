/** What a whole scan puts on its wires: every (IP, port) that is not skipped, once. */
module Wires {
  import opened Words
  import opened Wrappers
  import opened PairOrder
  import opened TxDispatch
  import Blackrock

  type Target = (u32, nat)

  /** The destinations on a wire. */
  function Destinations(wire: seq<Packet>): (targets: seq<Target>)
    ensures |targets| == |wire|
    ensures forall k :: 0 <= k < |wire| ==> targets[k] == (wire[k].ip, wire[k].port)
  {
    seq(|wire|, k requires 0 <= k < |wire| => (wire[k].ip, wire[k].port))
  }

  /** The destinations on all wires. */
  function AllDestinations(ends: seq<ThreadEnd>): seq<Target> {
    if ends == [] then []
    else
      var last := ends[|ends| - 1];
      AllDestinations(ends[..|ends| - 1]) + (if last.Ended? then Destinations(last.report.wire) else [])
  }

  /** The index at which the pair of the i-th IP and the p-th port comes up. */
  ghost function Home(job: Job, i: nat, p: nat): nat { job.permutation.UnshuffleMap(i * |job.ports| + p) }

  /** Whether an index is to be sent: it is not blocked, and the thread of its residue has an engine. */
  predicate ToSend(job: Job, init: Init, index: nat)
    requires job.stride > 0
  {
    !job.blocked(index) && init(index % job.stride).Some?
  }

  /** The target of the i-th IP and the p-th port, if it is to be sent. */
  ghost function CellTarget(job: Job, init: Init, i: nat, p: nat): multiset<Target>
    requires job.stride > 0 && i < |job.ips| && p < |job.ports|
  {
    if ToSend(job, init, Home(job, i, p)) then multiset{(job.ips[i], job.ports[p])} else multiset{}
  }

  /** The targets of the first n ports of the i-th IP. */
  ghost function RowTargets(job: Job, init: Init, i: nat, n: nat): multiset<Target>
    requires job.stride > 0 && i < |job.ips| && n <= |job.ports|
  {
    if n == 0 then multiset{} else RowTargets(job, init, i, n - 1) + CellTarget(job, init, i, n - 1)
  }

  /** The targets of the first n IPs: each IP with each port. */
  ghost function Targets(job: Job, init: Init, n: nat): multiset<Target>
    requires job.stride > 0 && n <= |job.ips|
  {
    if n == 0 then multiset{} else Targets(job, init, n - 1) + RowTargets(job, init, n - 1, |job.ports|)
  }

  // ---- The indices that are sent ----

  /** The indices that a thread sends. */
  function Own(job: Job, init: Init, thread: nat): seq<nat>
    requires job.stride > 0
  {
    if init(thread).Some? then Strided(job.Total(), job.stride, job.blocked, false, thread) else []
  }

  /** The indices of the first n threads, thread by thread. */
  function SentIndices(job: Job, init: Init, n: nat): seq<nat>
    requires job.stride > 0
  {
    if n == 0 then [] else SentIndices(job, init, n - 1) + Own(job, init, n - 1)
  }

  predicate IsResidue(job: Job, index: nat, residue: nat) { job.stride > 0 && residue == index % job.stride }

  lemma {:induction false} SentCount(job: Job, init: Init, n: nat, index: nat, residue: nat)
    requires 0 < job.stride && n <= job.stride && IsResidue(job, index, residue)
    ensures multiset(SentIndices(job, init, n))[index]
            == if index < job.Total() && residue < n && ToSend(job, init, index) then 1 else 0
  {
    hide Own, SentIndices, Job.Total, ToSend, IsResidue;
    if n == 0 {
      NothingSentYet(job, init);
    } else {
      SentCount(job, init, n - 1, index, residue);
      OwnCount(job, init, n - 1, index, residue);
      SentStep(job, init, n);
      JoinedCount(SentIndices(job, init, n - 1), Own(job, init, n - 1), index);
    }
  }

  lemma NothingSentYet(job: Job, init: Init)
    requires job.stride > 0
    ensures SentIndices(job, init, 0) == []
  {
  }

  lemma SentStep(job: Job, init: Init, n: nat)
    requires job.stride > 0 && n > 0
    ensures SentIndices(job, init, n) == SentIndices(job, init, n - 1) + Own(job, init, n - 1)
  {
    hide Own;
  }

  lemma OwnCount(job: Job, init: Init, thread: nat, index: nat, residue: nat)
    requires thread < job.stride && IsResidue(job, index, residue)
    ensures multiset(Own(job, init, thread))[index]
            == if index < job.Total() && thread == residue && ToSend(job, init, index) then 1 else 0
  {
    hide Strided, Job.Total, OnStride;
    StridedCount(job.Total(), job.stride, job.blocked, false, thread, index);
    OwnerIsResidue(job.stride, thread, index);
  }

  lemma JoinedCount(a: seq<nat>, b: seq<nat>, x: nat)
    ensures multiset(a + b)[x] == multiset(a)[x] + multiset(b)[x]
  {
  }

  /** The homes of the flat indices below n that are to be sent, in the order of the flat indices. */
  ghost function Homes(job: Job, init: Init, n: nat): seq<nat>
    requires job.stride > 0
  {
    if n == 0 then []
    else
      var home := job.permutation.UnshuffleMap(n - 1);
      Homes(job, init, n - 1) + (if ToSend(job, init, home) then [home] else [])
  }

  lemma {:induction false} HomesCount(job: Job, init: Init, n: nat, index: nat)
    requires job.Valid() && n <= job.Total() && index < job.Total()
    ensures multiset(Homes(job, init, n))[index]
            == if job.permutation.ShuffleMap(index) < n && ToSend(job, init, index) then 1 else 0
  {
    hide ToSend, Job.Total, Blackrock.Permutation.Shuffled, Blackrock.Permutation.Unshuffled, Blackrock.Permutation.Valid;
    if n > 0 {
      HomesCount(job, init, n - 1, index);
      HomeOnly(job, n - 1, index);
    }
  }

  lemma HomeOnly(job: Job, flat: nat, index: nat)
    requires job.Valid() && flat < job.Total() && index < job.Total()
    ensures job.permutation.UnshuffleMap(flat) == index <==> job.permutation.ShuffleMap(index) == flat
    ensures job.permutation.UnshuffleMap(flat) < job.Total()
    ensures job.permutation.ShuffleMap(job.permutation.UnshuffleMap(flat)) == flat
  {
    hide Blackrock.Permutation.Shuffled, Blackrock.Permutation.Unshuffled, Blackrock.Permutation.Valid;
    job.permutation.MapsPermute();
    var f, g := job.permutation.ShuffleMap, job.permutation.UnshuffleMap;
    assert f(g(flat)) == flat && g(flat) < job.Total();
    assert g(f(index)) == index;
  }

  lemma {:induction false} HomesBelow(job: Job, init: Init, n: nat)
    requires job.Valid() && n <= job.Total()
    ensures forall k :: 0 <= k < |Homes(job, init, n)| ==> Homes(job, init, n)[k] < job.Total()
  {
    hide ToSend, Job.Total, Job.Valid, Blackrock.Permutation.ShuffleMap, Blackrock.Permutation.UnshuffleMap;
    JobBounds(job);
    if n > 0 {
      HomesBelow(job, init, n - 1);
      HomeOnly(job, n - 1, 0);
      var before, home := Homes(job, init, n - 1), job.permutation.UnshuffleMap(n - 1);
      assert Homes(job, init, n) == if ToSend(job, init, home) then before + [home] else before;
    }
  }

  /** The threads send the homes of the pairs, in another order. */
  lemma SameIndices(job: Job, init: Init)
    requires job.Valid()
    ensures multiset(SentIndices(job, init, job.stride)) == multiset(Homes(job, init, job.Total()))
  {
    hide SentIndices, Homes, ToSend, Job.Total, Blackrock.Permutation.Shuffled, Blackrock.Permutation.Unshuffled;
    forall index: nat
      ensures multiset(SentIndices(job, init, job.stride))[index] == multiset(Homes(job, init, job.Total()))[index]
    {
      SentCount(job, init, job.stride, index, index % job.stride);
      if index < job.Total() {
        HomesCount(job, init, job.Total(), index);
        job.permutation.MapsPermute();
        assert job.permutation.ShuffleMap(index) < job.Total();
      } else {
        HomesBelow(job, init, job.Total());
        assert index !in Homes(job, init, job.Total());
      }
    }
    SameMultiset(SentIndices(job, init, job.stride), Homes(job, init, job.Total()));
  }

  lemma SameMultiset(a: seq<nat>, b: seq<nat>)
    requires forall x: nat :: multiset(a)[x] == multiset(b)[x]
    ensures multiset(a) == multiset(b)
  {
  }

  // ---- The destinations of indices ----

  /** Where the packet of an index goes. */
  ghost function TargetOf(job: Job, index: nat): Target {
    var flat := job.permutation.ShuffleMap(index);
    if |job.ports| == 0 then (0, 0)
    else
      var pair := Unflatten(flat, |job.ports|);
      if pair.0 < |job.ips| && pair.1 < |job.ports| then (job.ips[pair.0], job.ports[pair.1]) else (0, 0)
  }

  ghost function TargetsOf(job: Job, indices: seq<nat>): (targets: seq<Target>)
    ensures |targets| == |indices|
    ensures forall k :: 0 <= k < |indices| ==> targets[k] == TargetOf(job, indices[k])
  {
    seq(|indices|, k requires 0 <= k < |indices| => TargetOf(job, indices[k]))
  }

  lemma TargetsOfJoined(job: Job, a: seq<nat>, b: seq<nat>)
    ensures TargetsOf(job, a + b) == TargetsOf(job, a) + TargetsOf(job, b)
  {
    hide TargetOf;
  }

  lemma {:induction false} TargetsOfPermuted(job: Job, a: seq<nat>, b: seq<nat>)
    requires multiset(a) == multiset(b)
    ensures multiset(TargetsOf(job, a)) == multiset(TargetsOf(job, b))
  {
    hide TargetOf, TargetsOf;
    if a == [] {
      assert multiset(b) == multiset{};
      assert b == [];
    } else {
      var last, init := a[|a| - 1], a[..|a| - 1];
      assert a == init + [last];
      assert multiset(a) == multiset(init) + multiset{last};
      assert last in multiset(b);
      var i :| 0 <= i < |b| && b[i] == last;
      TakenOut(job, b, i);
      TakenOut(job, a, |a| - 1);
      assert a[..|a| - 1] + a[|a| - 1 + 1..] == init;
      Cancel(multiset(init), multiset(b[..i] + b[i + 1..]), multiset{last});
      TargetsOfPermuted(job, init, b[..i] + b[i + 1..]);
    }
  }

  lemma Cancel(a: multiset<nat>, b: multiset<nat>, c: multiset<nat>)
    requires a + c == b + c
    ensures a == b
  {
    assert a == (a + c) - c && b == (b + c) - c;
  }

  lemma TakenOut(job: Job, s: seq<nat>, i: nat)
    requires i < |s|
    ensures multiset(s) == multiset(s[..i] + s[i + 1..]) + multiset{s[i]}
    ensures multiset(TargetsOf(job, s)) == multiset(TargetsOf(job, s[..i] + s[i + 1..])) + multiset(TargetsOf(job, [s[i]]))
  {
    hide TargetOf, TargetsOf;
    var before, x, after := s[..i], [s[i]], s[i + 1..];
    assert s == before + (x + after);
    TargetsOfJoined(job, before, x + after);
    TargetsOfJoined(job, x, after);
    TargetsOfJoined(job, before, after);
  }

  /** A stamped packet goes to the pair behind its index. */
  lemma PacketTarget(job: Job, index: nat, sourcePort: nat)
    requires job.Valid() && index < job.Total()
    ensures var packet := job.PacketAt(index, sourcePort);
            (packet.ip, packet.port) == TargetOf(job, index) && packet.sourcePort == sourcePort
  {
    hide Blackrock.Permutation.Shuffled, Blackrock.Permutation.Unshuffled, Blackrock.Permutation.Valid;
    job.PairBounds(index);
  }

  lemma WireTargets(job: Job, sourcePort: nat, thread: nat)
    requires job.Valid()
    ensures var stamped := Strided(job.Total(), job.stride, job.blocked, false, thread);
            && Destinations(Packets(job, sourcePort, stamped)) == TargetsOf(job, stamped)
            && forall k :: 0 <= k < |stamped| ==> Packets(job, sourcePort, stamped)[k].sourcePort == sourcePort
  {
    hide Job.PacketAt, TargetOf, Strided, Job.Valid, Job.Total;
    var total := job.Total();
    JobBounds(job);
    StridedBelow(total, job.stride, job.blocked, false, thread);
    var stamped := Strided(total, job.stride, job.blocked, false, thread);
    forall k | 0 <= k < |stamped|
      ensures Destinations(Packets(job, sourcePort, stamped))[k] == TargetOf(job, stamped[k])
      ensures Packets(job, sourcePort, stamped)[k].sourcePort == sourcePort
    {
      PacketTarget(job, stamped[k], sourcePort);
    }
  }

  lemma {:induction false} StridedBelow(total: nat, stride: nat, blocked: nat -> bool, answer: bool, from: nat)
    requires stride > 0
    ensures forall k :: 0 <= k < |Strided(total, stride, blocked, answer, from)| ==> Strided(total, stride, blocked, answer, from)[k] < total
    decreases total - from
  {
    if from < total {
      StridedBelow(total, stride, blocked, answer, from + stride);
    }
  }

  lemma {:induction false} AllWiresTargets(job: Job, base: nat, init: Init, ends: seq<ThreadEnd>)
    requires job.Valid() && AllAccept(init, |ends|)
    requires forall t: nat :: t < |ends| ==> Delivered(job, base, init(t), t, ends[t])
    ensures AllDestinations(ends) == TargetsOf(job, SentIndices(job, init, |ends|))
  {
    hide Strided, Accepts, Overruns, Job.Total, Job.Valid, Packets, TargetsOf, Destinations;
    if ends == [] {
      NoTargets(job);
    } else {
      var last := |ends| - 1;
      JobBounds(job);
      AllWiresTargets(job, base, init, ends[..last]);
      assert Delivered(job, base, init(last), last, ends[last]);
      WireTargets(job, ThreadPort(base, last), last);
      var before := SentIndices(job, init, last);
      TargetsOfJoined(job, before, Own(job, init, last));
      NoTargets(job);
    }
  }

  lemma NoTargets(job: Job)
    ensures TargetsOf(job, []) == []
  {
  }

  // ---- The pairs, row by row ----

  /** The destinations of the homes are the pairs they are the homes of. */
  lemma {:induction false} HomesTargets(job: Job, init: Init, i: nat, p: nat)
    requires job.Valid() && i < |job.ips| && p <= |job.ports|
    ensures i * |job.ports| + p <= job.Total()
    ensures multiset(TargetsOf(job, Homes(job, init, i * |job.ports| + p)))
            == Targets(job, init, i) + RowTargets(job, init, i, p)
    decreases i, p
  {
    hide Targets, RowTargets, CellTarget, Homes, TargetsOf, TargetOf, ToSend, Home, Job.Valid, Job.Total;
    RowBound(job, i, p);
    JobBounds(job);
    if p > 0 {
      HomesTargets(job, init, i, p - 1);
      NextHome(job, init, i, p - 1, i * |job.ports| + (p - 1));
    } else if i > 0 {
      HomesTargets(job, init, i - 1, |job.ports|);
      assert (i - 1) * |job.ports| + |job.ports| == i * |job.ports|;
      NextRow(job, init, i);
    } else {
      NoTargets(job);
      NoHomes(job, init);
    }
  }

  lemma NextRow(job: Job, init: Init, i: nat)
    requires job.stride > 0 && 0 < i < |job.ips|
    ensures Targets(job, init, i) == Targets(job, init, i - 1) + RowTargets(job, init, i - 1, |job.ports|)
    ensures RowTargets(job, init, i, 0) == multiset{}
  {
    hide ToSend;
  }

  /** One more port of a row: its home, if it is to be sent, and its target. */
  lemma NextHome(job: Job, init: Init, i: nat, p: nat, flat: nat)
    requires job.Valid() && i < |job.ips| && p < |job.ports| && flat == i * |job.ports| + p
    ensures job.stride > 0
    ensures RowTargets(job, init, i, p + 1) == RowTargets(job, init, i, p) + CellTarget(job, init, i, p)
    ensures multiset(TargetsOf(job, Homes(job, init, flat + 1)))
            == multiset(TargetsOf(job, Homes(job, init, flat))) + CellTarget(job, init, i, p)
  {
    hide TargetsOf, TargetOf, ToSend, Job.Valid, Homes, RowTargets, CellTarget, Blackrock.Permutation.UnshuffleMap;
    JobBounds(job);
    HomeTarget(job, i, p);
    CellIs(job, init, i, p, flat);
    HomesStep(job, init, flat);
  }

  lemma CellIs(job: Job, init: Init, i: nat, p: nat, flat: nat)
    requires job.stride > 0 && i < |job.ips| && p < |job.ports| && flat == i * |job.ports| + p
    ensures RowTargets(job, init, i, p + 1) == RowTargets(job, init, i, p) + CellTarget(job, init, i, p)
    ensures CellTarget(job, init, i, p)
            == if ToSend(job, init, job.permutation.UnshuffleMap(flat)) then multiset{(job.ips[i], job.ports[p])} else multiset{}
  {
    hide ToSend, Blackrock.Permutation.UnshuffleMap;
  }

  lemma HomesStep(job: Job, init: Init, n: nat)
    requires job.stride > 0
    ensures var home := job.permutation.UnshuffleMap(n);
            multiset(TargetsOf(job, Homes(job, init, n + 1)))
            == multiset(TargetsOf(job, Homes(job, init, n)))
               + (if ToSend(job, init, home) then multiset{TargetOf(job, home)} else multiset{})
  {
    hide TargetsOf, TargetOf, ToSend;
    var home := job.permutation.UnshuffleMap(n);
    var own := if ToSend(job, init, home) then [home] else [];
    assert Homes(job, init, n + 1) == Homes(job, init, n) + own;
    TargetsOfJoined(job, Homes(job, init, n), own);
    NoTargets(job);
    SingleTarget(job, home);
  }

  lemma SingleTarget(job: Job, index: nat)
    ensures TargetsOf(job, [index]) == [TargetOf(job, index)]
  {
    hide TargetOf;
  }

  lemma RowBound(job: Job, i: nat, p: nat)
    requires i < |job.ips| && p <= |job.ports|
    ensures i * |job.ports| + p <= job.Total()
    ensures p > 0 ==> i * |job.ports| + (p - 1) < job.Total()
  {
    assert (i + 1) * |job.ports| <= |job.ips| * |job.ports|;
  }

  lemma HomeTarget(job: Job, i: nat, p: nat)
    requires job.Valid() && i < |job.ips| && p < |job.ports|
    ensures TargetOf(job, job.permutation.UnshuffleMap(i * |job.ports| + p)) == (job.ips[i], job.ports[p])
  {
    hide Blackrock.Permutation.Shuffled, Blackrock.Permutation.Unshuffled, Blackrock.Permutation.Valid;
    RowBound(job, i, p + 1);
    HomeOnly(job, i * |job.ports| + p, 0);
    UnflattenFlatten((i, p), |job.ports|);
  }

  /** Over a whole scan whose engines accept: the destinations on the wires are, each exactly once, the
      pairs of an IP and a port whose index is not blocked and whose thread has an engine. The packets of
      a thread leave from a port of its own. */
  lemma ScanSendsEachTargetOnce(job: Job, base: nat, init: Init, ends: seq<ThreadEnd>)
    requires job.Valid() && |ends| == job.stride && AllAccept(init, job.stride)
    requires forall t: nat :: t < |ends| ==> Delivered(job, base, init(t), t, ends[t])
    ensures multiset(AllDestinations(ends)) == Targets(job, init, |job.ips|)
    ensures forall t: nat :: t < |ends| && ends[t].Ended? ==> LeavesFrom(ends[t].report.wire, Min(base + t, 0xFFFF))
  {
    hide AllDestinations, SentIndices, Homes, TargetsOf, Strided, Packets, Accepts, Overruns, Job.Valid, Targets, RowTargets;
    JobBounds(job);
    AllWiresTargets(job, base, init, ends);
    SameIndices(job, init);
    TargetsOfPermuted(job, SentIndices(job, init, job.stride), Homes(job, init, job.Total()));
    WholeProduct(job, init);
    forall t: nat | t < |ends| && ends[t].Ended?
      ensures LeavesFrom(ends[t].report.wire, Min(base + t, 0xFFFF))
    {
      assert Delivered(job, base, init(t), t, ends[t]);
      assert Accepts(init(t).value);
      WireTargets(job, ThreadPort(base, t), t);
    }
  }

  predicate LeavesFrom(wire: seq<Packet>, port: nat) { forall k :: 0 <= k < |wire| ==> wire[k].sourcePort == port }

  lemma WholeProduct(job: Job, init: Init)
    requires job.Valid()
    ensures job.stride > 0
    ensures multiset(TargetsOf(job, Homes(job, init, job.Total()))) == Targets(job, init, |job.ips|)
  {
    hide TargetsOf, Homes, RowTargets, Job.Valid;
    JobBounds(job);
    if |job.ips| > 0 {
      HomesTargets(job, init, |job.ips| - 1, |job.ports|);
      assert (|job.ips| - 1) * |job.ports| + |job.ports| == |job.ips| * |job.ports|;
    } else {
      NoHomes(job, init);
      NoTargets(job);
    }
  }

  lemma NoHomes(job: Job, init: Init)
    requires job.stride > 0
    ensures Homes(job, init, 0) == [] && Targets(job, init, 0) == multiset{}
    ensures |job.ips| > 0 ==> RowTargets(job, init, 0, 0) == multiset{}
  {
  }

  /** The scan and what it sends. */
  method ScanAll(job: Job, base: nat, init: Init) returns (ends: seq<ThreadEnd>)
    requires job.Valid()
    ensures |ends| == job.stride
    ensures AllAccept(init, job.stride) ==>
              && multiset(AllDestinations(ends)) == Targets(job, init, |job.ips|)
              && forall t: nat :: t < |ends| && ends[t].Ended? ==> LeavesFrom(ends[t].report.wire, Min(base + t, 0xFFFF))
  {
    hide Delivered, Targets, AllDestinations, Job.Total;
    ends := RunScan(job, base, init);
    if AllAccept(init, job.stride) {
      ScanSendsEachTargetOnce(job, base, init, ends);
    }
  }

  // ---- Whatever the engines answer ----

  /** Each packet is there at most as often. */
  predicate Within(a: seq<Packet>, b: seq<Packet>) { multiset(a) <= multiset(b) }

  lemma OnWireWithin(outcome: TxOutcome, packets: seq<Packet>)
    ensures Within(OnWire(outcome, packets), packets)
  {
    if outcome.Sent? {
      var n := Min(outcome.count, |packets|);
      assert packets == packets[..n] + packets[n..];
    }
  }

  lemma JoinedWithin(a: seq<Packet>, b: seq<Packet>, c: seq<Packet>, d: seq<Packet>)
    requires Within(a, c) && Within(b, d)
    ensures Within(a + b, c + d)
  {
  }

  lemma EmptyWithin(a: seq<Packet>)
    ensures Within([], a)
  {
  }

  lemma {:induction false} FullBatchesWithin(job: Job, sourcePort: nat, stamped: seq<nat>, txBatch: Engine, calls: nat)
    requires calls * TX_BATCH <= |stamped|
    ensures Within(FullBatches(job, sourcePort, stamped, txBatch, calls), Packets(job, sourcePort, stamped[..calls * TX_BATCH]))
  {
    hide Packets, FullBatches, OnWire, Within;
    if calls == 0 {
      NoFullBatches(job, sourcePort, stamped, txBatch);
      assert stamped[..0] == [];
      NoPackets(job, sourcePort);
      EmptyWithin([]);
    } else {
      var x, y := (calls - 1) * TX_BATCH, calls * TX_BATCH;
      FullBatchesWithin(job, sourcePort, stamped, txBatch, calls - 1);
      FullBatchesStep(job, sourcePort, stamped, txBatch, calls - 1);
      var own := Packets(job, sourcePort, stamped[x..y]);
      OnWireWithin(txBatch(calls - 1, TX_BATCH), own);
      assert stamped[..y] == stamped[..x] + stamped[x..y];
      PacketsJoin(job, sourcePort, stamped[..x], stamped[x..y]);
      JoinedWithin(FullBatches(job, sourcePort, stamped, txBatch, calls - 1), OnWire(txBatch(calls - 1, TX_BATCH), own),
                   Packets(job, sourcePort, stamped[..x]), own);
    }
  }

  lemma NoPackets(job: Job, sourcePort: nat)
    ensures Packets(job, sourcePort, []) == []
  {
  }

  /** No engine makes a thread send a probe twice: what is on its wire are stamped packets, each at most as often as
      it was stamped. */
  lemma WireWithinStamped(job: Job, sourcePort: nat, stamped: seq<nat>, txBatch: Engine)
    ensures multiset(WholeWire(job, sourcePort, stamped, txBatch)) <= multiset(Packets(job, sourcePort, stamped))
  {
    hide Packets, FullBatches, OnWire;
    var calls, held := |stamped| / TX_BATCH, Held(txBatch, |stamped|);
    var cut := |stamped| - held;
    var last := Packets(job, sourcePort, stamped[cut..]);
    OnWireWithin(LastOutcome(txBatch, calls, held), last);
    assert stamped == stamped[..cut] + stamped[cut..];
    PacketsJoin(job, sourcePort, stamped[..cut], stamped[cut..]);
    if cut == calls * TX_BATCH {
      FullBatchesWithin(job, sourcePort, stamped, txBatch, calls);
    } else {
      RefusedLast(job, sourcePort, stamped, txBatch);
      FullBatchesWithin(job, sourcePort, stamped, txBatch, calls - 1);
    }
    JoinedWithin(FullBatches(job, sourcePort, stamped, txBatch, calls), OnWire(LastOutcome(txBatch, calls, held), last),
                 Packets(job, sourcePort, stamped[..cut]), last);
  }

  /** A refused last batch put nothing on the wire. */
  lemma RefusedLast(job: Job, sourcePort: nat, stamped: seq<nat>, txBatch: Engine)
    requires var calls := |stamped| / TX_BATCH; |stamped| - Held(txBatch, |stamped|) != calls * TX_BATCH
    ensures var calls := |stamped| / TX_BATCH;
            && calls > 0
            && |stamped| - Held(txBatch, |stamped|) == (calls - 1) * TX_BATCH
            && FullBatches(job, sourcePort, stamped, txBatch, calls) == FullBatches(job, sourcePort, stamped, txBatch, calls - 1)
  {
    hide Packets, FullBatches;
    var calls := |stamped| / TX_BATCH;
    FullBatchesStep(job, sourcePort, stamped, txBatch, calls - 1);
  }

  /** The engine never says it sent more than it was given. */
  ghost predicate Honest(txBatch: Engine) {
    forall call: nat, length: nat :: txBatch(call, length).Sent? ==> txBatch(call, length).count <= length
  }

  lemma {:induction false} FullCountIsWire(job: Job, sourcePort: nat, stamped: seq<nat>, txBatch: Engine, calls: nat)
    requires Honest(txBatch) && calls * TX_BATCH <= |stamped|
    ensures |FullBatches(job, sourcePort, stamped, txBatch, calls)| == FullCount(txBatch, calls)
  {
    hide Packets, FullBatches, FullCount;
    if calls == 0 {
      NoFullBatches(job, sourcePort, stamped, txBatch);
      NoPackets(job, sourcePort);
      assert stamped[..0] == [];
    } else {
      FullCountIsWire(job, sourcePort, stamped, txBatch, calls - 1);
      FullBatchesStep(job, sourcePort, stamped, txBatch, calls - 1);
    }
  }

  /** Over an honest engine the count reported is the number of packets on the wire, however it answers. */
  lemma CountIsWire(job: Job, sourcePort: nat, stamped: seq<nat>, txBatch: Engine)
    requires Honest(txBatch)
    ensures |WholeWire(job, sourcePort, stamped, txBatch)| == WholeCount(txBatch, |stamped|)
  {
    hide Packets, FullBatches, FullCount, Held;
    var calls, held := |stamped| / TX_BATCH, Held(txBatch, |stamped|);
    FullCountIsWire(job, sourcePort, stamped, txBatch, calls);
    assert LastOutcome(txBatch, calls, held).Sent? ==> LastOutcome(txBatch, calls, held).count <= held;
  }

  /** A last batch that is refused and accepted at the retry is delivered whole. */
  lemma RetryDelivers(job: Job, sourcePort: nat, stamped: seq<nat>, txBatch: Engine)
    requires 0 < |stamped| < TX_BATCH
    requires txBatch(0, |stamped|).Failed? && txBatch(1, |stamped|) == Sent(|stamped|)
    ensures WholeWire(job, sourcePort, stamped, txBatch) == Packets(job, sourcePort, stamped)
    ensures WholeCount(txBatch, |stamped|) == |stamped|
  {
    hide Packets;
    assert stamped[0..] == stamped;
    var packets := Packets(job, sourcePort, stamped);
    assert packets[..|packets|] == packets && [] + packets == packets;
  }
}
