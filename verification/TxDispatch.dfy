/** The strided transmit threads: together they stamp or skip every (IP, port) pair once. */
module TxDispatch {
  import opened Words
  import opened PairOrder
  import opened Wrappers
  import Blackrock

  const TX_BATCH: nat := 1024
  const MAX_TX_THREADS: nat := 8
  const U16_MAX: nat := 0xFFFF
  const EPHEMERAL_PORT_START: nat := 49152
  const EPHEMERAL_PORT_COUNT: nat := 16383

  datatype Packet = Packet(ip: u32, port: nat, sourcePort: nat)

  /** What the foreign engine answers to one batch. */
  datatype TxOutcome = Sent(count: nat) | Failed

  /** `blocked(index)` is what the backoff table answers when that index is dispatched, and
      `txBatch(call, length)` what the engine answers to the call-th batch; both are arbitrary. */
  datatype Job = Job(
    ips: seq<u32>, ports: seq<nat>, permutation: Blackrock.Permutation, stride: nat, blocked: nat -> bool)
  {
    function Total(): nat { |ips| * |ports| }

    ghost predicate Valid() {
      && 1 <= stride <= MAX_TX_THREADS
      && Total() + stride <= U64_MAX + 1
      && permutation.Valid()
      && permutation.range == Max(Total(), 1)
    }

    /** The packet for one index of the shuffled order. */
    ghost function PacketAt(index: nat, sourcePort: nat): Packet {
      if Valid() && index < Total() then
        PairBounds(index);
        var pair := PairAt(permutation.ShuffleMap, |ports|, index);
        Packet(ips[pair.0], ports[pair.1], sourcePort)
      else
        Packet(0, 0, sourcePort)
    }

    /** The packet goes to the pair behind the index: its IP by the quotient, its port by the remainder. */
    method Stamp(index: u64, sourcePort: nat) returns (packet: Packet)
      requires Valid() && index < Total()
      ensures packet == PacketAt(index, sourcePort)
      ensures var flat := permutation.ShuffleMap(index);
              && |ports| > 0 && flat / |ports| < |ips| && flat % |ports| < |ports|
              && packet == Packet(ips[flat / |ports|], ports[flat % |ports|], sourcePort)
    {
      hide Blackrock.Permutation.Shuffled, Blackrock.Permutation.Unshuffled;
      PairBounds(index);
      var permuted := permutation.Shuffle(index);
      var ipIdx := permuted / |ports|;
      var portIdx := permuted % |ports|;
      packet := Packet(ips[ipIdx], ports[portIdx], sourcePort);
    }

    lemma PairBounds(index: nat)
      requires Valid() && index < Total()
      ensures |ports| > 0
      ensures PairAt(permutation.ShuffleMap, |ports|, index).0 < |ips|
      ensures PairAt(permutation.ShuffleMap, |ports|, index).1 < |ports|
    {
      hide Unflatten, Blackrock.Permutation.Shuffled, Blackrock.Permutation.Unshuffled;
      permutation.MapsPermute();
      UnflattenBound(permutation.ShuffleMap(index), |ips|, |ports|);
      FlattenUnflatten(permutation.ShuffleMap(index), |ports|);
    }
  }

  // ---- Who handles which index ----

  /** The indices at `from`, `from + stride`, ... below `total` on which the predicate has the
      given answer: `false` selects those to stamp, `true` those to skip. */
  function Strided(total: nat, stride: nat, blocked: nat -> bool, answer: bool, from: nat): seq<nat>
    requires stride > 0
    decreases total - from
  {
    if from >= total then []
    else
      (if blocked(from) == answer then [from] else []) + Strided(total, stride, blocked, answer, from + stride)
  }

  predicate OnStride(stride: nat, from: nat, index: nat)
    requires stride > 0
    decreases index - from
  {
    from <= index && (from == index || OnStride(stride, from + stride, index))
  }

  /** The selection contains an index once if it lies on the stride and has the answer, and
      otherwise not at all. */
  lemma {:induction false} StridedCount(total: nat, stride: nat, blocked: nat -> bool, answer: bool, from: nat, index: nat)
    requires stride > 0
    ensures multiset(Strided(total, stride, blocked, answer, from))[index]
            == if index < total && OnStride(stride, from, index) && blocked(index) == answer then 1 else 0
    decreases total - from
  {
    hide Strided;
    if from < total {
      StridedCount(total, stride, blocked, answer, from + stride, index);
      StridedUnfold(total, stride, blocked, answer, from);
      OnStrideLater(stride, from, index);
    } else {
      StridedEnd(total, stride, blocked, from);
      OnStrideLater(stride, from, index);
    }
  }

  lemma StridedUnfold(total: nat, stride: nat, blocked: nat -> bool, answer: bool, from: nat)
    requires stride > 0 && from < total
    ensures var rest := Strided(total, stride, blocked, answer, from + stride);
            Strided(total, stride, blocked, answer, from) == (if blocked(from) == answer then [from] else []) + rest
  {
  }

  lemma OnStrideLater(stride: nat, from: nat, index: nat)
    requires stride > 0
    ensures OnStride(stride, from, index) ==> from <= index
    ensures OnStride(stride, from, index) <==> from == index || OnStride(stride, from + stride, index)
    ensures !OnStride(stride, from + stride, from)
  {
  }

  /** The stride that starts at a thread's number passes through its residue class. */
  lemma {:induction false} StrideResidue(stride: nat, from: nat, index: nat)
    requires 0 < stride && from <= index + stride
    ensures OnStride(stride, from, index) ==> from % stride == index % stride
    ensures from <= index && from % stride == index % stride ==> OnStride(stride, from, index)
    decreases index + stride - from
  {
    if from < index {
      SameResidue(from, stride);
      StrideResidue(stride, from + stride, index);
      if from + stride > index {
        DifferentResidues(from, index, stride);
      }
    }
  }

  lemma OwnerIsResidue(stride: nat, thread: nat, index: nat)
    requires thread < stride
    ensures OnStride(stride, thread, index) <==> thread == index % stride
  {
    assert thread % stride == thread;
    if thread <= index {
      StrideResidue(stride, thread, index);
    } else {
      assert index % stride == index;
    }
  }

  lemma SameResidue(x: nat, d: nat)
    requires d > 0
    ensures (x + d) % d == x % d
  {
    var q, r := x / d, x % d;
    var e: int := (x + d) / d - (q + 1);
    assert e * d == r - (x + d) % d;
    assert e >= 1 ==> e * d >= d;
    assert e <= -1 ==> e * d + d <= 0;
  }

  lemma DifferentResidues(x: nat, y: nat, d: nat)
    requires x < y < x + d
    ensures x % d != y % d
  {
    var e: int := y / d - x / d;
    assert y - x == e * d + (y % d - x % d);
    assert e >= 1 ==> e * d >= d;
    assert e <= -1 ==> e * d + d <= 0;
  }

  /** Every index is stamped or skipped, not both, by the one thread of its residue, once; no
      other thread touches it. */
  lemma IndexHandledOnce(total: nat, stride: nat, blocked: nat -> bool, thread: nat, index: nat)
    requires thread < stride && index < total
    ensures multiset(Strided(total, stride, blocked, false, thread))[index]
            + multiset(Strided(total, stride, blocked, true, thread))[index]
            == if thread == index % stride then 1 else 0
  {
    StridedCount(total, stride, blocked, false, thread, index);
    StridedCount(total, stride, blocked, true, thread, index);
    OwnerIsResidue(stride, thread, index);
  }

  /** Exactly-once dispatch: a pair belongs to one index, whose residue names the one thread that
      stamps or skips it. */
  lemma PairHandledOnce(job: Job, pair: Pair, thread: nat, index: nat)
    requires job.Valid() && pair.0 < |job.ips| && pair.1 < |job.ports|
    requires thread < job.stride && index < job.Total()
    ensures var home := job.permutation.UnshuffleMap(Flatten(pair, |job.ports|));
            && home < job.Total()
            && (PairAt(job.permutation.ShuffleMap, |job.ports|, index) == pair <==> index == home)
            && multiset(Strided(job.Total(), job.stride, job.blocked, false, thread))[home]
               + multiset(Strided(job.Total(), job.stride, job.blocked, true, thread))[home]
               == if thread == home % job.stride then 1 else 0
  {
    hide Unflatten, Flatten, Blackrock.Permutation.Shuffled, Blackrock.Permutation.Unshuffled;
    var flat := Flatten(pair, |job.ports|);
    job.permutation.MapsPermute();
    FlattenBound(pair, |job.ips|, |job.ports|);
    PairOnce(job.permutation.ShuffleMap, job.permutation.UnshuffleMap, job.Total(), |job.ports|, pair, index);
    IndexHandledOnce(job.Total(), job.stride, job.blocked, thread, job.permutation.UnshuffleMap(flat));
  }

  /** Indices handled by `n` neighbouring residues starting at `base`. */
  function Handled(total: nat, stride: nat, blocked: nat -> bool, base: nat, n: nat): nat
    requires stride > 0
  {
    if n == 0 then 0
    else
      Handled(total, stride, blocked, base, n - 1)
      + |Strided(total, stride, blocked, false, base + n - 1)|
      + |Strided(total, stride, blocked, true, base + n - 1)|
  }

  lemma {:induction false} HandledShift(total: nat, stride: nat, blocked: nat -> bool, base: nat, n: nat)
    requires stride > 0
    ensures Handled(total, stride, blocked, base, n)
            + |Strided(total, stride, blocked, false, base + n)|
            + |Strided(total, stride, blocked, true, base + n)|
            == Handled(total, stride, blocked, base + 1, n)
            + |Strided(total, stride, blocked, false, base)|
            + |Strided(total, stride, blocked, true, base)|
  {
    if n > 0 {
      HandledShift(total, stride, blocked, base, n - 1);
    }
  }

  /** Conservation: over all threads, stamped plus skipped is the number of probes. */
  lemma {:induction false} AllHandled(total: nat, stride: nat, blocked: nat -> bool, base: nat)
    requires stride > 0
    ensures Handled(total, stride, blocked, base, stride) == if base < total then total - base else 0
    decreases total - base
  {
    if base < total {
      AllHandled(total, stride, blocked, base + 1);
      HandledShift(total, stride, blocked, base, stride);
    } else {
      NoneHandled(total, stride, blocked, base, stride);
    }
  }

  lemma {:induction false} NoneHandled(total: nat, stride: nat, blocked: nat -> bool, base: nat, n: nat)
    requires stride > 0 && base >= total
    ensures Handled(total, stride, blocked, base, n) == 0
  {
    if n > 0 {
      NoneHandled(total, stride, blocked, base, n - 1);
    }
  }

  // ---- One thread ----

  /** The packets for a list of indices, in order. */
  ghost function Packets(job: Job, sourcePort: nat, indices: seq<nat>): (packets: seq<Packet>)
    ensures |packets| == |indices|
    ensures forall k :: 0 <= k < |indices| ==> packets[k] == job.PacketAt(indices[k], sourcePort)
  {
    seq(|indices|, k requires 0 <= k < |indices| => job.PacketAt(indices[k], sourcePort))
  }

  datatype Report = Report(wire: seq<Packet>, localSent: nat, skipped: nat, panicked: bool)

  type Engine = (nat, nat) -> TxOutcome

  /** Every batch is accepted whole. */
  ghost predicate Accepts(txBatch: Engine) {
    forall call: nat, length: nat :: txBatch(call, length) == Sent(length)
  }

  ghost predicate NoneRefused(txBatch: Engine, calls: nat) {
    forall call: nat :: call < calls ==> !txBatch(call, TX_BATCH).Failed?
  }

  /** A full batch, other than the thread's last probes, is refused. The refused batch is left in
      the buffer, and the next probe is stamped past its end. */
  ghost predicate Overruns(txBatch: Engine, stamped: nat) {
    exists call: nat :: (call + 1) * TX_BATCH < stamped && txBatch(call, TX_BATCH).Failed?
  }

  // ---- What reaches the wire ----

  /** The packets of a batch that an outcome puts on the wire: a first part, and what is not accepted
      is not sent again. */
  function OnWire(outcome: TxOutcome, packets: seq<Packet>): seq<Packet> {
    match outcome
    case Sent(count) => packets[..Min(count, |packets|)]
    case Failed => []
  }

  function CountOf(outcome: TxOutcome): nat {
    match outcome
    case Sent(count) => count
    case Failed => 0
  }

  /** The wire after some full batches. */
  ghost function FullBatches(job: Job, sourcePort: nat, stamped: seq<nat>, txBatch: Engine, calls: nat): seq<Packet>
    requires calls * TX_BATCH <= |stamped|
  {
    if calls == 0 then []
    else
      FullBatches(job, sourcePort, stamped, txBatch, calls - 1)
      + OnWire(txBatch(calls - 1, TX_BATCH),
               Packets(job, sourcePort, stamped[(calls - 1) * TX_BATCH..calls * TX_BATCH]))
  }

  function FullCount(txBatch: Engine, calls: nat): nat {
    if calls == 0 then 0 else FullCount(txBatch, calls - 1) + CountOf(txBatch(calls - 1, TX_BATCH))
  }

  /** The outcome of the last, partial batch: a refusal is retried once. */
  function LastOutcome(txBatch: Engine, calls: nat, length: nat): TxOutcome {
    if length == 0 then Sent(0)
    else if txBatch(calls, length).Failed? then txBatch(calls + 1, length)
    else txBatch(calls, length)
  }

  /** What is in the buffer when the last probe has been stamped: the last packets, or a full batch
      that was refused. */
  function Held(txBatch: Engine, stamped: nat): (held: nat)
    ensures held <= stamped
  {
    if stamped % TX_BATCH > 0 then stamped % TX_BATCH
    else if stamped > 0 && txBatch(stamped / TX_BATCH - 1, TX_BATCH).Failed? then TX_BATCH
    else 0
  }

  /** The wire of a thread that has come to its end. */
  ghost function WholeWire(job: Job, sourcePort: nat, stamped: seq<nat>, txBatch: Engine): seq<Packet> {
    var calls, held := |stamped| / TX_BATCH, Held(txBatch, |stamped|);
    FullBatches(job, sourcePort, stamped, txBatch, calls)
    + OnWire(LastOutcome(txBatch, calls, held), Packets(job, sourcePort, stamped[|stamped| - held..]))
  }

  function WholeCount(txBatch: Engine, stamped: nat): nat {
    var calls := stamped / TX_BATCH;
    FullCount(txBatch, calls) + CountOf(LastOutcome(txBatch, calls, Held(txBatch, stamped)))
  }

  /** The wire of a thread that has panicked: it ends before the first refused full batch. */
  ghost predicate WireAtPanic(job: Job, sourcePort: nat, stamped: seq<nat>, txBatch: Engine, wire: seq<Packet>, sent: nat) {
    exists refused: nat ::
      && (refused + 1) * TX_BATCH < |stamped|
      && NoneRefused(txBatch, refused) && txBatch(refused, TX_BATCH).Failed?
      && wire == FullBatches(job, sourcePort, stamped, txBatch, refused)
      && sent == FullCount(txBatch, refused)
  }

  lemma FullBatchesStep(job: Job, sourcePort: nat, stamped: seq<nat>, txBatch: Engine, calls: nat)
    requires (calls + 1) * TX_BATCH <= |stamped|
    ensures FullBatches(job, sourcePort, stamped, txBatch, calls + 1)
            == FullBatches(job, sourcePort, stamped, txBatch, calls)
               + OnWire(txBatch(calls, TX_BATCH), Packets(job, sourcePort, stamped[calls * TX_BATCH..(calls + 1) * TX_BATCH]))
    ensures FullCount(txBatch, calls + 1) == FullCount(txBatch, calls) + CountOf(txBatch(calls, TX_BATCH))
  {
  }

  /** What is stamped later does not change what was sent. */
  lemma {:induction false} FullBatchesGrow(job: Job, sourcePort: nat, stamped: seq<nat>, more: seq<nat>, txBatch: Engine, calls: nat)
    requires calls * TX_BATCH <= |stamped|
    ensures FullBatches(job, sourcePort, stamped + more, txBatch, calls) == FullBatches(job, sourcePort, stamped, txBatch, calls)
  {
    hide Packets, OnWire;
    if calls > 0 {
      FullBatchesGrow(job, sourcePort, stamped, more, txBatch, calls - 1);
      assert (stamped + more)[(calls - 1) * TX_BATCH..calls * TX_BATCH] == stamped[(calls - 1) * TX_BATCH..calls * TX_BATCH];
    }
  }

  lemma {:induction false} FullBatchesAccepted(job: Job, sourcePort: nat, stamped: seq<nat>, txBatch: Engine, calls: nat)
    requires Accepts(txBatch) && calls * TX_BATCH <= |stamped|
    ensures FullBatches(job, sourcePort, stamped, txBatch, calls) == Packets(job, sourcePort, stamped[..calls * TX_BATCH])
    ensures FullCount(txBatch, calls) == calls * TX_BATCH
  {
    hide Packets, FullBatches, FullCount;
    if calls == 0 {
      NoFullBatches(job, sourcePort, stamped, txBatch);
    } else {
      FullBatchesAccepted(job, sourcePort, stamped, txBatch, calls - 1);
      FullBatchesStep(job, sourcePort, stamped, txBatch, calls - 1);
      var x, y := (calls - 1) * TX_BATCH, calls * TX_BATCH;
      assert stamped[..y] == stamped[..x] + stamped[x..y];
      PacketsJoin(job, sourcePort, stamped[..x], stamped[x..y]);
    }
  }

  lemma NoFullBatches(job: Job, sourcePort: nat, stamped: seq<nat>, txBatch: Engine)
    ensures FullBatches(job, sourcePort, stamped, txBatch, 0) == Packets(job, sourcePort, stamped[..0])
    ensures FullCount(txBatch, 0) == 0
  {
  }

  /** When every batch is accepted whole, exactly the stamped packets are on the wire, in order. */
  lemma WholeWireAccepted(job: Job, sourcePort: nat, stamped: seq<nat>, txBatch: Engine)
    requires Accepts(txBatch)
    ensures WholeWire(job, sourcePort, stamped, txBatch) == Packets(job, sourcePort, stamped)
    ensures WholeCount(txBatch, |stamped|) == |stamped|
  {
    hide Packets, FullBatches, FullCount, Accepts;
    var calls, rest := |stamped| / TX_BATCH, |stamped| % TX_BATCH;
    FullBatchesAccepted(job, sourcePort, stamped, txBatch, calls);
    LastAccepted(txBatch, calls, |stamped|);
    assert |stamped| - rest == calls * TX_BATCH;
    assert stamped == stamped[..calls * TX_BATCH] + stamped[calls * TX_BATCH..];
    PacketsJoin(job, sourcePort, stamped[..calls * TX_BATCH], stamped[calls * TX_BATCH..]);
  }

  lemma LastAccepted(txBatch: Engine, calls: nat, stamped: nat)
    requires Accepts(txBatch)
    ensures Held(txBatch, stamped) == stamped % TX_BATCH
    ensures LastOutcome(txBatch, calls, Held(txBatch, stamped)) == Sent(stamped % TX_BATCH)
  {
  }

  lemma PacketsJoin(job: Job, sourcePort: nat, a: seq<nat>, b: seq<nat>)
    ensures Packets(job, sourcePort, a + b) == Packets(job, sourcePort, a) + Packets(job, sourcePort, b)
  {
    hide Job.PacketAt;
  }

  lemma QuotientIs(n: nat, q: nat, r: nat)
    requires n == q * TX_BATCH + r && r < TX_BATCH
    ensures n / TX_BATCH == q && n % TX_BATCH == r
  {
  }

  /** The state one transmit thread keeps across its loop. */
  class TxThread {
    const job: Job
    const sourcePort: nat
    const txBatch: Engine
    const batch: array<Packet>
    var batchLen: nat
    var calls: nat
    var wire: seq<Packet>
    var localSent: nat
    ghost var done: seq<nat>

    ghost predicate Valid()
      reads this, batch
    {
      && batch.Length == TX_BATCH
      && batchLen <= TX_BATCH
      && calls * TX_BATCH <= |done|
      && wire == FullBatches(job, sourcePort, done, txBatch, calls)
      && localSent == FullCount(txBatch, calls)
      && batchLen <= |done|
      && batch[..batchLen] == Packets(job, sourcePort, done[|done| - batchLen..])
      && (batchLen < TX_BATCH ==>
            && |done| == calls * TX_BATCH + batchLen
            && NoneRefused(txBatch, calls))
      && (batchLen == TX_BATCH ==>
            && |done| == calls * TX_BATCH
            && calls > 0
            && NoneRefused(txBatch, calls - 1)
            && txBatch(calls - 1, TX_BATCH).Failed?)
    }

    constructor (job: Job, sourcePort: nat, txBatch: Engine)
      ensures Valid() && fresh(batch) && done == []
      ensures this.job == job && this.sourcePort == sourcePort && this.txBatch == txBatch
    {
      this.job := job;
      this.sourcePort := sourcePort;
      this.txBatch := txBatch;
      this.batch := new Packet[TX_BATCH](_ => Packet(0, 0, sourcePort));
      this.batchLen := 0;
      this.calls := 0;
      this.wire := [];
      this.localSent := 0;
      this.done := [];
    }

    /** A thread that has dispatched all its probes has not overrun its buffer... */
    lemma NotOverrun()
      requires Valid()
      ensures !Overruns(txBatch, |done|)
    {
    }

    /** ... and one that holds a refused batch and has another probe to stamp will. */
    lemma StuckOverruns(stamped: seq<nat>)
      requires Valid() && batchLen == TX_BATCH && |done| < |stamped| && done <= stamped
      ensures Overruns(txBatch, |stamped|) && !Accepts(txBatch)
      ensures WireAtPanic(job, sourcePort, stamped, txBatch, wire, localSent)
    {
      hide Packets;
      var refused := calls - 1;
      assert stamped == done + stamped[|done|..];
      FullBatchesGrow(job, sourcePort, done, stamped[|done|..], txBatch, refused);
      assert wire == FullBatches(job, sourcePort, done, txBatch, refused) + [];
    }

    /** When stamping is over, the counters say what is held. */
    lemma HeldAtEnd()
      requires Valid()
      ensures batchLen <= batch.Length
      ensures calls == |done| / TX_BATCH && batchLen == Held(txBatch, |done|)
      ensures WholeWire(job, sourcePort, done, txBatch) == wire + OnWire(LastOutcome(txBatch, calls, batchLen), batch[..batchLen])
      ensures WholeCount(txBatch, |done|) == localSent + CountOf(LastOutcome(txBatch, calls, batchLen))
    {
      hide Packets, FullBatches, FullCount;
      if batchLen < TX_BATCH {
        QuotientIs(|done|, calls, batchLen);
        assert calls > 0 ==> !txBatch(calls - 1, TX_BATCH).Failed?;
      } else {
        QuotientIs(|done|, calls, 0);
      }
    }

    /** Stamps one packet and sends the batch when that fills it. Once a full batch has been
        refused it stays in the buffer, and the next stamp is past the end of the buffer. */
    method Queue(index: u64) returns (inBounds: bool)
      requires Valid() && job.Valid() && index < job.Total()
      modifies this, batch
      ensures inBounds <==> old(batchLen) < TX_BATCH
      ensures !inBounds ==> batchLen == TX_BATCH
      ensures Valid() && done == if inBounds then old(done) + [index] else old(done)
    {
      hide Job.Valid, Job.PacketAt, FullBatches, FullCount;
      if batchLen == TX_BATCH {
        return false;
      }
      var packet := job.Stamp(index, sourcePort);
      FullBatchesGrow(job, sourcePort, done, [index], txBatch, calls);
      batch[batchLen] := packet;
      batchLen := batchLen + 1;
      done := done + [index];
      assert batch[..batchLen] == Packets(job, sourcePort, done[|done| - batchLen..]);
      if batchLen == TX_BATCH {
        SendFull();
      }
      return true;
    }

    /** Hands a full batch to the engine. What it accepts of it is on the wire and the buffer is empty;
        a refused batch stays in the buffer. */
    method SendFull()
      requires batchLen == TX_BATCH == batch.Length && |done| == (calls + 1) * TX_BATCH
      requires NoneRefused(txBatch, calls)
      requires batch[..] == Packets(job, sourcePort, done[|done| - TX_BATCH..])
      requires wire == FullBatches(job, sourcePort, done, txBatch, calls) && localSent == FullCount(txBatch, calls)
      modifies this
      ensures Valid() && done == old(done) && calls == old(calls) + 1
      ensures wire == old(wire) + OnWire(txBatch(old(calls), TX_BATCH), old(batch[..]))
      ensures localSent == old(localSent) + CountOf(txBatch(old(calls), TX_BATCH))
      ensures batchLen == if txBatch(old(calls), TX_BATCH).Failed? then TX_BATCH else 0
    {
      hide Packets, FullBatches, FullCount;
      FullBatchesStep(job, sourcePort, done, txBatch, calls);
      assert batch[..batchLen] == batch[..];
      assert done[calls * TX_BATCH..(calls + 1) * TX_BATCH] == done[|done| - TX_BATCH..];
      match txBatch(calls, batchLen) {
        case Sent(count) =>
          wire := wire + batch[..Min(count, batchLen)];
          localSent := localSent + count;
          batchLen := 0;
          assert batch[..Min(count, TX_BATCH)] == batch[..][..Min(count, TX_BATCH)];
        case Failed =>
          assert wire + [] == wire;
      }
      calls := calls + 1;
    }

    /** What is in the buffer at the end; a refusal is retried once. */
    method Flush()
      requires Valid()
      modifies this
      ensures done == old(done)
      ensures wire == WholeWire(job, sourcePort, done, txBatch)
      ensures localSent == WholeCount(txBatch, |done|)
    {
      hide WholeWire, WholeCount, Held, Valid;
      HeldAtEnd();
      assert wire + [] == wire;
      if batchLen > 0 {
        match txBatch(calls, batchLen) {
          case Sent(count) =>
            wire := wire + batch[..Min(count, batchLen)];
            localSent := localSent + count;
          case Failed =>
            match txBatch(calls + 1, batchLen) {
              case Sent(count) =>
                wire := wire + batch[..Min(count, batchLen)];
                localSent := localSent + count;
              case Failed =>
            }
        }
      }
    }
  }

  lemma StridedStep(total: nat, stride: nat, blocked: nat -> bool, from: nat, done: seq<nat>)
    requires stride > 0 && from < total
    ensures done + Strided(total, stride, blocked, false, from)
            == (if blocked(from) then done else done + [from]) + Strided(total, stride, blocked, false, from + stride)
    ensures |Strided(total, stride, blocked, true, from)|
            == (if blocked(from) then 1 else 0) + |Strided(total, stride, blocked, true, from + stride)|
  {
  }

  lemma StridedEnd(total: nat, stride: nat, blocked: nat -> bool, from: nat)
    requires stride > 0 && from >= total
    ensures forall answer :: Strided(total, stride, blocked, answer, from) == []
  {
  }

  lemma StridedHead(total: nat, stride: nat, blocked: nat -> bool, from: nat)
    requires stride > 0 && from < total && !blocked(from)
    ensures Strided(total, stride, blocked, false, from) != []
  {
  }

  lemma JobBounds(job: Job)
    requires job.Valid()
    ensures 1 <= job.stride && job.Total() + job.stride <= U64_MAX + 1
  {
  }

  /** One transmit thread over its stride, whatever the engine answers. It panics exactly when a full
      batch other than its last probes is refused; the wire and the counters are exact either way. When
      every batch is accepted whole, its packets go out once each and in order. */
  method RunThread(job: Job, thread: nat, sourcePort: nat, txBatch: Engine) returns (report: Report)
    requires job.Valid() && thread < job.stride
    ensures var stamped := Strided(job.Total(), job.stride, job.blocked, false, thread);
            var skipped := Strided(job.Total(), job.stride, job.blocked, true, thread);
            && (report.panicked <==> Overruns(txBatch, |stamped|))
            && (report.panicked ==> WireAtPanic(job, sourcePort, stamped, txBatch, report.wire, report.localSent))
            && (!report.panicked ==>
                  && report.skipped == |skipped|
                  && report.wire == WholeWire(job, sourcePort, stamped, txBatch)
                  && report.localSent == WholeCount(txBatch, |stamped|))
            && (Accepts(txBatch) ==>
                  && !report.panicked
                  && report.wire == Packets(job, sourcePort, stamped)
                  && report.localSent == |stamped|)
  {
    hide Job.PacketAt, Job.Valid, Job.Total, Overruns, Accepts, TxThread.Valid, Strided, WireAtPanic, FullBatches, OnWire, Packets, WholeCount;
    JobBounds(job);
    var total: u64 := job.Total();
    ghost var stamped := Strided(total, job.stride, job.blocked, false, thread);
    ghost var skips := Strided(total, job.stride, job.blocked, true, thread);
    var tx := new TxThread(job, sourcePort, txBatch);
    var skipped := 0;
    var globalIdx: u64 := thread;
    while globalIdx < total
      invariant tx.Valid() && fresh(tx) && fresh(tx.batch)
      invariant tx.job == job && tx.sourcePort == sourcePort && tx.txBatch == txBatch
      invariant stamped == tx.done + Strided(total, job.stride, job.blocked, false, globalIdx)
      invariant |skips| == skipped + |Strided(total, job.stride, job.blocked, true, globalIdx)|
    {
      StridedStep(total, job.stride, job.blocked, globalIdx, tx.done);
      if job.blocked(globalIdx) {
        skipped := skipped + 1;
      } else {
        var inBounds := tx.Queue(globalIdx);
        if !inBounds {
          StridedHead(total, job.stride, job.blocked, globalIdx);
          tx.StuckOverruns(stamped);
          return Report(tx.wire, tx.localSent, skipped, true);
        }
      }
      globalIdx := globalIdx + job.stride;
    }
    StridedEnd(total, job.stride, job.blocked, globalIdx);
    assert stamped == tx.done;
    tx.NotOverrun();
    tx.Flush();
    report := Report(tx.wire, tx.localSent, skipped, false);
    if Accepts(txBatch) {
      WholeWireAccepted(job, sourcePort, stamped, txBatch);
    }
  }

  // ---- A refused batch ----

  lemma {:induction false} NeverBlocked(total: nat, from: nat)
    ensures |Strided(total, 1, _ => false, false, from)| == if from < total then total - from else 0
    decreases total - from
  {
    if from < total {
      NeverBlocked(total, from + 1);
    }
  }

  function SingleThread(ips: seq<u32>, ports: seq<nat>, seed: u64): Job
    requires |ips| * |ports| < U64_MAX
  {
    Job(ips, ports, Blackrock.New(Max(|ips| * |ports|, 1), seed), 1, _ => false)
  }

  /** One thread, more than one batch of probes and an engine that refuses everything: it panics. */
  method RefusalPanics(ips: seq<u32>, ports: seq<nat>, seed: u64, sourcePort: nat) returns (report: Report)
    requires TX_BATCH < |ips| * |ports| < U64_MAX
    ensures report.panicked && report.wire == []
  {
    hide Blackrock.New, Strided, WireAtPanic, WholeWire, WholeCount, Packets;
    var job := SingleThread(ips, ports, seed);
    report := RunThread(job, 0, sourcePort, (_, _) => Failed);
    NeverBlocked(|ips| * |ports|, 0);
    ghost var stamped := Strided(job.Total(), 1, job.blocked, false, 0);
    RefusedAtOnce((_, _) => Failed, |stamped|);
    NothingSent(job, sourcePort, stamped, report.wire, report.localSent);
  }

  lemma RefusedAtOnce(txBatch: Engine, stamped: nat)
    requires txBatch(0, TX_BATCH).Failed? && stamped > TX_BATCH
    ensures Overruns(txBatch, stamped)
  {
    assert (0 + 1) * TX_BATCH < stamped;
  }

  lemma NothingSent(job: Job, sourcePort: nat, stamped: seq<nat>, wire: seq<Packet>, sent: nat)
    requires WireAtPanic(job, sourcePort, stamped, (_, _) => Failed, wire, sent)
    ensures wire == [] && sent == 0
  {
    hide Packets;
  }

  // ---- All threads of a scan ----

  /** A place in the work of a scan: the k-th index that a thread stamps, or skips. */
  datatype Place = Place(thread: nat, skipped: bool, k: nat)

  ghost predicate HoldsPair(job: Job, pair: Pair, at: Place) {
    && job.Valid() && at.thread < job.stride
    && var indices := Strided(job.Total(), job.stride, job.blocked, at.skipped, at.thread);
       at.k < |indices| && indices[at.k] < job.Total()
       && PairAt(job.permutation.ShuffleMap, |job.ports|, indices[at.k]) == pair
  }

  lemma OncePosition(s: seq<nat>, x: nat)
    requires multiset(s)[x] == 1
    ensures exists k :: 0 <= k < |s| && s[k] == x
    ensures forall j, k :: 0 <= j < |s| && 0 <= k < |s| && s[j] == s[k] == x ==> j == k
  {
    assert x in multiset(s);
    forall j, k | 0 <= j < k < |s| && s[j] == s[k]
      ensures multiset(s)[s[j]] >= 2
    {
      TwoPositions(s, j, k);
    }
  }

  lemma TwoPositions(s: seq<nat>, j: nat, k: nat)
    requires j < k < |s| && s[j] == s[k]
    ensures multiset(s)[s[j]] >= 2
  {
    assert s == s[..j] + [s[j]] + s[j + 1..];
    assert s[k] == s[j + 1..][k - j - 1];
    assert multiset(s) == multiset(s[..j]) + multiset{s[j]} + multiset(s[j + 1..]);
  }

  /** Where the home index of a pair is handled. */
  lemma HomePlace(job: Job, home: nat) returns (at: Place)
    requires job.Valid() && home < job.Total()
    ensures at.thread == home % job.stride && at.skipped == job.blocked(home)
    ensures var indices := Strided(job.Total(), job.stride, job.blocked, at.skipped, at.thread);
            at.k < |indices| && indices[at.k] == home
            && forall k :: 0 <= k < |indices| && indices[k] == home ==> k == at.k
  {
    hide Strided, Job.Total;
    var thread := home % job.stride;
    StridedCount(job.Total(), job.stride, job.blocked, job.blocked(home), thread, home);
    OwnerIsResidue(job.stride, thread, home);
    var indices := Strided(job.Total(), job.stride, job.blocked, job.blocked(home), thread);
    OncePosition(indices, home);
    var k :| 0 <= k < |indices| && indices[k] == home;
    at := Place(thread, job.blocked(home), k);
  }

  /** Exactly-once dispatch over a whole scan: of all the places where some thread stamps or skips an
      index, one and only one holds a given pair. */
  lemma PairDispatchedOnce(job: Job, pair: Pair) returns (at: Place)
    requires job.Valid() && pair.0 < |job.ips| && pair.1 < |job.ports|
    ensures HoldsPair(job, pair, at)
    ensures forall other: Place :: HoldsPair(job, pair, other) ==> other == at
  {
    hide Unflatten, Flatten, Strided, PairAt, Permutes, Blackrock.Permutation.Shuffled, Blackrock.Permutation.Unshuffled;
    var home := job.permutation.UnshuffleMap(Flatten(pair, |job.ports|));
    PairHandledOnce(job, pair, 0, 0);
    at := HomePlace(job, home);
    PairHandledOnce(job, pair, 0, home);
    forall other: Place | HoldsPair(job, pair, other)
      ensures other == at
    {
      var indices := Strided(job.Total(), job.stride, job.blocked, other.skipped, other.thread);
      var index := indices[other.k];
      PairHandledOnce(job, pair, 0, index);
      StridedCount(job.Total(), job.stride, job.blocked, other.skipped, other.thread, home);
      OwnerIsResidue(job.stride, other.thread, home);
      assert index in multiset(indices);
    }
  }

  /** How a thread ends: its engine fails to initialise, or it reports. */
  datatype ThreadEnd = NotStarted | Ended(report: Report)

  function SentBy(end: ThreadEnd): nat { if end.Ended? then end.report.localSent else 0 }

  function SkippedBy(end: ThreadEnd): nat { if end.Ended? then end.report.skipped else 0 }

  function SumSent(ends: seq<ThreadEnd>): nat {
    if ends == [] then 0 else SumSent(ends[..|ends| - 1]) + SentBy(ends[|ends| - 1])
  }

  function SumSkipped(ends: seq<ThreadEnd>): nat {
    if ends == [] then 0 else SumSkipped(ends[..|ends| - 1]) + SkippedBy(ends[|ends| - 1])
  }

  /** The length of a thread's stride. */
  function StrideLength(job: Job, thread: nat): nat
    requires job.stride > 0
  {
    |Strided(job.Total(), job.stride, job.blocked, false, thread)| + |Strided(job.Total(), job.stride, job.blocked, true, thread)|
  }

  /** The probes of the threads that never started: they are neither sent nor skipped. */
  function SumDropped(job: Job, ends: seq<ThreadEnd>): nat
    requires job.stride > 0
  {
    if ends == [] then 0
    else
      var last := |ends| - 1;
      SumDropped(job, ends[..last]) + (if ends[last].NotStarted? then StrideLength(job, last) else 0)
  }

  function NumNotStarted(ends: seq<ThreadEnd>): nat {
    if ends == [] then 0
    else NumNotStarted(ends[..|ends| - 1]) + (if ends[|ends| - 1].NotStarted? then 1 else 0)
  }

  function NumPanicked(ends: seq<ThreadEnd>): nat {
    if ends == [] then 0
    else
      var last := ends[|ends| - 1];
      NumPanicked(ends[..|ends| - 1]) + (if last.Ended? && last.report.panicked then 1 else 0)
  }

  /** The source port of a thread: `saturating_add`. */
  function ThreadPort(base: nat, thread: nat): nat { Min(base + thread, U16_MAX) }

  /** `init(t)` is the engine that thread t gets, if it gets one. */
  type Init = nat -> Option<Engine>

  ghost predicate AllAccept(init: Init, threads: nat) {
    forall t: nat :: t < threads && init(t).Some? ==> Accepts(init(t).value)
  }

  /** What becomes of a thread. */
  ghost predicate Delivered(job: Job, base: nat, engine: Option<Engine>, thread: nat, end: ThreadEnd)
    requires job.stride > 0
  {
    match engine
    case None => end == NotStarted
    case Some(txBatch) =>
      var stamped := Strided(job.Total(), job.stride, job.blocked, false, thread);
      && end.Ended?
      && (end.report.panicked <==> Overruns(txBatch, |stamped|))
      && (Accepts(txBatch) ==>
            && !end.report.panicked
            && end.report.wire == Packets(job, ThreadPort(base, thread), stamped)
            && end.report.localSent == |stamped|
            && end.report.skipped == |Strided(job.Total(), job.stride, job.blocked, true, thread)|)
  }

  /** A whole scan: every thread over its stride, each with its own engine, if that initialises, and
      source port. When the engines accept every batch whole, no thread panics, each wire is what its
      thread stamps, and the probes sent, skipped and dropped with threads that did not start are all. */
  method RunScan(job: Job, base: nat, init: Init) returns (ends: seq<ThreadEnd>)
    requires job.Valid()
    ensures |ends| == job.stride
    ensures forall t: nat :: t < job.stride ==> Delivered(job, base, init(t), t, ends[t])
    ensures AllAccept(init, job.stride) ==>
              && NumPanicked(ends) == 0
              && SumSent(ends) + SumSkipped(ends) + SumDropped(job, ends) == job.Total()
  {
    hide Delivered, Job.Valid, Job.Total, SumSent, SumSkipped, SumDropped, NumPanicked, AllAccept;
    JobBounds(job);
    ends := [];
    for t := 0 to job.stride
      invariant |ends| == t
      invariant forall u: nat :: u < t ==> Delivered(job, base, init(u), u, ends[u])
    {
      var end := RunDelivers(job, base, init(t), t);
      ends := ends + [end];
    }
    if AllAccept(init, job.stride) {
      SumsHandled(job, base, init, ends);
      AllHandled(job.Total(), job.stride, job.blocked, 0);
    }
  }

  method RunDelivers(job: Job, base: nat, engine: Option<Engine>, thread: nat) returns (end: ThreadEnd)
    requires job.Valid() && thread < job.stride
    ensures Delivered(job, base, engine, thread, end)
  {
    hide Packets, Strided, WholeWire, WholeCount, WireAtPanic, Accepts, Overruns;
    match engine {
      case None => end := NotStarted;
      case Some(txBatch) =>
        var report := RunThread(job, thread, ThreadPort(base, thread), txBatch);
        end := Ended(report);
    }
  }

  lemma {:induction false} SumsHandled(job: Job, base: nat, init: Init, ends: seq<ThreadEnd>)
    requires job.stride > 0 && AllAccept(init, |ends|)
    requires forall t: nat :: t < |ends| ==> Delivered(job, base, init(t), t, ends[t])
    ensures NumPanicked(ends) == 0
    ensures SumSent(ends) + SumSkipped(ends) + SumDropped(job, ends) == Handled(job.Total(), job.stride, job.blocked, 0, |ends|)
  {
    hide Packets, Strided, Accepts, Overruns, Job.Total;
    if ends != [] {
      var last := |ends| - 1;
      SumsHandled(job, base, init, ends[..last]);
      assert Delivered(job, base, init(last), last, ends[last]);
    }
  }

  // ---- How a scan ends ----

  datatype ScanEnd =
    | AllPanicked
    | PanicWhenStrict
    | NothingStarted
    | NotStartedWhenStrict
    | Completed

  /** The verdict once all threads have been joined. */
  function Verdict(ends: seq<ThreadEnd>, strict: bool): ScanEnd {
    var panics, failures := NumPanicked(ends), NumNotStarted(ends);
    if panics >= |ends| then AllPanicked
    else if panics > 0 && strict then PanicWhenStrict
    else if failures >= |ends| then NothingStarted
    else if failures > 0 && strict then NotStartedWhenStrict
    else Completed
  }

  lemma {:induction false} NoneDropped(job: Job, ends: seq<ThreadEnd>)
    requires job.stride > 0 && NumNotStarted(ends) == 0
    ensures SumDropped(job, ends) == 0
  {
    if ends != [] {
      NoneDropped(job, ends[..|ends| - 1]);
    }
  }

  /** A strict scan that completes over engines that accept has sent or skipped every probe. One that is not
      strict may complete without the strides of some threads: with them alone the sum falls short. */
  lemma CompletedScan(job: Job, base: nat, init: Init, ends: seq<ThreadEnd>, strict: bool)
    requires job.Valid() && |ends| == job.stride && AllAccept(init, job.stride)
    requires forall t: nat :: t < |ends| ==> Delivered(job, base, init(t), t, ends[t])
    ensures SumSent(ends) + SumSkipped(ends) == job.Total() - SumDropped(job, ends)
    ensures Verdict(ends, strict) == Completed <==> NumNotStarted(ends) < job.stride && !(strict && NumNotStarted(ends) > 0)
    ensures strict && Verdict(ends, strict) == Completed ==> SumSent(ends) + SumSkipped(ends) == job.Total()
  {
    hide Delivered, Job.Total, AllAccept;
    SumsHandled(job, base, init, ends);
    AllHandled(job.Total(), job.stride, job.blocked, 0);
    if NumNotStarted(ends) == 0 {
      NoneDropped(job, ends);
    }
  }

  // ---- Thread count and source ports ----

  /** As many threads as asked for, but at least one and at most eight. */
  function ClampTxThreads(requested: nat): (threads: nat)
    ensures 1 <= threads <= 8
    ensures 1 <= requested <= 8 ==> threads == requested
    ensures requested > 8 ==> threads == 8
  {
    Max(1, Min(requested, MAX_TX_THREADS))
  }

  function SaturatingSub(a: nat, b: nat): nat { if a >= b then a - b else 0 }

  function ChooseSourcePortBase(pid: u32): nat {
    var headroom := SaturatingSub(MAX_TX_THREADS, 1);
    var maxBase := SaturatingSub(U16_MAX, headroom);
    var span := Max(Min(SaturatingSub(maxBase, EPHEMERAL_PORT_START), SaturatingSub(EPHEMERAL_PORT_COUNT, 1)), 1);
    var candidate := Min(EPHEMERAL_PORT_START + pid % (U16_MAX + 1) % span, U16_MAX);
    Min(candidate, maxBase)
  }

  /** For every process id and every requested thread count, each thread gets an ephemeral port of
      its own inside the window `[base, base + 8)` that the receiver accepts, and the bounds of the
      window fit in 16 bits. */
  lemma PortWindow(pid: u32, requested: nat, thread: nat)
    requires thread < ClampTxThreads(requested)
    ensures var base := ChooseSourcePortBase(pid);
            && EPHEMERAL_PORT_START <= base
            && base + MAX_TX_THREADS <= U16_MAX
            && Min(base + thread, U16_MAX) == base + thread < base + MAX_TX_THREADS
  {
    assert pid % (U16_MAX + 1) % 16376 < 16376;
  }

  /** Processes whose ids are close start from different ports. */
  lemma BasesDiffer(pid: u32, other: u32)
    requires pid < other < 16376
    ensures ChooseSourcePortBase(pid) != ChooseSourcePortBase(other)
  {
  }
}
