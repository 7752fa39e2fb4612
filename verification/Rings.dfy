/**
 The replay buffer of the agent host: a byte-bounded suffix of the ever-growing log of
 output chunks.  The value `Ring(log, cut)` is the specification (the whole log, and how
 many of its chunks have been dropped); the class below is the buffer itself.
 */
module Rings {
  import opened Prelude

  /** An emitted chunk and the sequence number the host gave it; numbers start at 1. */
  datatype Chunk = Chunk(num: nat, data: Bytes)

  datatype Ring = Ring(log: seq<Bytes>, cut: nat)

  /** The chunks of `log` numbered above `from`, oldest first. */
  function Numbered(log: seq<Bytes>, from: nat): seq<Chunk> {
    if from <= |log| then
      seq(|log| - from, i requires 0 <= i < |log| - from => Chunk(from + i + 1, log[from + i]))
    else
      []
  }

  /** The bytes of the chunks of `log` numbered above `from`. */
  function LogBytes(log: seq<Bytes>, from: nat): nat
    decreases |log| - from
  {
    if from >= |log| then 0 else |log[from]| + LogBytes(log, from + 1)
  }

  /** Where the log is cut once the oldest chunks are dropped, one by one, until `capacity` is met. */
  function EvictTo(log: seq<Bytes>, cut: nat, capacity: nat): nat
    decreases |log| - cut
  {
    if LogBytes(log, cut) <= capacity then cut else EvictTo(log, cut + 1, capacity)
  }

  function AfterPush(r: Ring, data: Bytes, capacity: nat): Ring {
    var log := r.log + [data];
    Ring(log, EvictTo(log, r.cut, capacity))
  }

  function AfterPrune(r: Ring, ack: nat): Ring {
    Ring(r.log, if ack <= r.cut then r.cut else Min(ack, |r.log|))
  }

  function Replay(r: Ring, lastSeq: nat): seq<Chunk> {
    Numbered(r.log, Max(r.cut, lastSeq))
  }

  /** The highest number held, or 0 when nothing is held. */
  function LastSeq(r: Ring): nat {
    if r.cut < |r.log| then |r.log| else 0
  }

  // ---------- eviction is exact and minimal ----------

  /** Eviction stops at the first cut, from the old one up, at which the capacity is met. */
  lemma {:induction false} EvictionIsMinimal(log: seq<Bytes>, cut: nat, capacity: nat)
    requires cut <= |log|
    ensures var c := EvictTo(log, cut, capacity);
      && cut <= c <= |log|
      && LogBytes(log, c) <= capacity
      && forall k :: cut <= k < c ==> LogBytes(log, k) > capacity
    decreases |log| - cut
  {
    if LogBytes(log, cut) > capacity {
      EvictionIsMinimal(log, cut + 1, capacity);
    }
  }

  // ---------- every run of the buffer ----------

  datatype Op = PushOp(data: Bytes) | PruneOp(ack: nat)

  function Run(capacity: nat, ops: seq<Op>): Ring {
    if ops == [] then Ring([], 0) else
    var r := Run(capacity, ops[..|ops| - 1]);
    match ops[|ops| - 1]
    case PushOp(data) => AfterPush(r, data, capacity)
    case PruneOp(ack) => AfterPrune(r, ack)
  }

  /** What was pushed, in order. */
  function Pushed(ops: seq<Op>): seq<Bytes> {
    if ops == [] then [] else
    Pushed(ops[..|ops| - 1]) +
    (match ops[|ops| - 1] case PushOp(data) => [data] case PruneOp(_) => [])
  }

  /**
   In every run the buffer is a suffix of exactly what was pushed, within its capacity, and
   one more operation never brings a dropped chunk back.
   */
  lemma {:induction false} RingIsBoundedSuffix(capacity: nat, ops: seq<Op>)
    ensures var r := Run(capacity, ops);
      && r.log == Pushed(ops)
      && r.cut <= |r.log|
      && LogBytes(r.log, r.cut) <= capacity
      && (ops != [] ==> Run(capacity, ops[..|ops| - 1]).cut <= r.cut)
  {
    if ops != [] {
      var before := Run(capacity, ops[..|ops| - 1]);
      RingIsBoundedSuffix(capacity, ops[..|ops| - 1]);
      match ops[|ops| - 1] {
        case PushOp(data) => EvictionIsMinimal(before.log + [data], before.cut, capacity);
        case PruneOp(ack) => LogBytesAntitone(before.log, before.cut, AfterPrune(before, ack).cut);
      }
    }
  }

  /** The highest number acknowledged; an acknowledgement covers only what has been pushed. */
  function Acked(ops: seq<Op>): nat {
    if ops == [] then 0 else
    var before := ops[..|ops| - 1];
    match ops[|ops| - 1]
    case PushOp(_) => Acked(before)
    case PruneOp(ack) => Max(Acked(before), Min(ack, |Pushed(before)|))
  }

  /**
   What the buffer holds after any run, exactly: the chunks that are not acknowledged and that fit the
   capacity together with all pushed after them.
   */
  lemma HoldsExactly(capacity: nat, ops: seq<Op>, q: nat)
    requires 1 <= q <= |Pushed(ops)|
    ensures Run(capacity, ops).cut < q <==> Acked(ops) < q && LogBytes(Pushed(ops), q - 1) <= capacity
  {
    CutIsExact(capacity, ops);
    var r := Run(capacity, ops);
    if r.cut < q {
      LogBytesAntitone(r.log, r.cut, q - 1);
    } else {
      LogBytesAntitone(r.log, q - 1, r.cut - 1);
    }
  }

  /** The cut is the last acknowledgement, or lies behind a chunk that does not fit any more. */
  lemma {:induction false} CutIsExact(capacity: nat, ops: seq<Op>)
    ensures var r := Run(capacity, ops);
      && r.log == Pushed(ops) && Acked(ops) <= r.cut <= |r.log| && LogBytes(r.log, r.cut) <= capacity
      && (Acked(ops) < r.cut ==> LogBytes(r.log, r.cut - 1) > capacity)
  {
    if ops != [] {
      var before := ops[..|ops| - 1];
      var r, op := Run(capacity, before), ops[|ops| - 1];
      CutIsExact(capacity, before);
      match op {
        case PushOp(data) =>
          EvictionIsMinimal(r.log + [data], r.cut, capacity);
          if Acked(before) < r.cut {
            LogBytesSnoc(r.log, r.cut - 1, data);
          }
        case PruneOp(ack) =>
          LogBytesAntitone(r.log, r.cut, AfterPrune(r, ack).cut);
      }
    }
  }

  /** A push drops no more than it must: at every earlier cut the buffer would exceed its capacity. */
  lemma PushEvictsMinimally(capacity: nat, ops: seq<Op>, data: Bytes, k: nat)
    requires Run(capacity, ops).cut <= k < Run(capacity, ops + [PushOp(data)]).cut
    ensures LogBytes(Pushed(ops) + [data], k) > capacity
  {
    var all := ops + [PushOp(data)];
    assert all[..|all| - 1] == ops;
    CutIsExact(capacity, ops);
    CutIsExact(capacity, all);
    LogBytesAntitone(Pushed(all), k, Run(capacity, all).cut - 1);
  }

  lemma {:induction false} LogBytesAntitone(log: seq<Bytes>, a: nat, b: nat)
    requires a <= b
    ensures LogBytes(log, b) <= LogBytes(log, a)
    decreases b - a
  {
    if a < b {
      LogBytesAntitone(log, a + 1, b);
    }
  }

  /**
   `Ready` carries `last_seq`, the highest number stored, in a field documented as the highest one
   emitted.  It is that exactly when something is still held or nothing was ever pushed; otherwise it
   falls back to 0.
   */
  lemma LastSeqExact(capacity: nat, ops: seq<Op>)
    ensures var r := Run(capacity, ops);
      && (LastSeq(r) == |Pushed(ops)| <==> r.cut < |r.log| || Pushed(ops) == [])
      && (LastSeq(r) != |Pushed(ops)| ==> LastSeq(r) == 0)
  {
    RingIsBoundedSuffix(capacity, ops);
  }

  /** One chunk, acknowledged: one chunk was emitted, and `last_seq` says 0. */
  lemma LastSeqForgetsAckedOutput(data: Bytes, capacity: nat)
    requires |data| <= capacity
    ensures var ops := [PushOp(data), PruneOp(1)];
      |Pushed(ops)| == 1 && LastSeq(Run(capacity, ops)) == 0
  {
    var ops := [PushOp(data), PruneOp(1)];
    assert ops[..1] == [PushOp(data)] && ops[..1][..0] == [];
    assert Run(capacity, ops[..1][..0]) == Ring([], 0);
    assert [] + [data] == [data];
    assert LogBytes([data], 0) == |data|;
    assert Run(capacity, ops[..1]) == Ring([data], 0);
    assert Pushed(ops[..1]) == [data];
  }

  // ---------- the buffer ----------

  /** `chunks.iter().filter(|c| c.seq > last_seq)` */
  function FilterPast(chunks: seq<Chunk>, lastSeq: nat): seq<Chunk> {
    if chunks == [] then []
    else if chunks[0].num > lastSeq then [chunks[0]] + FilterPast(chunks[1..], lastSeq)
    else FilterPast(chunks[1..], lastSeq)
  }

  lemma NumberedCons(log: seq<Bytes>, from: nat)
    requires from < |log|
    ensures Numbered(log, from) == [Chunk(from + 1, log[from])] + Numbered(log, from + 1)
  {
    var a, b := Numbered(log, from), [Chunk(from + 1, log[from])] + Numbered(log, from + 1);
    assert |a| == |b|;
    forall i | 0 <= i < |a| ensures a[i] == b[i] {
      assert i > 0 ==> b[i] == Numbered(log, from + 1)[i - 1];
    }
  }

  /** On contiguous numbers the filter is a cut. */
  lemma {:induction false} FilterIsCut(log: seq<Bytes>, from: nat, lastSeq: nat)
    requires from <= |log|
    ensures FilterPast(Numbered(log, from), lastSeq) == Numbered(log, Max(from, lastSeq))
    decreases |log| - from
  {
    if from == |log| {
      NumberedEnd(log, from);
      NumberedEnd(log, Max(from, lastSeq));
    } else {
      FilterIsCut(log, from + 1, lastSeq);
      NumberedCons(log, from);
      FilterCons(Chunk(from + 1, log[from]), Numbered(log, from + 1), lastSeq);
      assert Max(from + 1, lastSeq) == if lastSeq <= from then from + 1 else Max(from, lastSeq);
    }
  }

  lemma NumberedEnd(log: seq<Bytes>, from: nat)
    requires |log| <= from
    ensures Numbered(log, from) == []
  {
    assert |Numbered(log, from)| == 0;
  }

  lemma FilterCons(c: Chunk, rest: seq<Chunk>, lastSeq: nat)
    ensures FilterPast([c] + rest, lastSeq) ==
      if c.num > lastSeq then [c] + FilterPast(rest, lastSeq) else FilterPast(rest, lastSeq)
  {
    assert ([c] + rest)[1..] == rest;
  }

  class RingBuffer {
    var chunks: seq<Chunk>
    var nextSeq: nat
    var totalBytes: nat
    const capacity: nat
    ghost var log: seq<Bytes>
    ghost var cut: nat

    ghost predicate Valid()
      reads this
    {
      && Consistent()
      && totalBytes <= capacity
    }

    /** `Valid` but for the capacity, which `push` exceeds until it has evicted. */
    ghost predicate Consistent()
      reads this
    {
      && cut <= |log|
      && chunks == Numbered(log, cut)
      && nextSeq == |log| + 1
      && totalBytes == LogBytes(log, cut)
    }

    ghost function View(): Ring
      reads this
    {
      Ring(log, cut)
    }

    constructor WithCapacity(capacity: nat)
      ensures Valid() && View() == Ring([], 0) && this.capacity == capacity
    {
      this.capacity := capacity;
      chunks, nextSeq, totalBytes := [], 1, 0;
      log, cut := [], 0;
    }

    method Push(data: Bytes) returns (num: nat)
      requires Valid()
      modifies this
      ensures Valid() && View() == AfterPush(old(View()), data, capacity)
      ensures num == |log|
    {
      num := nextSeq;
      nextSeq := nextSeq + 1;
      totalBytes := totalBytes + |data|;
      chunks := chunks + [Chunk(num, data)];
      LogBytesSnoc(log, cut, data);
      log := log + [data];
      assert chunks == Numbered(log, cut);
      Evict();
    }

    method Evict()
      requires Consistent()
      modifies this`chunks, this`totalBytes, this`cut
      ensures Valid() && View() == Ring(log, EvictTo(log, old(cut), capacity))
    {
      while totalBytes > capacity
        invariant Consistent()
        invariant EvictTo(log, cut, capacity) == EvictTo(log, old(cut), capacity)
        decreases |chunks|
      {
        // Never taken: an empty buffer holds no bytes, so it is within any capacity.
        if chunks == [] {
          break;
        }
        DropFirst();
      }
    }

    method PruneThrough(ack: nat)
      requires Valid()
      modifies this`chunks, this`totalBytes, this`cut
      ensures Valid() && View() == AfterPrune(old(View()), ack)
    {
      while chunks != [] && chunks[0].num <= ack
        invariant Valid()
        invariant old(cut) <= cut
        invariant cut > old(cut) ==> cut <= ack
        decreases |chunks|
      {
        DropFirst();
      }
      assert chunks != [] ==> chunks[0].num == cut + 1;
    }

    /** `pop_front`, with the byte count kept in step. */
    method DropFirst()
      requires Consistent() && chunks != []
      modifies this`chunks, this`totalBytes, this`cut
      ensures Consistent() && cut == old(cut) + 1 && |chunks| == |old(chunks)| - 1
      ensures totalBytes <= old(totalBytes)
    {
      totalBytes := totalBytes - |chunks[0].data|;
      chunks := chunks[1..];
      cut := cut + 1;
      assert chunks == Numbered(log, cut);
    }

    function ReplayPast(lastSeq: nat): seq<Chunk>
      reads this
    {
      FilterPast(chunks, lastSeq)
    }

    lemma ReplayPastIsReplay(lastSeq: nat)
      requires Valid()
      ensures ReplayPast(lastSeq) == Replay(View(), lastSeq)
    {
      FilterIsCut(log, cut, lastSeq);
    }

    function Last(): nat
      reads this
    {
      if chunks == [] then 0 else chunks[|chunks| - 1].num
    }

    lemma LastIsLastSeq()
      requires Valid()
      ensures Last() == LastSeq(View())
    {
    }
  }

  lemma {:induction false} LogBytesSnoc(log: seq<Bytes>, from: nat, data: Bytes)
    requires from <= |log|
    ensures LogBytes(log + [data], from) == LogBytes(log, from) + |data|
    decreases |log| - from
  {
    if from < |log| {
      LogBytesSnoc(log, from + 1, data);
    }
  }
}
