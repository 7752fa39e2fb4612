/** Sequences of numbered chunks that skip only numbers known to be gone. */
module Delivery {
  import opened Prelude
  import opened Rings

  /** The highest number in `chunks`, or `from` when none is higher. */
  function Reach(from: nat, chunks: seq<Chunk>): nat {
    if chunks == [] then from else Max(Reach(from, chunks[..|chunks| - 1]), chunks[|chunks| - 1].num)
  }

  /** Dropped for capacity, or acknowledged. */
  ghost predicate Gone(q: nat, evicted: set<nat>, acked: nat) {
    q in evicted || q <= acked
  }

  /** Every number above `lo` and up to `hi` is gone. */
  ghost predicate AllGone(lo: nat, hi: int, evicted: set<nat>, acked: nat) {
    forall q: nat :: lo < q <= hi ==> Gone(q, evicted, acked)
  }

  /** Whenever a chunk goes beyond all before it, the numbers it skips are gone. */
  ghost predicate Gapless(from: nat, chunks: seq<Chunk>, evicted: set<nat>, acked: nat) {
    chunks == [] ||
    (var init := chunks[..|chunks| - 1];
     && Gapless(from, init, evicted, acked)
     && AllGone(Reach(from, init), chunks[|chunks| - 1].num - 1, evicted, acked))
  }

  /** A chunk carries the bytes the log has under its number. */
  predicate Authentic(log: seq<Bytes>, c: Chunk) {
    1 <= c.num <= |log| && c.data == log[c.num - 1]
  }

  predicate AllAuthentic(log: seq<Bytes>, chunks: seq<Chunk>) {
    chunks == [] || (AllAuthentic(log, chunks[..|chunks| - 1]) && Authentic(log, chunks[|chunks| - 1]))
  }

  lemma {:induction false} AuthenticAt(log: seq<Bytes>, chunks: seq<Chunk>, k: nat)
    requires AllAuthentic(log, chunks) && k < |chunks|
    ensures Authentic(log, chunks[k]) && AllAuthentic(log, chunks[..k])
  {
    if k < |chunks| - 1 {
      AuthenticAt(log, chunks[..|chunks| - 1], k);
      assert chunks[..|chunks| - 1][..k] == chunks[..k];
    }
  }

  lemma {:induction false} AuthenticGrows(log: seq<Bytes>, log': seq<Bytes>, chunks: seq<Chunk>)
    requires log <= log' && AllAuthentic(log, chunks)
    ensures AllAuthentic(log', chunks)
  {
    if chunks != [] {
      AuthenticGrows(log, log', chunks[..|chunks| - 1]);
    }
  }

  lemma AuthenticSnapshot(a: seq<Chunk>, log: seq<Bytes>, cut: nat)
    requires AllAuthentic(log, a)
    ensures AllAuthentic(log, a + Numbered(log, cut))
  {
    AuthenticUpTo(a, log, cut, |Numbered(log, cut)|);
    assert Numbered(log, cut)[..|Numbered(log, cut)|] == Numbered(log, cut);
  }

  lemma {:induction false} AuthenticUpTo(a: seq<Chunk>, log: seq<Bytes>, cut: nat, n: nat)
    requires AllAuthentic(log, a) && n <= |Numbered(log, cut)|
    ensures AllAuthentic(log, a + Numbered(log, cut)[..n])
  {
    var chunks := Numbered(log, cut);
    if n == 0 {
      assert a + chunks[..n] == a;
    } else {
      AuthenticUpTo(a, log, cut, n - 1);
      assert a + chunks[..n] == (a + chunks[..n - 1]) + [chunks[n - 1]];
      AuthenticSnoc(log, a + chunks[..n - 1], chunks[n - 1]);
    }
  }

  lemma AuthenticSnoc(log: seq<Bytes>, a: seq<Chunk>, c: Chunk)
    requires AllAuthentic(log, a) && Authentic(log, c)
    ensures AllAuthentic(log, a + [c])
  {
    assert (a + [c])[..|a + [c]| - 1] == a;
  }

  lemma {:induction false} ReachAbove(from: nat, chunks: seq<Chunk>)
    ensures from <= Reach(from, chunks)
    ensures Reach(from, chunks) == Max(from, Reach(0, chunks))
  {
    if chunks != [] {
      ReachAbove(from, chunks[..|chunks| - 1]);
    }
  }

  lemma {:induction false} ReachBounds(from: nat, chunks: seq<Chunk>, k: nat)
    requires k < |chunks|
    ensures chunks[k].num <= Reach(from, chunks)
  {
    if k < |chunks| - 1 {
      ReachBounds(from, chunks[..|chunks| - 1], k);
    }
  }

  lemma {:induction false} ReachPrefix(from: nat, a: seq<Chunk>, b: seq<Chunk>)
    ensures Reach(from, a) <= Reach(from, a + b)
  {
    if b == [] {
      assert a + b == a;
    } else {
      ReachPrefix(from, a, b[..|b| - 1]);
      assert (a + b)[..|a + b| - 1] == a + b[..|b| - 1];
    }
  }

  lemma {:induction false} GaplessMonotone(from: nat, chunks: seq<Chunk>, evicted: set<nat>, acked: nat,
                                           evicted': set<nat>, acked': nat)
    requires Gapless(from, chunks, evicted, acked)
    requires evicted <= evicted' && acked <= acked'
    ensures Gapless(from, chunks, evicted', acked')
  {
    if chunks != [] {
      var init := chunks[..|chunks| - 1];
      GaplessMonotone(from, init, evicted, acked, evicted', acked');
      AllGoneMonotone(Reach(from, init), chunks[|chunks| - 1].num - 1, evicted, acked, evicted', acked');
    }
  }

  lemma AllGoneMonotone(lo: nat, hi: int, evicted: set<nat>, acked: nat, evicted': set<nat>, acked': nat)
    requires AllGone(lo, hi, evicted, acked)
    requires evicted <= evicted' && acked <= acked'
    ensures AllGone(lo, hi, evicted', acked')
  {
    forall q: nat | lo < q <= hi
      ensures Gone(q, evicted', acked')
    {
      assert Gone(q, evicted, acked);
    }
  }

  lemma {:induction false} GaplessAt(from: nat, chunks: seq<Chunk>, k: nat, evicted: set<nat>, acked: nat)
    requires Gapless(from, chunks, evicted, acked) && k < |chunks|
    ensures Gapless(from, chunks[..k], evicted, acked)
    ensures AllGone(Reach(from, chunks[..k]), chunks[k].num - 1, evicted, acked)
  {
    if k < |chunks| - 1 {
      var init := chunks[..|chunks| - 1];
      GaplessAt(from, init, k, evicted, acked);
      assert init[..k] == chunks[..k];
    }
  }

  /** Gapless delivery leaves nothing out: each number up to the highest is delivered or gone. */
  lemma {:induction false} GaplessCovers(from: nat, chunks: seq<Chunk>, q: nat, evicted: set<nat>, acked: nat)
    requires Gapless(from, chunks, evicted, acked)
    requires from < q <= Reach(from, chunks)
    ensures Gone(q, evicted, acked) || exists k :: 0 <= k < |chunks| && chunks[k].num == q
  {
    if chunks != [] {
      var last := |chunks| - 1;
      if q <= Reach(from, chunks[..last]) {
        GaplessCovers(from, chunks[..last], q, evicted, acked);
        if k :| 0 <= k < last && chunks[..last][k].num == q {
          assert chunks[k].num == q;
        }
      } else {
        assert q == chunks[last].num || q <= chunks[last].num - 1;
      }
    }
  }

  lemma GaplessSnoc(from: nat, a: seq<Chunk>, c: Chunk, evicted: set<nat>, acked: nat)
    requires Gapless(from, a, evicted, acked)
    requires AllGone(Reach(from, a), c.num - 1, evicted, acked)
    ensures Gapless(from, a + [c], evicted, acked)
    ensures Reach(from, a + [c]) == Max(Reach(from, a), c.num)
  {
    assert (a + [c])[..|a + [c]| - 1] == a;
  }

  lemma NumberedAt(log: seq<Bytes>, cut: nat, i: nat)
    requires cut + i < |log|
    ensures |Numbered(log, cut)| == |log| - cut && Numbered(log, cut)[i] == Chunk(cut + i + 1, log[cut + i])
  {
  }

  lemma NumberedSnoc(log: seq<Bytes>, cut: nat)
    requires cut < |log|
    ensures Numbered(log, cut) == Numbered(log[..|log| - 1], cut) + [Chunk(|log|, log[|log| - 1])]
  {
    var init, last := log[..|log| - 1], Chunk(|log|, log[|log| - 1]);
    var n := |log| - 1 - cut;
    assert |Numbered(init, cut)| == n;
    forall i | 0 <= i < n + 1
      ensures Numbered(log, cut)[i] == (Numbered(init, cut) + [last])[i]
    {
      NumberedAt(log, cut, i);
      if i < n {
        NumberedAt(init, cut, i);
      }
    }
  }

  /** Appending the rest of the log from `cut` keeps a sequence gapless when what lies below the cut is gone. */
  lemma {:induction false} GaplessSnapshot(from: nat, a: seq<Chunk>, log: seq<Bytes>, cut: nat,
                                           evicted: set<nat>, acked: nat)
    requires Gapless(from, a, evicted, acked)
    requires AllGone(Reach(from, a), cut, evicted, acked)
    ensures Gapless(from, a + Numbered(log, cut), evicted, acked)
    ensures AllGone(Reach(from, a + Numbered(log, cut)), Max(cut, |log|), evicted, acked)
    decreases |log|
  {
    if |log| <= cut {
      assert a + Numbered(log, cut) == a;
    } else {
      var rest, last := log[..|log| - 1], Chunk(|log|, log[|log| - 1]);
      GaplessSnapshot(from, a, rest, cut, evicted, acked);
      NumberedSnoc(log, cut);
      assert a + Numbered(log, cut) == (a + Numbered(rest, cut)) + [last];
      GaplessSnoc(from, a + Numbered(rest, cut), last, evicted, acked);
    }
  }
}
