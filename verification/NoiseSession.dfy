/**
 The post-pairing Noise session. A cipher direction is an epoch, the number of rekeys behind its
 key, and a nonce; rekeying (section 4.2 of the Noise Protocol Framework, revision 34) replaces
 the key and leaves the nonce alone. A frame opens only under the epoch and nonce it was sealed with.
 */
module NoiseSession {
  import opened Prelude

  const REKEY_BYTES: u64 := 1_000_000_000

  /** One hour, in nanoseconds. */
  const REKEY_INTERVAL: nat := 3_600_000_000_000

  const TAG_BYTES: nat := 16

  const MAX_FRAME: nat := 65_535

  const MAX_PAYLOAD: nat := MAX_FRAME - TAG_BYTES

  datatype Cipher = Cipher(epoch: nat, nonce: u64)

  datatype Frame = Sealed(key: Cipher, payload: Bytes) | Forged

  datatype Fault = TooLong | Exhausted | BadTag

  /** What the two ends have to agree on: both ciphers and the byte counter. */
  datatype Tally = Tally(out: Cipher, inn: Cipher, bytes: u64)

  datatype End = End(tally: Tally, started: nat)

  predicate TimerOut(e: End, now: nat) {
    SatSub(now, e.started) >= REKEY_INTERVAL
  }

  /** Count `n` plaintext bytes, and rekey both directions when the budget is used up or the timer ran out. */
  function Count(t: Tally, n: u64, timed: bool): Tally {
    var total := SatAdd(t.bytes, n);
    if total >= REKEY_BYTES || timed then
      Tally(t.out.(epoch := t.out.epoch + 1), t.inn.(epoch := t.inn.epoch + 1), 0)
    else
      t.(bytes := total)
  }

  predicate Rekeys(t: Tally, n: nat, timed: bool) {
    t.bytes + n >= REKEY_BYTES || timed
  }

  function Account(e: End, t: Tally, n: u64, now: nat): End {
    var timed := TimerOut(e, now);
    End(Count(t, n, timed), if SatAdd(t.bytes, n) >= REKEY_BYTES || timed then now else e.started)
  }

  function SealError(t: Tally, payload: Bytes): Option<Fault> {
    if |payload| + TAG_BYTES > MAX_FRAME then Some(TooLong)
    else if t.out.nonce == U64_MAX then Some(Exhausted)
    else None
  }

  function OpenError(t: Tally, f: Frame): Option<Fault> {
    if f.Sealed? && |f.payload| + TAG_BYTES > MAX_FRAME then Some(TooLong)
    else if t.inn.nonce == U64_MAX then Some(Exhausted)
    else if f.Forged? || f.key != t.inn then Some(BadTag)
    else None
  }

  /** The counters after sealing, where sealing succeeds. */
  function Sealing(t: Tally, payload: Bytes, timed: bool): Tally
    requires SealError(t, payload).None?
  {
    Count(t.(out := t.out.(nonce := t.out.nonce + 1)), |payload|, timed)
  }

  function Opening(t: Tally, f: Frame, timed: bool): Tally
    requires OpenError(t, f).None?
  {
    Count(t.(inn := t.inn.(nonce := t.inn.nonce + 1)), |f.payload|, timed)
  }

  function Seal(e: End, payload: Bytes, now: nat): Result<(End, Frame), Fault> {
    var error := SealError(e.tally, payload);
    if error.Some? then Err(error.value)
    else
      var t := e.tally.(out := e.tally.out.(nonce := e.tally.out.nonce + 1));
      Ok((Account(e, t, |payload|, now), Sealed(e.tally.out, payload)))
  }

  function Open(e: End, f: Frame, now: nat): Result<(End, Bytes), Fault> {
    var error := OpenError(e.tally, f);
    if error.Some? then Err(error.value)
    else
      var t := e.tally.(inn := e.tally.inn.(nonce := e.tally.inn.nonce + 1));
      Ok((Account(e, t, |f.payload|, now), f.payload))
  }

  function Established(now: nat): End {
    End(Tally(Cipher(0, 0), Cipher(0, 0), 0), now)
  }

  class NoiseSession {
    var out: Cipher
    var inn: Cipher
    var bytesSinceRekey: u64
    var startedAt: nat

    function View(): End
      reads this
    {
      End(Tally(out, inn, bytesSinceRekey), startedAt)
    }

    constructor (now: nat)
      ensures View() == Established(now)
    {
      out, inn := Cipher(0, 0), Cipher(0, 0);
      bytesSinceRekey := 0;
      startedAt := now;
    }

    method EncryptAt(payload: Bytes, now: nat) returns (r: Result<Frame, Fault>)
      modifies this
      ensures match Seal(old(View()), payload, now)
        case Ok((e, f)) => View() == e && r == Ok(f)
        case Err(fault) => View() == old(View()) && r == Err(fault)
    {
      if |payload| + TAG_BYTES > MAX_FRAME {
        return Err(TooLong);
      }
      if out.nonce == U64_MAX {
        return Err(Exhausted);
      }
      var frame := Sealed(out, payload);
      out := out.(nonce := out.nonce + 1);
      AccountAndRekey(|payload|, now);
      return Ok(frame);
    }

    method DecryptAt(f: Frame, now: nat) returns (r: Result<Bytes, Fault>)
      modifies this
      ensures match Open(old(View()), f, now)
        case Ok((e, payload)) => View() == e && r == Ok(payload)
        case Err(fault) => View() == old(View()) && r == Err(fault)
    {
      if f.Sealed? && |f.payload| + TAG_BYTES > MAX_FRAME {
        return Err(TooLong);
      }
      if inn.nonce == U64_MAX {
        return Err(Exhausted);
      }
      if f.Forged? || f.key != inn {
        return Err(BadTag);
      }
      inn := inn.(nonce := inn.nonce + 1);
      AccountAndRekey(|f.payload|, now);
      return Ok(f.payload);
    }

    method AccountAndRekey(n: u64, now: nat)
      modifies this
      ensures View() == Account(old(View()), old(View()).tally, n, now)
    {
      bytesSinceRekey := SatAdd(bytesSinceRekey, n);
      MaybeRekeyAt(now);
    }

    method MaybeRekeyAt(now: nat)
      modifies this
      ensures var e := old(View());
        if e.tally.bytes >= REKEY_BYTES || TimerOut(e, now) then
          && View().tally.out == e.tally.out.(epoch := e.tally.out.epoch + 1)
          && View().tally.inn == e.tally.inn.(epoch := e.tally.inn.epoch + 1)
          && View().tally.bytes == 0 && View().started == now
        else
          View() == e
    {
      var byBytes := bytesSinceRekey >= REKEY_BYTES;
      var byTime := SatSub(now, startedAt) >= REKEY_INTERVAL;
      if byBytes || byTime {
        out := out.(epoch := out.epoch + 1);
        inn := inn.(epoch := inn.epoch + 1);
        bytesSinceRekey := 0;
        startedAt := now;
      }
    }
  }

  // ---------- the accounts of one end ----------

  datatype Op = Encrypt(payload: Bytes, now: nat) | Decrypt(frame: Frame, now: nat)

  function After(e: End, op: Op): End {
    match op
    case Encrypt(payload, now) => (match Seal(e, payload, now) case Ok((d, _)) => d case Err(_) => e)
    case Decrypt(frame, now) => (match Open(e, frame, now) case Ok((d, _)) => d case Err(_) => e)
  }

  /** Plaintext bytes an operation carries, none if it fails. */
  function Carried(e: End, op: Op): nat {
    match op
    case Encrypt(payload, now) => if Seal(e, payload, now).Ok? then |payload| else 0
    case Decrypt(frame, now) => if Open(e, frame, now).Ok? then |frame.payload| else 0
  }

  /** An end together with the bytes of each epoch it has left and of all it ever carried. */
  datatype Desk = Desk(end: End, epochs: seq<nat>, total: nat)

  function Book(d: Desk, op: Op): Desk {
    var e := After(d.end, op);
    var n := Carried(d.end, op);
    var closed := e.tally.out.epoch != d.end.tally.out.epoch;
    Desk(e, if closed then d.epochs + [d.end.tally.bytes + n] else d.epochs, d.total + n)
  }

  function Books(start: nat, ops: seq<Op>): Desk {
    if ops == [] then Desk(Established(start), [], 0) else Book(Books(start, ops[..|ops| - 1]), ops[|ops| - 1])
  }

  function Sum(s: seq<nat>): nat {
    if s == [] then 0 else Sum(s[..|s| - 1]) + s[|s| - 1]
  }

  lemma SumSnoc(s: seq<nat>, x: nat)
    ensures Sum(s + [x]) == Sum(s) + x
  {
    assert (s + [x])[..|s + [x]| - 1] == s;
  }

  lemma CarriesLittle(e: End, op: Op)
    ensures Carried(e, op) <= MAX_PAYLOAD
  {
  }

  /** The counter never saturates: it is the bytes carried, or zero after a rekey of both directions. */
  lemma CountsExactly(e: End, op: Op)
    requires e.tally.bytes < REKEY_BYTES
    ensures var n := Carried(e, op);
      var t := After(e, op).tally;
      && (t.out.epoch == e.tally.out.epoch ==> t.bytes == e.tally.bytes + n && t.bytes < REKEY_BYTES)
      && (t.out.epoch != e.tally.out.epoch ==> t.bytes == 0 && t.out.epoch == e.tally.out.epoch + 1)
      && t.inn.epoch - e.tally.inn.epoch == t.out.epoch - e.tally.out.epoch
  {
    CarriesLittle(e, op);
  }

  /**
   Over every sequence of operations, failed ones included: the counter stays below the budget,
   no epoch carries more than the budget and one payload, the two directions are in the same
   epoch, and every byte is in exactly one epoch.
   */
  lemma {:induction false} BooksBalance(start: nat, ops: seq<Op>)
    ensures var d := Books(start, ops);
      && d.end.tally.bytes < REKEY_BYTES
      && (forall i :: 0 <= i < |d.epochs| ==> d.epochs[i] <= REKEY_BYTES - 1 + MAX_PAYLOAD)
      && d.end.tally.out.epoch == d.end.tally.inn.epoch == |d.epochs|
      && Sum(d.epochs) + d.end.tally.bytes == d.total
  {
    if ops != [] {
      var d := Books(start, ops[..|ops| - 1]);
      var op := ops[|ops| - 1];
      BooksBalance(start, ops[..|ops| - 1]);
      CarriesLittle(d.end, op);
      CountsExactly(d.end, op);
      SumSnoc(d.epochs, d.end.tally.bytes + Carried(d.end, op));
    }
  }

  // ---------- nonces ----------

  /** The keys under which frames were sealed, in order. */
  function SealedUnder(start: nat, ops: seq<Op>): seq<Cipher> {
    if ops == [] then [] else
    var before := ops[..|ops| - 1];
    var e := Books(start, before).end;
    match ops[|ops| - 1]
    case Encrypt(payload, now) =>
      (match Seal(e, payload, now)
       case Ok((_, f)) => SealedUnder(start, before) + [if f.Sealed? then f.key else e.tally.out]
       case Err(_) => SealedUnder(start, before))
    case Decrypt(_, _) => SealedUnder(start, before)
  }

  /** How many frames were opened. */
  function Opened(start: nat, ops: seq<Op>): nat {
    if ops == [] then 0 else
    var before, op := ops[..|ops| - 1], ops[|ops| - 1];
    Opened(start, before) + if op.Decrypt? && Open(Books(start, before).end, op.frame, op.now).Ok? then 1 else 0
  }

  /** A nonce is the number of frames that went before, in either direction, whatever the epochs. */
  lemma {:induction false} NoncesCount(start: nat, ops: seq<Op>)
    ensures var e, keys := Books(start, ops).end, SealedUnder(start, ops);
      && e.tally.out.nonce == |keys| && e.tally.inn.nonce == Opened(start, ops)
      && forall k | 0 <= k < |keys| :: keys[k].nonce == k
  {
    if ops != [] {
      NoncesCount(start, ops[..|ops| - 1]);
    }
  }

  /** So no two frames are ever sealed under one key and nonce. */
  lemma NoNonceTwice(start: nat, ops: seq<Op>, j: nat, k: nat)
    requires j < k < |SealedUnder(start, ops)|
    ensures SealedUnder(start, ops)[j] != SealedUnder(start, ops)[k]
  {
    NoncesCount(start, ops);
  }

  // ---------- what succeeds ----------

  /**
   The payload fits a frame with its tag, the nonces are not used up, and a frame to be opened was sealed
   under the key of the current epoch and the nonce that is due.
   */
  predicate Succeeds(start: nat, ops: seq<Op>, op: Op) {
    if op.Encrypt? then
      |op.payload| <= 65_519 && |SealedUnder(start, ops)| < U64_MAX
    else
      && op.frame.Sealed? && |op.frame.payload| <= 65_519 && Opened(start, ops) < U64_MAX
      && op.frame.key == Cipher(|Books(start, ops).epochs|, Opened(start, ops))
  }

  /** After any sequence of operations the next one succeeds exactly then; one that fails changes nothing. */
  lemma SucceedsExactly(start: nat, ops: seq<Op>, op: Op)
    ensures var e := Books(start, ops).end;
      if op.Encrypt? then
        var r := Seal(e, op.payload, op.now);
        && (r.Ok? <==> Succeeds(start, ops, op))
        && (r.Err? ==> r.error == if |op.payload| > 65_519 then TooLong else Exhausted)
      else
        var r := Open(e, op.frame, op.now);
        (r.Ok? <==> Succeeds(start, ops, op)) && (r.Ok? ==> r.value.1 == op.frame.payload)
    ensures !Succeeds(start, ops, op) ==>
      After(Books(start, ops).end, op) == Books(start, ops).end && Carried(Books(start, ops).end, op) == 0
  {
    BooksBalance(start, ops);
    NoncesCount(start, ops);
  }

  // ---------- when an end rekeys ----------

  /** The time of the last operation that changed the epoch, or of the handshake. */
  function LastChange(start: nat, ops: seq<Op>): nat {
    if ops == [] then start else
    var before := ops[..|ops| - 1];
    if Books(start, ops).end.tally.out.epoch != Books(start, before).end.tally.out.epoch then ops[|ops| - 1].now
    else LastChange(start, before)
  }

  lemma StartedMoves(e: End, op: Op)
    ensures var d := After(e, op);
      d.started == if d.tally.out.epoch != e.tally.out.epoch then op.now else e.started
  {
  }

  /** Over every sequence of operations the timer runs from the last change of keys. */
  lemma {:induction false} TimerRunsFromLastChange(start: nat, ops: seq<Op>)
    ensures Books(start, ops).end.started == LastChange(start, ops)
  {
    if ops != [] {
      TimerRunsFromLastChange(start, ops[..|ops| - 1]);
      StartedMoves(Books(start, ops[..|ops| - 1]).end, ops[|ops| - 1]);
    }
  }

  /**
   After any sequence of operations, the next one changes the keys if and only if it succeeds and either
   the epoch has carried the byte budget with it, all earlier epochs taken off the total, or it comes an
   hour or more after the last change.
   */
  lemma RekeysExactly(start: nat, ops: seq<Op>, op: Op)
    ensures var d := Books(start, ops);
      var bytes := d.total - Sum(d.epochs) + Carried(d.end, op);
      After(d.end, op).tally.out.epoch == d.end.tally.out.epoch + 1 <==>
        && Succeeds(start, ops, op)
        && (bytes >= 1_000_000_000 || SatSub(op.now, LastChange(start, ops)) >= 3_600_000_000_000)
  {
    BooksBalance(start, ops);
    TimerRunsFromLastChange(start, ops);
    SucceedsExactly(start, ops, op);
    CarriesLittle(Books(start, ops).end, op);
  }
}
