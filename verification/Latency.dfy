/** The latency estimator of the client: clock arithmetic that truncates, and a clamped correction loop. */
module Latency {

  datatype Time = Time(sec: int, nsec: int)

  predicate ValidTime(t: Time) { 0 <= t.nsec < 1_000_000_000 }

  function Nanos(t: Time): int { t.sec * 1_000_000_000 + t.nsec }

  /** The C quotient by 1000000000, which truncates toward zero. */
  function PerBillion(x: int): int {
    if x >= 0 then x / 1_000_000_000 else -((-x) / 1_000_000_000)
  }

  /** Bytes the server has played since `start`, as rsnd_drain counts them at `rate` bytes a second. */
  function Consumed(rate: nat, start: Time, now: Time): int {
    (now.sec - start.sec) * rate + PerBillion((now.nsec - start.nsec) * rate)
  }

  // ----- the clock -----

  lemma PerBillionBounds(x: int)
    ensures x >= 0 ==> 0 <= x - PerBillion(x) * 1_000_000_000 < 1_000_000_000
    ensures x < 0 ==> -1_000_000_000 < x - PerBillion(x) * 1_000_000_000 <= 0
  {
  }

  lemma Distribute(a: int, b: int, r: int)
    ensures (a + b) * r == a * r + b * r && (a - b) * r == a * r - b * r
  {
  }

  lemma ScaleOrder(a: int, b: int, r: nat)
    requires a <= b
    ensures a * r <= b * r
  {
    Distribute(b, a, r);
    assert (b - a) * r >= 0;
  }

  lemma SplitNanos(start: Time, now: Time, rate: nat)
    ensures (Nanos(now) - Nanos(start)) * rate
         == (now.sec - start.sec) * rate * 1_000_000_000 + (now.nsec - start.nsec) * rate
  {
    Distribute((now.sec - start.sec) * 1_000_000_000, now.nsec - start.nsec, rate);
  }

  /**
   The estimate is within one byte of elapsed time times rate, rounded down when the nanoseconds run forward
   and up when they run back.
   */
  lemma ConsumedWithinOneByte(rate: nat, start: Time, now: Time)
    ensures var exact := (Nanos(now) - Nanos(start)) * rate;
            var error := exact - Consumed(rate, start, now) * 1_000_000_000;
            if now.nsec >= start.nsec then 0 <= error < 1_000_000_000 else -1_000_000_000 < error <= 0
  {
    SplitNanos(start, now, rate);
    var rest := (now.nsec - start.nsec) * rate;
    PerBillionBounds(rest);
    if now.nsec >= start.nsec {
      ScaleOrder(0, now.nsec - start.nsec, rate);
    } else {
      ScaleOrder(now.nsec - start.nsec, 0, rate);
    }
  }

  /** The sub-second part is never more than a second's worth, and has the sign of the difference. */
  lemma SubsecondBounds(rate: nat, d: int)
    requires -1_000_000_000 < d < 1_000_000_000
    ensures d >= 0 ==> 0 <= PerBillion(d * rate) <= rate
    ensures d <= 0 ==> PerBillion(d * rate) <= 0 <= PerBillion(d * rate) + rate
  {
    ScaleOrder(-1_000_000_000, d, rate);
    ScaleOrder(d, 1_000_000_000, rate);
    if d >= 0 { ScaleOrder(0, d, rate); }
    if d <= 0 { ScaleOrder(d, 0, rate); }
    PerBillionBounds(d * rate);
  }

  lemma SameSecond(rate: nat, d: int, d': int)
    requires d <= d'
    ensures PerBillion(d * rate) <= PerBillion(d' * rate)
  {
    ScaleOrder(d, d', rate);
    PerBillionBounds(d * rate);
    PerBillionBounds(d' * rate);
  }

  /** Across a second boundary the sub-second part loses at most what the second brings. */
  lemma NextSecond(rate: nat, d: int, d': int)
    requires -1_000_000_000 < d < 1_000_000_000 && -1_000_000_000 < d' < 1_000_000_000
    requires d - d' < 1_000_000_000
    ensures PerBillion(d * rate) <= PerBillion(d' * rate) + rate
  {
    SubsecondBounds(rate, d);
    SubsecondBounds(rate, d');
    if d > 0 > d' {
      PerBillionBounds(d * rate);
      PerBillionBounds(d' * rate);
      Distribute(d, d', rate);
      ScaleOrder(d - d', 1_000_000_000, rate);
    }
  }

  /** The clock never makes the estimate run backward. */
  lemma ConsumedIsMonotone(rate: nat, start: Time, t: Time, t': Time)
    requires ValidTime(start) && ValidTime(t) && ValidTime(t')
    requires Nanos(t) <= Nanos(t')
    ensures Consumed(rate, start, t) <= Consumed(rate, start, t')
  {
    var d, d' := t.nsec - start.nsec, t'.nsec - start.nsec;
    if t.sec == t'.sec {
      SameSecond(rate, d, d');
    } else {
      NextSecond(rate, d, d');
      ScaleOrder(t.sec - start.sec + 1, t'.sec - start.sec, rate);
      Distribute(t.sec - start.sec, 1, rate);
    }
  }

  /** A sleep of `ms` milliseconds is counted in full, less at most two bytes. */
  lemma SleepIsCounted(rate: nat, start: Time, t: Time, t': Time, ms: nat)
    requires Nanos(t') - Nanos(t) >= ms * 1_000_000
    ensures 1000 * (Consumed(rate, start, t') - Consumed(rate, start, t)) > ms * rate - 2000
  {
    ConsumedWithinOneByte(rate, start, t);
    ConsumedWithinOneByte(rate, start, t');
    Distribute(Nanos(t') - Nanos(start), Nanos(t) - Nanos(start), rate);
    ScaleOrder(ms * 1_000_000, Nanos(t') - Nanos(t), rate);
    assert ms * 1_000_000 * rate == ms * rate * 1_000_000;
  }

  // ----- the reported delay -----

  function NotNegative(x: int): nat { if x < 0 then 0 else x }

  function Clamp(x: int, limit: int): int { if x < -limit then -limit else if x > limit then limit else x }

  function Distance(a: int, b: int): nat { if a < b then b - a else a - b }

  /** Milliseconds rsd_delay_wait sleeps when `ms` is the latency found. */
  function WaitMs(ms: nat, maxLatency: int): nat {
    if 0 < maxLatency < ms then ms - maxLatency else 0
  }

  function Millis(bytes: nat, rate: nat): nat
    requires rate > 0
  {
    bytes * 1000 / rate
  }

  lemma MillisBounds(bytes: nat, rate: nat)
    requires rate > 0
    ensures Millis(bytes, rate) * rate <= bytes * 1000 < (Millis(bytes, rate) + 1) * rate
  {
    Distribute(Millis(bytes, rate), 1, rate);
  }

  lemma QuotientBelow(x: nat, rate: nat, bound: nat, slack: nat)
    requires rate > 0 && x < bound * rate + slack
    ensures x / rate <= bound + slack / rate
  {
    var q, extra := x / rate, slack / rate;
    if q > bound + extra {
      ScaleOrder(bound + extra + 1, q, rate);
      Distribute(bound + extra, 1, rate);
      Distribute(bound, extra, rate);
    }
  }

  /**
   * The promise of rsd_delay_wait: once the server plays, and while no byte is written, the latency after the
   * sleep is at most a millisecond over the maximum, give or take the two bytes rounding may cost.
   * `held` counts the bytes written, on the wire or in the FIFO; `bias` is backend latency plus correction.
   */
  lemma WaitBoundsLatency(held: int, bias: int, rate: nat, start: Time, maxLatency: int, now: Time, later: Time)
    requires rate > 0 && maxLatency > 0
    requires ValidTime(start) && ValidTime(now) && ValidTime(later)
    requires var ms := Millis(NotNegative(held - Consumed(rate, start, now) + bias), rate);
             Nanos(later) >= Nanos(now) + WaitMs(ms, maxLatency) * 1_000_000
    ensures var ms' := Millis(NotNegative(held - Consumed(rate, start, later) + bias), rate);
            ms' <= maxLatency + 1 + 1999 / rate && (rate >= 2000 ==> ms' <= maxLatency + 1)
  {
    var c, c' := Consumed(rate, start, now), Consumed(rate, start, later);
    var d, d' := NotNegative(held - c + bias), NotNegative(held - c' + bias);
    var ms := Millis(d, rate);
    var slept := WaitMs(ms, maxLatency);
    MillisBounds(d, rate);
    ConsumedIsMonotone(rate, start, now, later);
    SleepIsCounted(rate, start, now, later, slept);
    assert d' * 1000 < (maxLatency + 1) * rate + 1999 by {
      ScaleOrder(ms + 1, slept + maxLatency + 1, rate);
      Distribute(slept, maxLatency + 1, rate);
      ScaleOrder(0, maxLatency + 1, rate);
      ScaleOrder(1, maxLatency + 1, rate);
      assert d' == 0 || d' == d - (c' - c) || d' <= d - (c' - c);
    }
    QuotientBelow(d' * 1000, rate, maxLatency + 1, 1999);
    if rate >= 2000 { SmallQuotient(1999, rate); }
  }

  lemma SmallQuotient(a: nat, b: nat)
    requires a < b
    ensures a / b == 0
  {
  }

  // ----- the correction loop -----

  /** One accepted update: the offset moves the estimate toward `delta`, by a chunk at most. */
  function Corrected(raw: int, delta: int, chunk: int): int {
    raw + Clamp(delta - NotNegative(raw), chunk)
  }

  function CorrectedTimes(raw: int, delta: int, chunk: int, k: nat): int
    decreases k
  {
    if k == 0 then raw else CorrectedTimes(Corrected(raw, delta, chunk), delta, chunk, k - 1)
  }

  /** Against a target that is not negative no number of updates makes the reported error larger. */
  lemma {:induction false} ErrorNeverGrows(raw: int, delta: nat, chunk: nat, k: nat)
    ensures Distance(delta, NotNegative(CorrectedTimes(raw, delta, chunk, k))) <= Distance(delta, NotNegative(raw))
    decreases k
  {
    if k > 0 {
      ErrorNeverGrows(Corrected(raw, delta, chunk), delta, chunk, k - 1);
    }
  }

  /** From an estimate that is not negative, `k` updates close `k` chunks of the distance and never overshoot. */
  lemma {:induction false} CorrectionConverges(raw: nat, delta: nat, chunk: nat, k: nat)
    ensures var raw' := CorrectedTimes(raw, delta, chunk, k);
            && Distance(delta, raw') == NotNegative(Distance(delta, raw) - k * chunk)
            && (raw <= raw' <= delta || delta <= raw' <= raw)
    decreases k
  {
    if k > 0 {
      CorrectionConverges(Corrected(raw, delta, chunk), delta, chunk, k - 1);
      Distribute(k - 1, 1, chunk);
      ScaleOrder(0, k - 1, chunk);
    }
  }

  /** Against a target below zero every update pushes the offset further down, for ever. */
  lemma {:induction false} CorrectionRunsAway(raw: int, delta: int, chunk: nat, k: nat)
    requires delta < 0 < chunk
    ensures CorrectedTimes(raw, delta, chunk, k) <= raw - k
    ensures NotNegative(CorrectedTimes(raw, delta, chunk, k)) != delta
    decreases k
  {
    if k > 0 {
      CorrectionRunsAway(Corrected(raw, delta, chunk), delta, chunk, k - 1);
    }
  }

  lemma {:induction false} CorrectionSettles(raw: int, delta: nat, chunk: nat) returns (k: nat)
    requires chunk > 0
    ensures NotNegative(CorrectedTimes(raw, delta, chunk, k)) == delta
    decreases Distance(delta, raw)
  {
    if NotNegative(raw) == delta {
      k := 0;
    } else {
      var rest := CorrectionSettles(Corrected(raw, delta, chunk), delta, chunk);
      k := rest + 1;
    }
  }

  /** Repeating one measurement brings the reported delay to it exactly when the measurement is not negative. */
  lemma CorrectionSettlesIff(raw: int, delta: int, chunk: nat)
    requires chunk > 0
    ensures (exists k: nat :: NotNegative(CorrectedTimes(raw, delta, chunk, k)) == delta) <==> delta >= 0
  {
    if delta >= 0 {
      var k := CorrectionSettles(raw, delta, chunk);
    } else {
      forall k: nat ensures NotNegative(CorrectedTimes(raw, delta, chunk, k)) != delta {
        CorrectionRunsAway(raw, delta, chunk, k);
      }
    }
  }

  /** A reply is used when both pointers are positive and the client pointer is behind, by less than four chunks. */
  predicate Accepts(written: int, client: int, server: int, chunk: int) {
    client > 0 && server > 0 && written - client < 4 * chunk && written > client
  }

  /** What a reply measures: bytes between client and server at its time, plus what waits in the FIFO now. */
  function Measured(client: int, server: int, queued: int): int { client - server + queued }

  /** An accepted reply can measure less than nothing: the server answers later than the client counted. */
  lemma NegativeMeasurementAccepted(chunk: nat)
    requires chunk > 0
    ensures Accepts(2, 1, 2, chunk) && Measured(1, 2, 0) < 0
  {
  }

  /**
   * After enough accepted updates the reported delay is short of the true backlog (every byte written or queued that
   * the server has not played) by less than four chunks, and never above it.
   */
  lemma SettledDelayNearBacklog(raw: nat, written: int, queued: nat, client: int, server: int, chunk: nat, k: nat)
    requires Accepts(written, client, server, chunk) && server <= client + queued
    requires Distance(Measured(client, server, queued), raw) <= k * chunk
    ensures var backlog := written + queued - server;
            0 < backlog - CorrectedTimes(raw, Measured(client, server, queued), chunk, k) < 4 * chunk
  {
    CorrectionConverges(raw, Measured(client, server, queued), chunk, k);
  }

  // ----- the state of the client -----

  /** The fields of rsound_t the estimator works on; `queued` is what rsnd_fifo_read_avail answers. */
  class Estimator {
    const rate: nat
    const chunk: nat
    const backendLatency: nat
    const maxLatency: int
    var written: int
    var queued: nat
    var hasWritten: bool
    var start: Time
    var bytesInBuffer: int
    var delayOffset: int
    var useLatency: bool

    constructor (rate: nat, chunk: nat, backendLatency: nat, maxLatency: int)
      requires rate > 0
      ensures this.rate == rate && this.chunk == chunk
      ensures this.backendLatency == backendLatency && this.maxLatency == maxLatency
      ensures !hasWritten && written == 0 && queued == 0 && delayOffset == 0 && !useLatency
      ensures forall now :: Raw(now) == backendLatency
    {
      this.rate, this.chunk, this.backendLatency, this.maxLatency := rate, chunk, backendLatency, maxLatency;
      written, queued, hasWritten, start := 0, 0, false, Time(0, 0);
      bytesInBuffer, delayOffset, useLatency := 0, 0, false;
    }

    /** The bytes believed to lie between the caller and the loudspeaker at `now`. */
    function InBuffer(now: Time): int
      reads this
    {
      if hasWritten then written + queued - Consumed(rate, start, now) else queued
    }

    function Raw(now: Time): int
      reads this
    {
      InBuffer(now) + backendLatency + delayOffset
    }

    /** rsnd_drain. */
    method Drain(now: Time)
      modifies `bytesInBuffer
      ensures bytesInBuffer == InBuffer(now)
    {
      if hasWritten {
        var temp := now.sec - start.sec;
        temp := temp * rate;
        var temp2 := now.nsec - start.nsec;
        temp2 := temp2 * rate;
        temp2 := PerBillion(temp2);
        temp := temp + temp2;
        bytesInBuffer := written + queued - temp;
      } else {
        bytesInBuffer := queued;
      }
    }

    /** rsnd_get_delay. */
    method GetDelay(now: Time) returns (ptr: nat)
      modifies `bytesInBuffer, `useLatency
      ensures ptr == NotNegative(Raw(now)) && useLatency
      ensures bytesInBuffer == InBuffer(now)
    {
      Drain(now);
      var p := bytesInBuffer + backendLatency;
      p := p + delayOffset;
      useLatency := true;
      ptr := if p < 0 then 0 else p;
    }

    /** rsd_delay_wait: the milliseconds it sleeps, zero when the latency is not over the maximum or none is set. */
    method DelayWait(now: Time) returns (slept: nat)
      requires rate > 0
      modifies `bytesInBuffer, `useLatency
      ensures slept == WaitMs(Millis(NotNegative(Raw(now)), rate), maxLatency)
      ensures delayOffset == old(delayOffset)
    {
      slept := 0;
      if maxLatency > 0 {
        var delay := GetDelay(now);
        var ms := delay * 1000 / rate;
        if maxLatency < ms {
          slept := ms - maxLatency;
        }
      }
    }

    /** The end of rsnd_update_server_info, with the pointers of the last reply read, -1 if there was none. */
    method UpdateServerInfo(client: int, server: int, now: Time)
      modifies `bytesInBuffer, `useLatency, `delayOffset
      ensures Raw(now) == if Accepts(written, client, server, chunk)
                          then Corrected(old(Raw(now)), Measured(client, server, queued), chunk)
                          else old(Raw(now))
      ensures 0 < client && 0 < server && 0 < written - client < 4 * chunk ==>
                var missing := client - server + queued - old(NotNegative(Raw(now)));
                var moved := delayOffset - old(delayOffset);
                if -(chunk as int) <= missing <= chunk then moved == missing
                else moved == if missing > 0 then chunk else -(chunk as int)
      ensures !(0 < client && 0 < server && 0 < written - client < 4 * chunk) ==> delayOffset == old(delayOffset)
    {
      if client > 0 && server > 0 {
        var delay := GetDelay(now);
        var delta := client - server;
        delta := delta + queued;
        if written - client < 4 * chunk && written > client {
          var offsetDelta, maxOffset := delta - delay, chunk;
          if offsetDelta < -(maxOffset as int) {
            offsetDelta := -(maxOffset as int);
          } else if offsetDelta > maxOffset {
            offsetDelta := maxOffset;
          }
          delayOffset := delayOffset + offsetDelta;
        }
      }
    }

    /** The worker took `rc` bytes from the FIFO and sent them; the first send starts the clock. */
    method ChunkSent(now: Time, rc: nat)
      requires ValidTime(now) && rc <= queued
      modifies `queued, `hasWritten, `start, `written
      ensures hasWritten && written == old(written) + rc && queued == old(queued) - rc
      ensures old(hasWritten) ==> start == old(start) && Raw(now) == old(Raw(now))
      ensures !old(hasWritten) ==> start == now && Raw(now) == old(Raw(now)) + old(written)
    {
      queued := queued - rc;
      if !hasWritten {
        start := now;
        hasWritten := true;
      }
      written := written + rc;
    }
  }

  /** The delay a caller sees after rsd_delay_wait, in the terms of the state it left. */
  lemma DelayAfterWait(e: Estimator, now: Time, slept: nat, later: Time)
    requires e.rate > 0 && e.maxLatency > 0 && ValidTime(e.start) && ValidTime(now) && ValidTime(later)
    requires slept == WaitMs(Millis(NotNegative(e.Raw(now)), e.rate), e.maxLatency)
    requires Nanos(later) >= Nanos(now) + slept * 1_000_000
    ensures e.hasWritten ==> Millis(NotNegative(e.Raw(later)), e.rate) <= e.maxLatency + 1 + 1999 / e.rate
    ensures !e.hasWritten ==> Millis(NotNegative(e.Raw(later)), e.rate) == e.maxLatency + slept
                              || (slept == 0 && Millis(NotNegative(e.Raw(later)), e.rate) <= e.maxLatency)
  {
    if e.hasWritten {
      WaitBoundsLatency(e.written + e.queued, e.backendLatency + e.delayOffset,
                        e.rate, e.start, e.maxLatency, now, later);
    }
  }
}
