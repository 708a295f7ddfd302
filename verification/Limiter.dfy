/**
 The token bucket in front of the embedding endpoint, over real-valued time. Attempts of all threads
 run one after another under the bucket's lock and read a monotonic clock inside it, so a history
 is a sequence of nondecreasing clock readings.
 */
module Limiter {
  import opened Stores

  datatype Bucket = Bucket(allowance: real, last: real)

  /** How much a bucket holds, and how much drips in between two readings. */
  datatype Rate = Rate(capacity: real, drip: (real, real) -> real)

  function Capacity(rps: real): real {
    if 1.0 >= rps then 1.0 else rps
  }

  function RateOf(rps: real): Rate {
    Rate(Capacity(rps), (from: real, to: real) => (to - from) * rps)
  }

  /** All the bounds need of a rate: room for a token, and dripping that adds up. */
  ghost predicate Fair(rate: Rate) {
    && rate.capacity >= 1.0
    && (forall a, b | a <= b :: rate.drip(a, b) >= 0.0)
    && (forall a, b, c :: rate.drip(a, b) + rate.drip(b, c) == rate.drip(a, c))
  }

  lemma Distribute(a: real, b: real, c: real, rps: real)
    ensures (b - a) * rps + (c - b) * rps == (c - a) * rps
  {
  }

  lemma MulNonneg(x: real, y: real)
    requires x >= 0.0 && y >= 0.0
    ensures x * y >= 0.0
  {
  }

  lemma RateIsFair(rps: real)
    requires rps > 0.0
    ensures Fair(RateOf(rps))
  {
    var drip := RateOf(rps).drip;
    forall a, b | a <= b ensures drip(a, b) >= 0.0 { MulNonneg(b - a, rps); }
    forall a, b, c ensures drip(a, b) + drip(b, c) == drip(a, c) { Distribute(a, b, c, rps); }
  }

  function Refilled(b: Bucket, rate: Rate, now: real): Bucket {
    var more := b.allowance + rate.drip(b.last, now);
    Bucket(if rate.capacity <= more then rate.capacity else more, now)
  }

  predicate Grants(b: Bucket, rate: Rate, now: real) {
    Refilled(b, rate, now).allowance >= 1.0
  }

  /** One pass of the loop in `_take_token`. */
  function Attempt(b: Bucket, rate: Rate, now: real): Bucket {
    var r := Refilled(b, rate, now);
    if r.allowance >= 1.0 then r.(allowance := r.allowance - 1.0) else r
  }

  /** Clock readings never go back, starting from the bucket's last one. */
  predicate Monotonic(last: real, times: seq<real>) {
    && (forall i | 0 <= i < |times| :: last <= times[i])
    && (forall i, j | 0 <= i <= j < |times| :: times[i] <= times[j])
  }

  /** The bucket after attempts at these times. */
  function After(b: Bucket, rate: Rate, times: seq<real>): Bucket {
    if times == [] then b else Attempt(After(b, rate, times[..|times| - 1]), rate, times[|times| - 1])
  }

  /** How many of them were granted. */
  function Granted(b: Bucket, rate: Rate, times: seq<real>): nat {
    if times == [] then 0
    else
      var n := |times| - 1;
      Granted(b, rate, times[..n]) + (if Grants(After(b, rate, times[..n]), rate, times[n]) then 1 else 0)
  }

  /** The allowance stays between zero and the capacity. */
  predicate Sane(b: Bucket, rate: Rate) {
    0.0 <= b.allowance <= rate.capacity
  }

  function LastOf(b: Bucket, times: seq<real>): real {
    if times == [] then b.last else times[|times| - 1]
  }

  lemma {:induction false} StaysSane(b: Bucket, rate: Rate, times: seq<real>)
    requires Fair(rate) && Sane(b, rate) && Monotonic(b.last, times)
    ensures Sane(After(b, rate, times), rate) && After(b, rate, times).last == LastOf(b, times)
  {
    if times != [] { StaysSane(b, rate, times[..|times| - 1]); }
  }

  /** Tokens granted plus tokens left never exceed the start allowance plus what has dripped in since. */
  lemma {:induction false} GrantedIsPaidFor(b: Bucket, rate: Rate, times: seq<real>)
    requires Fair(rate) && Sane(b, rate) && Monotonic(b.last, times)
    ensures Granted(b, rate, times) as real + After(b, rate, times).allowance
              <= b.allowance + rate.drip(b.last, LastOf(b, times))
  {
    if times == [] {
      assert rate.drip(b.last, b.last) >= 0.0;
    } else {
      var n := |times| - 1;
      var past := times[..n];
      StaysSane(b, rate, past);
      GrantedIsPaidFor(b, rate, past);
      assert rate.drip(b.last, LastOf(b, past)) + rate.drip(LastOf(b, past), times[n]) == rate.drip(b.last, times[n]);
    }
  }

  lemma {:induction false} AfterAdds(b: Bucket, rate: Rate, past: seq<real>, times: seq<real>)
    ensures After(b, rate, past + times) == After(After(b, rate, past), rate, times)
    ensures Granted(b, rate, past + times) == Granted(b, rate, past) + Granted(After(b, rate, past), rate, times)
  {
    if times == [] {
      assert past + times == past;
    } else {
      var n := |times| - 1;
      AfterAdds(b, rate, past, times[..n]);
      assert (past + times)[..|past + times| - 1] == past + times[..n];
    }
  }

  /** Whatever had accumulated, a first attempt leaves at most the capacity, its own token included. */
  lemma FirstAttempt(b: Bucket, rate: Rate, now: real)
    ensures Granted(b, rate, [now]) as real + After(b, rate, [now]).allowance <= rate.capacity
  {
    assert [now][..0] == [];
  }

  lemma {:induction false} WindowPaid(b: Bucket, rate: Rate, window: seq<real>)
    requires Fair(rate) && Sane(b, rate) && window != [] && Monotonic(b.last, window)
    ensures Granted(b, rate, window) as real <= rate.capacity + rate.drip(window[0], window[|window| - 1])
  {
    var first, rest := After(b, rate, [window[0]]), window[1..];
    assert window == [window[0]] + rest;
    StaysSane(b, rate, [window[0]]);
    FirstAttempt(b, rate, window[0]);
    AfterAdds(b, rate, [window[0]], rest);
    assert Monotonic(first.last, rest);
    GrantedIsPaidFor(first, rate, rest);
    StaysSane(first, rate, rest);
    assert LastOf(first, rest) == window[|window| - 1];
  }

  lemma WindowInHistory(rate: Rate, start: real, past: seq<real>, window: seq<real>)
    requires Fair(rate) && window != [] && Monotonic(start, past + window)
    ensures
      var b := After(Bucket(rate.capacity, start), rate, past);
      Granted(b, rate, window) as real <= rate.capacity + rate.drip(window[0], window[|window| - 1])
  {
    var full := Bucket(rate.capacity, start);
    var times := past + window;
    assert forall i | 0 <= i < |past| :: past[i] == times[i];
    assert forall i | 0 <= i < |window| :: window[i] == times[|past| + i];
    StaysSane(full, rate, past);
    WindowPaid(After(full, rate, past), rate, window);
  }

  lemma WindowWithin(rate: Rate, start: real, past: seq<real>, window: seq<real>, paid: real)
    requires Fair(rate) && window != [] && Monotonic(start, past + window)
    requires rate.drip(window[0], window[|window| - 1]) <= paid
    ensures
      var b := After(Bucket(rate.capacity, start), rate, past);
      Granted(b, rate, window) as real <= rate.capacity + paid
  {
    WindowInHistory(rate, start, past, window);
  }

  lemma DripWithin(rps: real, from: real, to: real, length: real)
    requires rps > 0.0 && to - from <= length
    ensures RateOf(rps).drip(from, to) <= length * rps
  {
    Scale(to - from, length, rps);
  }

  /**
   In every history from a full bucket and every window of length `length`, at most
   max(1, rps) + rps * length slots are granted.
   */
  lemma WindowBound(rps: real, start: real, past: seq<real>, window: seq<real>, length: real)
    requires rps > 0.0 && window != [] && Monotonic(start, past + window)
    requires window[|window| - 1] - window[0] <= length
    ensures
      var b := After(Bucket(RateOf(rps).capacity, start), RateOf(rps), past);
      Granted(b, RateOf(rps), window) as real <= (if rps > 1.0 then rps else 1.0) + length * rps
  {
    RateIsFair(rps);
    DripWithin(rps, window[0], window[|window| - 1], length);
    WindowWithin(RateOf(rps), start, past, window, length * rps);
  }

  /** `n` attempts at one moment. */
  function Burst(now: real, n: nat): (times: seq<real>)
    ensures |times| == n && forall i | 0 <= i < n :: times[i] == now
  {
    seq(n, i => now)
  }

  lemma {:induction false} BurstTakes(b: Bucket, rate: Rate, now: real, n: nat)
    requires rate.capacity >= 1.0 && rate.drip(now, now) == 0.0
    requires b.allowance + rate.drip(b.last, now) >= rate.capacity
    ensures
      var whole := rate.capacity.Floor;
      var taken := if n <= whole then n else whole;
      && Granted(b, rate, Burst(now, n)) == taken
      && (n > 0 ==> After(b, rate, Burst(now, n)) == Bucket(rate.capacity - taken as real, now))
  {
    if n > 0 {
      var times := Burst(now, n);
      assert times[..n - 1] == Burst(now, n - 1);
      BurstTakes(b, rate, now, n - 1);
      assert times[n - 1] == now;
    }
  }

  /**
   The other side of the bound: a bucket that was left alone long enough to fill, the first one among
   them, grants at one moment exactly as many of `n` attempts as whole tokens fit into max(1, rps).
   */
  lemma BurstExactly(b: Bucket, rps: real, now: real, n: nat)
    requires rps > 0.0 && b.allowance + (now - b.last) * rps >= (if rps > 1.0 then rps else 1.0)
    ensures
      var whole := (if rps > 1.0 then rps else 1.0).Floor;
      Granted(b, RateOf(rps), Burst(now, n)) == if n <= whole then n else whole
  {
    BurstTakes(b, RateOf(rps), now, n);
  }

  lemma Scale(a: real, b: real, rps: real)
    requires rps > 0.0
    ensures a <= b <==> a * rps <= b * rps
  {
  }

  /** How long a refused caller sleeps. */
  function Wait(b: Bucket, rps: real): real
    requires rps > 0.0
  {
    (1.0 - b.allowance) / rps
  }

  lemma WaitTimesRate(missing: real, rps: real)
    requires rps > 0.0
    ensures (missing / rps) * rps == missing
  {
  }

  /** A token is back when what was missing has dripped in. */
  lemma GrantsWhenPaid(b: Bucket, rps: real, later: real)
    requires rps > 0.0
    ensures Grants(b, RateOf(rps), later) <==> (later - b.last) * rps >= 1.0 - b.allowance
  {
  }

  /** That is exactly as long as the missing part of a token takes to drip in. */
  lemma WaitIsExact(b: Bucket, rps: real, now: real, later: real)
    requires rps > 0.0 && !Grants(b, RateOf(rps), now)
    ensures
      var refused := Attempt(b, RateOf(rps), now);
      Wait(refused, rps) > 0.0 && (Grants(refused, RateOf(rps), later) <==> later >= now + Wait(refused, rps))
  {
    var refused := Attempt(b, RateOf(rps), now);
    var wait := Wait(refused, rps);
    WaitTimesRate(1.0 - refused.allowance, rps);
    GrantsWhenPaid(refused, rps, later);
    Scale(wait, later - now, rps);
    Scale(wait, 0.0, rps);
  }

  // ---- the classes

  class EmbeddingLimiter {
    const slots: nat
    const rps: real
    var allowance: real
    var lastRefill: real
    var held: nat

    ghost predicate Valid()
      reads this
    {
      held <= slots && slots >= 1 && (rps > 0.0 ==> Sane(View(), RateOf(rps)))
    }

    function View(): Bucket
      reads this
    {
      Bucket(allowance, lastRefill)
    }

    constructor (concurrency: int, rps: real, now: real)
      ensures Valid() && this.rps == rps && held == 0
      ensures allowance == (if rps > 1.0 then rps else 1.0) && lastRefill == now
      ensures slots == if concurrency > 1 then concurrency else 1
    {
      slots := if concurrency > 1 then concurrency else 1;
      this.rps := rps;
      allowance, lastRefill, held := Capacity(rps), now, 0;
    }

    /**
     `_take_token` with the clock readings of its passes, one per pass; the answer is how many were
     used, None when they run out with the caller still waiting.
     */
    method TakeToken(readings: seq<real>) returns (passes: Option<nat>)
      requires Valid() && Monotonic(lastRefill, readings)
      modifies this`allowance, this`lastRefill
      ensures Valid()
      ensures rps <= 0.0 ==> passes == Some(0) && View() == old(View())
      ensures rps > 0.0 ==>
                var used := if passes.Some? then passes.value else |readings|;
                && used <= |readings| && View() == After(old(View()), RateOf(rps), readings[..used])
                && Granted(old(View()), RateOf(rps), readings[..used]) == (if passes.Some? then 1 else 0)
                && lastRefill == LastOf(old(View()), readings[..used])
    {
      if rps <= 0.0 { return Some(0); }
      ghost var b := View();
      for i := 0 to |readings|
        invariant View() == After(b, RateOf(rps), readings[..i]) && Granted(b, RateOf(rps), readings[..i]) == 0
      {
        assert readings[..i + 1][..i] == readings[..i];
        var granted := Pass(readings[i]);
        if granted {
          StaySane(b, readings[..i + 1]);
          return Some(i + 1);
        }
      }
      assert readings[..|readings|] == readings;
      StaySane(b, readings);
      passes := None;
    }

    /** One pass: refill, and take a token if there is one. */
    method Pass(now: real) returns (granted: bool)
      modifies this`allowance, this`lastRefill
      ensures granted <==> Grants(old(View()), RateOf(rps), now)
      ensures View() == Attempt(old(View()), RateOf(rps), now)
    {
      var more := allowance + (now - lastRefill) * rps;
      allowance := if Capacity(rps) <= more then Capacity(rps) else more;
      lastRefill := now;
      granted := allowance >= 1.0;
      if granted { allowance := allowance - 1.0; }
    }

    lemma StaySane(b: Bucket, times: seq<real>)
      requires rps > 0.0 && Sane(b, RateOf(rps)) && Monotonic(b.last, times)
      ensures Sane(After(b, RateOf(rps), times), RateOf(rps)) && After(b, RateOf(rps), times).last == LastOf(b, times)
    {
      RateIsFair(rps);
      StaysSane(b, RateOf(rps), times);
    }

    /** The semaphore: false when every slot is taken. */
    method Enter() returns (entered: bool)
      requires Valid()
      modifies this`held
      ensures Valid() && (entered <==> old(held) < slots)
      ensures held == if entered then old(held) + 1 else old(held)
    {
      entered := held < slots;
      if entered { held := held + 1; }
    }

    method Exit()
      requires Valid() && held > 0
      modifies this`held
      ensures Valid() && held == old(held) - 1
    {
      held := held - 1;
    }
  }

  // ---- batching

  /** The batches the texts from `start` on are sent in. */
  function Batched<V>(embed: seq<string> -> seq<V>, texts: seq<string>, step: nat, start: nat): seq<V>
    requires step > 0
    decreases |texts| + step - start
  {
    if start >= |texts| then []
    else
      var end := if start + step <= |texts| then start + step else |texts|;
      embed(texts[start..end]) + Batched(embed, texts, step, start + step)
  }

  /** The embedder gives each text its vector. */
  ghost predicate Pointwise<V>(embed: seq<string> -> seq<V>, vector: string -> V) {
    forall texts: seq<string> ::
      |embed(texts)| == |texts| && forall i | 0 <= i < |texts| :: embed(texts)[i] == vector(texts[i])
  }

  /** Every text from `start` on has its own vector, in order. */
  ghost predicate VectorsOf<V>(vectors: seq<V>, vector: string -> V, texts: seq<string>, start: nat) {
    |vectors| + start == |texts| && forall i | 0 <= i < |vectors| :: vectors[i] == vector(texts[start + i])
  }

  lemma BatchedUnfolds<V>(embed: seq<string> -> seq<V>, texts: seq<string>, step: nat, start: nat, end: nat)
    requires step > 0 && start < |texts| && end == if start + step <= |texts| then start + step else |texts|
    ensures Batched(embed, texts, step, start) == embed(texts[start..end]) + Batched(embed, texts, step, end)
  {
  }

  lemma BatchIsPointwise<V>(embed: seq<string> -> seq<V>, vector: string -> V, texts: seq<string>, start: nat, end: nat)
    requires start <= end <= |texts| && Pointwise(embed, vector)
    ensures VectorsOf(embed(texts[start..end]), vector, texts[..end], start)
  {
  }

  lemma Spliced<V>(vector: string -> V, texts: seq<string>, start: nat, end: nat, part: seq<V>, rest: seq<V>)
    requires end <= |texts| && VectorsOf(part, vector, texts[..end], start) && VectorsOf(rest, vector, texts, end)
    ensures VectorsOf(part + rest, vector, texts, start)
  {
    forall i | 0 <= i < |part + rest| ensures (part + rest)[i] == vector(texts[start + i]) {
      if i < |part| { assert texts[..end][start + i] == texts[start + i]; }
      else { assert (part + rest)[i] == rest[i - |part|]; }
    }
  }

  /** Batching through slots gives every text its own vector, in order, whatever the batch size. */
  lemma {:induction false} BatchingIsInvisible<V>(embed: seq<string> -> seq<V>, vector: string -> V, texts: seq<string>,
                                                  step: nat, start: nat)
    requires step > 0 && start <= |texts| && Pointwise(embed, vector)
    ensures VectorsOf(Batched(embed, texts, step, start), vector, texts, start)
    decreases |texts| - start
  {
    if start < |texts| {
      var end := if start + step <= |texts| then start + step else |texts|;
      BatchingIsInvisible(embed, vector, texts, step, end);
      BatchedUnfolds(embed, texts, step, start, end);
      BatchIsPointwise(embed, vector, texts, start, end);
      Spliced(vector, texts, start, end, embed(texts[start..end]), Batched(embed, texts, step, end));
    }
  }

  /** The number of batches from `start` on. */
  function Batches(count: nat, step: nat, start: nat): nat
    requires step > 0
    decreases count + step - start
  {
    if start >= count then 0 else 1 + Batches(count, step, start + step)
  }

  /** As few as hold all texts. */
  lemma {:induction false} BatchesSuffice(count: nat, step: nat, start: nat)
    requires step > 0
    ensures
      var batches := Batches(count, step, start);
      count <= start + batches * step && (batches > 0 ==> start + (batches - 1) * step < count)
    decreases count + step - start
  {
    if start < count {
      BatchesSuffice(count, step, start + step);
      var rest := Batches(count, step, start + step);
      assert (1 + rest) * step == step + rest * step;
      if rest > 0 { assert rest * step == step + (rest - 1) * step; }
    }
  }

  lemma NextBatch<V>(embed: seq<string> -> seq<V>, texts: seq<string>, step: nat, start: nat, vectors: seq<V>)
    requires step > 0 && start < |texts|
    ensures
      var end := if start + step <= |texts| then start + step else |texts|;
      vectors + Batched(embed, texts, step, start) ==
        (vectors + embed(texts[start..end])) + Batched(embed, texts, step, start + step)
  {
  }

  /** Slots taken and readings used up so far, against the bucket at the start. */
  ghost predicate Paid(b: Bucket, limiter: EmbeddingLimiter, readings: seq<real>, used: nat, tokens: nat)
    reads limiter
  {
    && used <= |readings|
    && if limiter.rps <= 0.0 then used == 0 && limiter.View() == b
       else
         var times := readings[..used];
         limiter.View() == After(b, RateOf(limiter.rps), times) && limiter.lastRefill == LastOf(b, times)
         && Granted(b, RateOf(limiter.rps), times) == tokens
  }

  lemma RestIsMonotonic(b: Bucket, readings: seq<real>, used: nat)
    requires used <= |readings| && Monotonic(b.last, readings)
    ensures Monotonic(LastOf(b, readings[..used]), readings[used..])
  {
  }

  lemma PaysOnce(rps: real, b: Bucket, readings: seq<real>, used: nat, more: nat)
    requires used + more <= |readings|
    ensures
      var first, all := readings[..used], readings[..used + more];
      var middle := After(b, RateOf(rps), first);
      && After(b, RateOf(rps), all) == After(middle, RateOf(rps), readings[used..][..more])
      && Granted(b, RateOf(rps), all) ==
           Granted(b, RateOf(rps), first) + Granted(middle, RateOf(rps), readings[used..][..more])
  {
    assert readings[..used + more] == readings[..used] + readings[used..][..more];
    AfterAdds(b, RateOf(rps), readings[..used], readings[used..][..more]);
  }

  /** Entering `slot()`: a place and, where a rate is set, a token. */
  method EnterSlot(limiter: EmbeddingLimiter, readings: seq<real>, used: nat, ghost b: Bucket, ghost tokens: nat)
    returns (passes: Option<nat>)
    requires limiter.Valid() && limiter.held < limiter.slots
    requires Monotonic(b.last, readings) && Paid(b, limiter, readings, used, tokens)
    modifies limiter`held, limiter`allowance, limiter`lastRefill
    ensures limiter.Valid() && limiter.held == old(limiter.held) + 1
    ensures
      if passes.Some? then
        used + passes.value <= |readings| && Paid(b, limiter, readings, used + passes.value, tokens + 1)
      else limiter.rps > 0.0 && Paid(b, limiter, readings, |readings|, tokens)
  {
    var entered := limiter.Enter();
    RestIsMonotonic(b, readings, used);
    passes := limiter.TakeToken(readings[used..]);
    ghost var more := if passes.Some? then passes.value else |readings| - used;
    PaysOnce(limiter.rps, b, readings, used, more);
  }

  /**
   `embed_all` with the clock readings its slots are given at: one slot and, where a rate is set,
   one token per batch. The answer is None when the readings run out with a batch still waiting in
   its slot.
   */
  method EmbedAll<V>(embed: seq<string> -> seq<V>, limiter: EmbeddingLimiter, texts: seq<string>, batchSize: int,
                     readings: seq<real>)
    returns (answer: Option<seq<V>>, slots: nat, used: nat)
    requires limiter.Valid() && limiter.held < limiter.slots && Monotonic(limiter.lastRefill, readings)
    modifies limiter`held, limiter`allowance, limiter`lastRefill
    ensures limiter.Valid()
    ensures
      var step := if batchSize > 1 then batchSize else 1;
      if answer.Some? then
        && answer.value == Batched(embed, texts, step, 0) && slots == Batches(|texts|, step, 0)
        && limiter.held == old(limiter.held) && Paid(old(limiter.View()), limiter, readings, used, slots)
      else
        && limiter.rps > 0.0 && used == |readings| && 0 < slots <= Batches(|texts|, step, 0)
        && limiter.held == old(limiter.held) + 1 && Paid(old(limiter.View()), limiter, readings, used, slots - 1)
  {
    var step := if batchSize > 1 then batchSize else 1;
    ghost var b := limiter.View();
    var vectors: seq<V> := [];
    var start := 0;
    slots, used := 0, 0;
    while start < |texts|
      invariant limiter.Valid() && limiter.held == old(limiter.held)
      invariant 0 <= start && Paid(b, limiter, readings, used, slots)
      invariant slots + Batches(|texts|, step, start) == Batches(|texts|, step, 0)
      invariant vectors + Batched(embed, texts, step, start) == Batched(embed, texts, step, 0)
    {
      var end := if start + step <= |texts| then start + step else |texts|;
      var passes := EnterSlot(limiter, readings, used, b, slots);
      slots := slots + 1;
      if passes.None? { return None, slots, |readings|; }
      used := used + passes.value;
      NextBatch(embed, texts, step, start, vectors);
      vectors := vectors + embed(texts[start..end]);
      limiter.Exit();
      start := start + step;
    }
    answer := Some(vectors);
  }
}
