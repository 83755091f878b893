/** The token bucket: up to `rate` tokens, refilled at `rate` tokens a second, one taken per grant.
 *
 * The limiter's lock makes each pass of `acquire` atomic, so any interleaving of acquirers is a
 * sequence of passes, each at the clock reading it took; the clock never goes back.
 */
module RateLimiter {
  import opened Prelude

  datatype Bucket = Bucket(rate: real, tokens: real, updatedAt: real)

  /** The tokens that time adds. */
  function Inflow(rate: real, seconds: real): real { seconds * rate }

  lemma InflowAdds(rate: real, x: real, y: real)
    ensures Inflow(rate, x + y) == Inflow(rate, x) + Inflow(rate, y)
  {
  }

  lemma InflowGrows(rate: real, x: real, y: real)
    requires rate > 0.0
    ensures x <= y <==> Inflow(rate, x) <= Inflow(rate, y)
    ensures x >= 0.0 <==> Inflow(rate, x) >= 0.0
  {
  }

  predicate Sound(b: Bucket) { b.rate > 0.0 && 0.0 <= b.tokens <= b.rate }

  function Minimum(x: real, y: real): real { if x <= y then x else y }

  function Refill(b: Bucket, now: real): Bucket {
    b.(tokens := Minimum(b.rate, b.tokens + Inflow(b.rate, now - b.updatedAt)), updatedAt := now)
  }

  /** Does a pass at `now` find a token? */
  predicate Granted(b: Bucket, now: real) { Refill(b, now).tokens >= 1.0 }

  function Pass(b: Bucket, now: real): Bucket {
    var r := Refill(b, now);
    if Granted(b, now) then r.(tokens := r.tokens - 1.0) else r
  }

  /** How long a refused acquirer sleeps. */
  function Wait(b: Bucket): real
    requires b.rate != 0.0
  {
    (1.0 - b.tokens) / b.rate
  }

  ghost predicate Monotone(start: real, clock: seq<real>) {
    && (forall i :: 0 <= i < |clock| ==> start <= clock[i])
    && (forall i, j :: 0 <= i < j < |clock| ==> clock[i] <= clock[j])
  }

  /** The bucket after passes at the given readings. */
  function After(b: Bucket, clock: seq<real>): Bucket {
    if clock == [] then b else Pass(After(b, clock[..|clock| - 1]), clock[|clock| - 1])
  }

  /** How many of those passes are granted. */
  function Grants(b: Bucket, clock: seq<real>): nat {
    if clock == [] then 0
    else
      var n := |clock| - 1;
      Grants(b, clock[..n]) + if Granted(After(b, clock[..n]), clock[n]) then 1 else 0
  }

  /** Tokens lost because the bucket was already full. */
  function Spilled(b: Bucket, clock: seq<real>): real {
    if clock == [] then 0.0
    else
      var n := |clock| - 1;
      var last := After(b, clock[..n]);
      Spilled(b, clock[..n])
      + (last.tokens + Inflow(last.rate, clock[n] - last.updatedAt) - Refill(last, clock[n]).tokens)
  }

  function LastReading(b: Bucket, clock: seq<real>): real {
    if clock == [] then b.updatedAt else clock[|clock| - 1]
  }

  lemma PassKeepsValid(b: Bucket, now: real)
    requires Sound(b) && b.updatedAt <= now
    ensures Sound(Pass(b, now)) && Pass(b, now).rate == b.rate && Pass(b, now).updatedAt == now
    ensures b.tokens <= Refill(b, now).tokens
  {
    InflowGrows(b.rate, 0.0, now - b.updatedAt);
    hide Inflow;
  }

  lemma MonotonePrefix(start: real, clock: seq<real>)
    requires Monotone(start, clock) && clock != []
    ensures Monotone(start, clock[..|clock| - 1])
  {
  }

  /** The number of tokens stays between zero and the rate, whoever passes and whenever. */
  lemma {:induction false} TokensStayInRange(b: Bucket, clock: seq<real>)
    requires Sound(b) && Monotone(b.updatedAt, clock)
    ensures Sound(After(b, clock)) && After(b, clock).rate == b.rate
    ensures After(b, clock).updatedAt == LastReading(b, clock)
  {
    if clock != [] {
      var n := |clock| - 1;
      MonotonePrefix(b.updatedAt, clock);
      TokensStayInRange(b, clock[..n]);
      PassKeepsValid(After(b, clock[..n]), clock[n]);
    }
  }

  /** Every token is accounted for: what was there and what time added is still there, was granted,
   *  or was spilled. */
  lemma {:induction false} TokensAreConserved(b: Bucket, clock: seq<real>)
    requires Sound(b) && Monotone(b.updatedAt, clock)
    ensures b.tokens + Inflow(b.rate, LastReading(b, clock) - b.updatedAt)
         == After(b, clock).tokens + Grants(b, clock) as real + Spilled(b, clock)
    ensures Spilled(b, clock) >= 0.0
  {
    InflowAdds(b.rate, 0.0, 0.0);
    hide Inflow;
    if clock != [] {
      var n := |clock| - 1;
      MonotonePrefix(b.updatedAt, clock);
      TokensAreConserved(b, clock[..n]);
      TokensStayInRange(b, clock[..n]);
      var t, u := LastReading(b, clock[..n]), clock[n];
      InflowAdds(b.rate, t - b.updatedAt, u - t);
    }
  }

  lemma {:induction false} AfterAppend(b: Bucket, a: seq<real>, c: seq<real>)
    ensures After(b, a + c) == After(After(b, a), c)
    ensures Grants(b, a + c) == Grants(b, a) + Grants(After(b, a), c)
  {
    if c == [] {
      assert a + c == a;
    } else {
      var n := |a| + |c| - 1;
      assert (a + c)[..n] == a + c[..|c| - 1];
      AfterAppend(b, a, c[..|c| - 1]);
    }
  }

  /** From a first pass at t, at most rate + rate * (last - t) passes are granted. */
  lemma BurstBound(b: Bucket, clock: seq<real>)
    requires Sound(b) && clock != [] && Monotone(b.updatedAt, clock)
    ensures Grants(b, clock) as real <= b.rate + Inflow(b.rate, clock[|clock| - 1] - clock[0])
  {
    InflowGrows(b.rate, 0.0, clock[0] - b.updatedAt);
    hide Inflow;
    var full := Refill(b, clock[0]);
    RefillTwice(b, clock);
    TokensAreConserved(full, clock);
    TokensStayInRange(full, clock);
  }

  /** Refilling first changes nothing: the first pass refills at the same reading. */
  lemma {:induction false} RefillTwice(b: Bucket, clock: seq<real>)
    requires Sound(b) && clock != [] && Monotone(b.updatedAt, clock)
    ensures After(Refill(b, clock[0]), clock) == After(b, clock)
    ensures Grants(Refill(b, clock[0]), clock) == Grants(b, clock)
    decreases |clock|
  {
    var n := |clock| - 1;
    InflowAdds(b.rate, 0.0, 0.0);
    hide Inflow;
    if n > 0 {
      MonotonePrefix(b.updatedAt, clock);
      RefillTwice(b, clock[..n]);
    } else {
      assert clock[..n] == [];
      assert Refill(Refill(b, clock[0]), clock[0]) == Refill(b, clock[0]);
    }
  }

  lemma MonotoneParts(start: real, clock: seq<real>, i: nat, j: nat)
    requires Monotone(start, clock) && i < j <= |clock|
    ensures Monotone(start, clock[..i])
    ensures Monotone(if i == 0 then start else clock[i - 1], clock[i..j])
  {
  }

  /** Any window of a run that lasts T seconds has at most rate + rate * T grants in it. */
  lemma WindowBound(b: Bucket, clock: seq<real>, i: nat, j: nat, T: real)
    requires Sound(b) && Monotone(b.updatedAt, clock) && i < j <= |clock|
    requires clock[j - 1] - clock[i] <= T
    ensures (Grants(b, clock[..j]) - Grants(b, clock[..i])) as real <= b.rate + Inflow(b.rate, T)
  {
    hide Inflow, After, Grants, Pass, Granted, Spilled;
    var before, window := clock[..i], clock[i..j];
    assert clock[..j] == before + window;
    MonotoneParts(b.updatedAt, clock, i, j);
    hide Monotone;
    AfterAppend(b, before, window);
    TokensStayInRange(b, before);
    BurstBound(After(b, before), window);
    InflowGrows(b.rate, clock[j - 1] - clock[i], T);
  }

  /** After a refusal, and if nobody else passes meanwhile, the next pass is granted exactly when
   *  the computed wait has elapsed and the rate is at least one. */
  lemma WaitIsExact(b: Bucket, now: real, later: real)
    requires Sound(b) && b.updatedAt <= now <= later && !Granted(b, now)
    ensures Granted(Pass(b, now), later) <==> b.rate >= 1.0 && later >= now + Wait(Pass(b, now))
  {
    PassKeepsValid(b, now);
    var r := Pass(b, now);
    WaitRefills(r.rate, r.tokens);
    InflowGrows(b.rate, Wait(r), later - now);
    hide Inflow, Wait;
  }

  lemma WaitRefills(rate: real, tokens: real)
    requires rate > 0.0
    ensures tokens + Inflow(rate, (1.0 - tokens) / rate) == 1.0
    ensures tokens < 1.0 ==> (1.0 - tokens) / rate > 0.0
  {
  }

  /** Below one request a second nothing is ever granted: the bucket cannot hold a whole token. */
  lemma {:induction false} NothingGrantedBelowOne(b: Bucket, clock: seq<real>)
    requires Sound(b) && b.rate < 1.0
    ensures Grants(b, clock) == 0 && After(b, clock).rate == b.rate
  {
    if clock != [] {
      NothingGrantedBelowOne(b, clock[..|clock| - 1]);
    }
  }

  /** A limiter can grant at all exactly when its rate is at least one. */
  lemma SomeGrantPossibleIff(rate: real, start: real)
    requires rate > 0.0
    ensures rate >= 1.0 <==>
      exists clock: seq<real> :: Monotone(start, clock) && Grants(Bucket(rate, rate, start), clock) > 0
  {
    var b := Bucket(rate, rate, start);
    if rate >= 1.0 {
      var clock := [start];
      assert clock[..0] == [] && Grants(b, clock) == 1 && Monotone(start, clock);
    } else {
      forall clock: seq<real> | Monotone(start, clock)
        ensures Grants(b, clock) == 0
      {
        NothingGrantedBelowOne(b, clock);
      }
    }
  }

  /** Tokens are lost only by a refill that fills the bucket to the rate. */
  lemma {:induction false} SpilledOnlyWhenFull(b: Bucket, clock: seq<real>)
    requires Sound(b) && Monotone(b.updatedAt, clock)
    ensures Spilled(b, clock) > 0.0 ==>
      exists k :: 0 <= k < |clock| && Refill(After(b, clock[..k]), clock[k]).tokens == b.rate
  {
    if clock != [] {
      var n := |clock| - 1;
      MonotonePrefix(b.updatedAt, clock);
      SpilledOnlyWhenFull(b, clock[..n]);
      TokensStayInRange(b, clock[..n]);
      hide Inflow;
      if Spilled(b, clock[..n]) > 0.0 {
        var k :| 0 <= k < n && Refill(After(b, clock[..n][..k]), clock[..n][k]).tokens == b.rate;
        assert clock[..n][..k] == clock[..k];
      } else if Spilled(b, clock) > 0.0 {
        assert Refill(After(b, clock[..n]), clock[n]).tokens == b.rate;
      }
    }
  }

  function AtOnce(now: real, n: nat): (clock: seq<real>)
    ensures |clock| == n
  {
    seq(n, _ => now)
  }

  /** After a second or more without passes the bucket is full: of n passes made at once exactly the first
   *  so many are granted as there are whole tokens in the rate. */
  lemma {:induction false} FullBurst(b: Bucket, now: real, n: nat)
    requires Sound(b) && now >= b.updatedAt + 1.0
    ensures Grants(b, AtOnce(now, n)) == Min(n, b.rate.Floor)
    ensures n > 0 ==> After(b, AtOnce(now, n)).updatedAt == now
    ensures n > 0 ==> After(b, AtOnce(now, n)).tokens == b.rate - Grants(b, AtOnce(now, n)) as real
    ensures After(b, AtOnce(now, n)).rate == b.rate
  {
    InflowGrows(b.rate, 1.0, now - b.updatedAt);
    assert Inflow(b.rate, 1.0) == b.rate;
    InflowAdds(b.rate, 0.0, 0.0);
    hide Inflow;
    if n > 0 {
      assert AtOnce(now, n)[..n - 1] == AtOnce(now, n - 1);
      FullBurst(b, now, n - 1);
    }
  }

  class TokenBucketRateLimiter {
    const rate: real
    var tokens: real
    var updatedAt: real
    ghost const start: Bucket        // as constructed
    ghost var passes: seq<real>      // the readings of all passes so far, by whichever acquirer

    ghost function State(): Bucket
      reads this
    {
      Bucket(rate, tokens, updatedAt)
    }

    ghost predicate Valid()
      reads this
    {
      && Sound(start)
      && start.rate == rate
      && Monotone(start.updatedAt, passes)
      && State() == After(start, passes)
      && updatedAt == LastReading(start, passes)
    }

    /** A rate that is not positive is refused. */
    static method Create(ratePerSecond: real, now: real) returns (r: Option<TokenBucketRateLimiter>)
      ensures r.None? <==> ratePerSecond <= 0.0
      ensures r.Some? ==> fresh(r.value) && r.value.Valid() && r.value.passes == []
      ensures r.Some? ==> r.value.State() == Bucket(ratePerSecond, ratePerSecond, now)
    {
      if ratePerSecond <= 0.0 {
        return None;
      }
      var limiter := new TokenBucketRateLimiter.Full(ratePerSecond, now);
      r := Some(limiter);
    }

    constructor Full(ratePerSecond: real, now: real)
      requires ratePerSecond > 0.0
      ensures Valid() && passes == [] && State() == Bucket(ratePerSecond, ratePerSecond, now)
    {
      rate := ratePerSecond;
      tokens := ratePerSecond;
      updatedAt := now;
      start := Bucket(ratePerSecond, ratePerSecond, now);
      passes := [];
    }

    /** One pass through the locked section: granted, or how long to sleep. */
    method TryAcquire(now: real) returns (granted: bool, waitTime: real)
      requires Valid() && updatedAt <= now
      modifies this
      ensures Valid() && passes == old(passes) + [now] && updatedAt == now
      ensures granted <==> Granted(old(State()), now)
      ensures State() == Pass(old(State()), now)
      ensures 0.0 <= tokens <= rate
      ensures Grants(start, passes) == Grants(start, old(passes)) + if granted then 1 else 0
      ensures !granted ==> waitTime > 0.0 && waitTime == Wait(State())
    {
      TokensStayInRange(start, passes);
      PassKeepsValid(State(), now);
      hide Inflow;
      var elapsed := now - updatedAt;
      tokens := Minimum(rate, tokens + Inflow(rate, elapsed));
      updatedAt := now;
      assert (passes + [now])[..|passes|] == passes;
      passes := passes + [now];
      if tokens >= 1.0 {
        tokens := tokens - 1.0;
        return true, 0.0;
      }
      WaitRefills(rate, tokens);
      waitTime := (1.0 - tokens) / rate;
      granted := false;
    }

    /** `acquire` by a caller nobody interrupts, at the clock readings it takes on waking; it gives
     *  up only when the readings do.  A second pass suffices if it slept as long as it computed. */
    method Acquire(clock: seq<real>) returns (granted: bool, used: nat)
      requires Valid() && Monotone(updatedAt, clock)
      modifies this
      ensures Valid() && used <= |clock| && passes == old(passes) + clock[..used]
      ensures Grants(start, passes) == Grants(start, old(passes)) + if granted then 1 else 0
      ensures !granted ==> used == |clock|
      ensures rate < 1.0 ==> !granted
      ensures rate >= 1.0 && |clock| >= 2 && clock[1] >= clock[0] + Wait(Pass(old(State()), clock[0])) ==>
        granted && used <= 2
    {
      hide After, Grants, Pass, Granted, Inflow, Wait;
      used, granted := 0, false;
      if clock != [] {
        TokensStayInRange(start, passes);
        PassKeepsValid(State(), clock[0]);
      }
      while used < |clock|
        invariant used <= |clock| && !granted && Valid()
        invariant passes == old(passes) + clock[..used]
        invariant forall i :: used <= i < |clock| ==> updatedAt <= clock[i]
        invariant Grants(start, passes) == Grants(start, old(passes))
        invariant used == 0 ==> State() == old(State())
        invariant used == 1 ==> !Granted(old(State()), clock[0]) && State() == Pass(old(State()), clock[0])
        invariant used >= 2 ==>
          !(rate >= 1.0 && clock[1] >= clock[0] + Wait(Pass(old(State()), clock[0])))
      {
        var now := clock[used];
        assert clock[..used + 1] == clock[..used] + [now];
        if used == 1 {
          TokensStayInRange(start, old(passes));
          WaitIsExact(old(State()), clock[0], now);
        }
        var waitTime;
        granted, waitTime := TryAcquire(now);
        used := used + 1;
        if granted {
          if rate < 1.0 { NothingGrantedBelowOne(start, passes); }
          return;
        }
        assert passes[..|passes| - 1] + [now] == passes;
      }
      assert clock[..used] == clock;
    }
  }
}
