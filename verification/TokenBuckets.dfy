// The shared rate limiter: a token bucket kept in Redis, one key a caller, that expires
// when it has not been used for a while.
module TokenBuckets {
  import opened Wrappers

  // Sustained calls a second, and the capacity.
  datatype Params = Params(rate: real, burst: int)

  predicate ValidParams(p: Params) {
    p.rate > 0.0 && p.burst >= 0
  }

  // The hash stored under a key; ts is in milliseconds.
  datatype Bucket = Bucket(tokens: real, ts: int)

  function Min(a: real, b: real): real {
    if a <= b then a else b
  }

  // What a span of milliseconds refills.
  function Gain(p: Params, ms: int): real {
    (ms as real / 1000.0) * p.rate
  }

  // The tokens there are at now, before the call takes one.
  function Level(p: Params, data: Option<Bucket>, now: int): real {
    match data
    case None => p.burst as real
    case Some(b) =>
      Min(p.burst as real, b.tokens + Gain(p, if now > b.ts then now - b.ts else 0))
  }

  // The whole script for one key: the answer and the bucket written back.
  function Step(p: Params, data: Option<Bucket>, now: int): (bool, Bucket) {
    var level := Level(p, data, now);
    if level >= 1.0 then (true, Bucket(level - 1.0, now)) else (false, Bucket(level, now))
  }

  ghost predicate InRange(p: Params, b: Bucket) {
    0.0 <= b.tokens <= p.burst as real
  }

  ghost predicate Sound(p: Params, data: Option<Bucket>) {
    data.Some? ==> InRange(p, data.value)
  }

  lemma GainIsMonotone(p: Params, a: int, b: int)
    requires ValidParams(p) && a <= b
    ensures Gain(p, a) <= Gain(p, b)
    ensures Gain(p, 0) == 0.0
  {
    var x, y := a as real / 1000.0, b as real / 1000.0;
    assert y * p.rate - x * p.rate == (y - x) * p.rate;
  }

  lemma GainAdds(p: Params, a: int, b: int)
    ensures Gain(p, a + b) == Gain(p, a) + Gain(p, b)
  {
    var x, y := a as real / 1000.0, b as real / 1000.0;
    assert (a + b) as real / 1000.0 == x + y;
    assert (x + y) * p.rate == x * p.rate + y * p.rate;
  }

  // Whatever the clock does, a bucket never holds fewer than none or more than burst.
  lemma StepKeepsRange(p: Params, data: Option<Bucket>, now: int)
    requires ValidParams(p) && Sound(p, data)
    ensures InRange(p, Step(p, data, now).1)
    ensures 0.0 <= Level(p, data, now) <= p.burst as real
  {
    if data.Some? {
      GainIsMonotone(p, 0, if now > data.value.ts then now - data.value.ts else 0);
    }
  }

  // ---- Expiry ----

  function Ceil(x: real): int {
    if x.Floor as real == x then x.Floor else x.Floor + 1
  }

  function Ttl(p: Params): int
    requires ValidParams(p)
  {
    Ceil(p.burst as real / p.rate * 1000.0) + SLACK
  }

  // The time to live outlasts the refill by this much, in milliseconds.
  const SLACK: int := 1000

  lemma ProductIsMonotone(a: real, b: real, r: real)
    requires a >= b && r >= 0.0
    ensures a * r >= b * r
  {
    assert (a - b) * r >= 0.0;
  }

  lemma QuotientTimes(a: real, r: real)
    requires r > 0.0
    ensures (a / r) * r == a
    ensures a >= 0.0 ==> a / r >= 0.0
  {
  }

  lemma TtlOutlastsRefill(p: Params, ms: int)
    requires ValidParams(p) && ms >= Ttl(p) - SLACK
    ensures ms >= 0 && ms as real / 1000.0 >= p.burst as real / p.rate
  {
    var full := p.burst as real / p.rate;
    QuotientTimes(p.burst as real, p.rate);
    assert Ceil(full * 1000.0) as real >= full * 1000.0;
    assert ms as real >= full * 1000.0;
  }

  // A bucket untouched for its time to live is full, even by a clock that saw a second less.
  lemma ExpiredIsFull(p: Params, b: Bucket, now: int)
    requires ValidParams(p) && InRange(p, b) && now >= b.ts + Ttl(p) - SLACK
    ensures Level(p, Some(b), now) == p.burst as real
  {
    var ms := now - b.ts;
    TtlOutlastsRefill(p, ms);
    QuotientTimes(p.burst as real, p.rate);
    ProductIsMonotone(ms as real / 1000.0, p.burst as real / p.rate, p.rate);
    assert Gain(p, ms) >= p.burst as real;
  }

  // Losing a bucket changes nothing exactly when it would have been full.
  lemma DropIsInvisibleIffFull(p: Params, b: Bucket, now: int)
    requires ValidParams(p)
    ensures Step(p, None, now) == Step(p, Some(b), now) <==> Level(p, Some(b), now) == p.burst as real
  {
  }

  // ---- Runs on one key ----

  // What Redis holds under a key, and until when by its own clock.
  datatype Entry = Entry(bucket: Bucket, expires: int)

  function Lookup(entry: Option<Entry>, at: int): Option<Bucket> {
    if entry.Some? && at <= entry.value.expires then Some(entry.value.bucket) else None
  }

  // A call at now by its caller's clock, which is at by the server's.
  function Touch(p: Params, entry: Option<Entry>, now: int, at: int): (bool, Entry)
    requires ValidParams(p)
  {
    var (allowed, b) := Step(p, Lookup(entry, at), now);
    (allowed, Entry(b, at + Ttl(p)))
  }

  // The answers of a run of calls, with keys expiring, and the entry left.
  function Run(p: Params, times: seq<int>, at: seq<int>): (r: (seq<bool>, Option<Entry>))
    requires ValidParams(p) && |at| == |times|
    ensures |r.0| == |times|
  {
    if times == [] then ([], None)
    else
      var (answers, entry) := Run(p, times[..|times| - 1], at[..|times| - 1]);
      var (allowed, entry') := Touch(p, entry, times[|times| - 1], at[|times| - 1]);
      (answers + [allowed], Some(entry'))
  }

  // The same run against a bucket that is kept for ever.
  function Kept(p: Params, times: seq<int>): (r: (seq<bool>, Option<Bucket>))
    ensures |r.0| == |times|
  {
    if times == [] then ([], None)
    else
      var (answers, data) := Kept(p, times[..|times| - 1]);
      var (allowed, b) := Step(p, data, times[|times| - 1]);
      (answers + [allowed], Some(b))
  }

  lemma {:induction false} KeptIsSound(p: Params, times: seq<int>)
    requires ValidParams(p)
    ensures Sound(p, Kept(p, times).1)
  {
    if times != [] {
      KeptIsSound(p, times[..|times| - 1]);
      StepKeepsRange(p, Kept(p, times[..|times| - 1]).1, times[|times| - 1]);
    }
  }

  lemma {:induction false} LastTouch(p: Params, times: seq<int>, at: seq<int>)
    requires ValidParams(p) && |at| == |times| && times != []
    ensures var e := Run(p, times, at).1; e.Some? && e.value.bucket.ts == times[|times| - 1]
    ensures Run(p, times, at).1.value.expires == at[|times| - 1] + Ttl(p)
  {
  }

  // The key has expired when the i-th call comes.
  predicate Expires(p: Params, at: seq<int>, i: nat)
    requires ValidParams(p) && i < |at|
  {
    i > 0 && at[i] - at[i - 1] > Ttl(p)
  }

  // The answers are those of a bucket kept for ever, and so is the bucket left.
  ghost predicate SameAsKept(p: Params, times: seq<int>, at: seq<int>)
    requires ValidParams(p) && |at| == |times|
  {
    && Run(p, times, at).0 == Kept(p, times).0
    && (times != [] ==> Run(p, times, at).1.value.bucket == Kept(p, times).1.value)
  }

  // The kept bucket is full when the i-th call comes, if the key has expired by then.
  ghost predicate FullIfExpired(p: Params, times: seq<int>, at: seq<int>, i: nat)
    requires ValidParams(p) && |at| == |times| && i < |times|
  {
    Expires(p, at, i) ==> Level(p, Kept(p, times[..i]).1, times[i]) == p.burst as real
  }

  ghost predicate FullWhenExpired(p: Params, times: seq<int>, at: seq<int>)
    requires ValidParams(p) && |at| == |times|
  {
    forall i :: 0 <= i < |times| ==> FullIfExpired(p, times, at, i)
  }

  lemma KeptIsSome(p: Params, times: seq<int>)
    requires times != []
    ensures Kept(p, times).1.Some? && Kept(p, times).1.value.ts == times[|times| - 1]
  {
  }

  lemma FullSoFar(p: Params, times: seq<int>, at: seq<int>, n: nat)
    requires ValidParams(p) && |at| == |times| == n + 1
    ensures FullWhenExpired(p, times, at) <==> FullWhenExpired(p, times[..n], at[..n]) && FullIfExpired(p, times, at, n)
  {
    forall i | 0 <= i < n ensures FullIfExpired(p, times[..n], at[..n], i) <==> FullIfExpired(p, times, at, i) {
      assert times[..n][..i] == times[..i];
    }
  }

  // One call more on top of a run that agrees.
  lemma CallAgreesIff(p: Params, times: seq<int>, at: seq<int>, n: nat)
    requires ValidParams(p) && |at| == |times| == n + 1
    requires SameAsKept(p, times[..n], at[..n])
    ensures SameAsKept(p, times, at) <==> FullIfExpired(p, times, at, n)
  {
    if n > 0 {
      var b := Kept(p, times[..n]).1.value;
      LastTouch(p, times[..n], at[..n]);
      DropIsInvisibleIffFull(p, b, times[n]);
      assert Run(p, times, at).0[n] == Touch(p, Run(p, times[..n], at[..n]).1, times[n], at[n]).0;
      assert Kept(p, times).0[n] == Step(p, Some(b), times[n]).0;
    }
  }

  // Expiry is invisible in a run and all its beginnings exactly when the bucket would have
  // been full whenever its key had expired.
  lemma {:induction false} ExpiryIsInvisibleIffFull(p: Params, times: seq<int>, at: seq<int>)
    requires ValidParams(p) && |at| == |times|
    ensures (forall n :: 0 <= n <= |times| ==> SameAsKept(p, times[..n], at[..n])) <==> FullWhenExpired(p, times, at)
  {
    if times != [] {
      var n := |times| - 1;
      ExpiryIsInvisibleIffFull(p, times[..n], at[..n]);
      FullSoFar(p, times, at, n);
      assert times[..n + 1] == times && at[..n + 1] == at;
      assert forall m :: 0 <= m <= n ==> times[..n][..m] == times[..m] && at[..n][..m] == at[..m];
      if SameAsKept(p, times[..n], at[..n]) {
        CallAgreesIff(p, times, at, n);
      }
    }
  }

  // Between two calls far enough apart for the key to expire, the callers' clocks fall
  // behind the server's by a second at most.
  ghost predicate Tolerated(p: Params, times: seq<int>, at: seq<int>)
    requires ValidParams(p) && |at| == |times|
  {
    forall i :: 0 <= i < |times| && Expires(p, at, i) ==> times[i] - times[i - 1] >= at[i] - at[i - 1] - SLACK
  }

  // Then expiry is invisible.
  lemma ExpiryIsInvisible(p: Params, times: seq<int>, at: seq<int>)
    requires ValidParams(p) && |at| == |times| && Tolerated(p, times, at)
    ensures Run(p, times, at).0 == Kept(p, times).0
    ensures times != [] ==> Run(p, times, at).1.value.bucket == Kept(p, times).1.value
  {
    forall i | 0 <= i < |times| ensures FullIfExpired(p, times, at, i) {
      if Expires(p, at, i) {
        KeptIsSound(p, times[..i]);
        KeptIsSome(p, times[..i]);
        ExpiredIsFull(p, Kept(p, times[..i]).1.value, times[i]);
      }
    }
    ExpiryIsInvisibleIffFull(p, times, at);
    assert times[..|times|] == times && at[..|times|] == at;
  }

  // Otherwise it can show: with a burst of one, a second call passes although by the
  // callers' clocks no time went by, once the server's has let the key expire.
  lemma LaggingCallersGetMore(p: Params, now: int, now': int, at: int, at': int)
    requires ValidParams(p) && p.burst == 1 && now' <= now && at' - at > Ttl(p)
    ensures Run(p, [now, now'], [at, at']).0 == [true, true]
    ensures Kept(p, [now, now']).0 == [true, false]
  {
    GainIsMonotone(p, 0, 0);
    assert [now, now'][..1] == [now] && [at, at'][..1] == [at] && [now][..0] == [] && [at][..0] == [];
    assert Run(p, [now], [at]) == ([] + [true], Some(Entry(Bucket(0.0, now), at + Ttl(p))));
    assert Kept(p, [now]) == ([] + [true], Some(Bucket(0.0, now)));
    assert Step(p, None, now') == (true, Bucket(0.0, now'));
    assert Step(p, Some(Bucket(0.0, now)), now') == (false, Bucket(0.0, now'));
  }

  // ---- How much gets through ----

  function Count(answers: seq<bool>, from: nat): nat
    requires from <= |answers|
  {
    if from == |answers| then 0
    else Count(answers[..|answers| - 1], from) + if answers[|answers| - 1] then 1 else 0
  }

  function Up(from: int, to: int): nat {
    if to > from then to - from else 0
  }

  // How far the clock went up since call i, whatever it went back in between.
  function Travel(times: seq<int>, i: nat, now: int): nat
    requires i <= |times|
  {
    if i == |times| then 0
    else
      var last := times[|times| - 1];
      Travel(times[..|times| - 1], i, last) + Up(last, now)
  }

  // What is left at now of the budget burst + rate * travel of the interval that starts
  // with call i, once the calls allowed since are taken off.
  function Budget(p: Params, times: seq<int>, i: nat, now: int): real
    requires i <= |times|
  {
    p.burst as real + Gain(p, Travel(times, i, now)) - Count(Kept(p, times).0, i) as real
  }

  // The tokens at now are the least budget over all intervals ending there, for any clock.
  lemma {:induction false} LevelIsLeastBudget(p: Params, times: seq<int>, now: int)
    requires ValidParams(p)
    ensures forall i :: 0 <= i <= |times| ==> Level(p, Kept(p, times).1, now) <= Budget(p, times, i, now)
    ensures exists i :: 0 <= i <= |times| && Level(p, Kept(p, times).1, now) == Budget(p, times, i, now)
  {
    GainIsMonotone(p, 0, 0);
    assert Budget(p, times, |times|, now) == p.burst as real;
    if times != [] {
      var init, last := times[..|times| - 1], times[|times| - 1];
      LevelIsLeastBudget(p, init, last);
      forall i | 0 <= i < |times| ensures Budget(p, times, i, now) == Carried(p, times, Budget(p, init, i, last), now) {
        BudgetStep(p, times, i, now);
      }
      LevelStep(p, times, now);
      var least :| 0 <= least <= |init| && Level(p, Kept(p, init).1, last) == Budget(p, init, least, last);
      assert Budget(p, times, least, now) == Carried(p, times, Budget(p, init, least, last), now);
      var level := Level(p, Kept(p, times).1, now);
      assert level == Budget(p, times, least, now) || level == Budget(p, times, |times|, now);
    }
  }

  // A quantity just before the last call, after that call and the refill up to now.
  function Carried(p: Params, times: seq<int>, before: real, now: int): real
    requires times != []
  {
    before - (if Kept(p, times).0[|times| - 1] then 1.0 else 0.0) + Gain(p, Up(times[|times| - 1], now))
  }

  lemma BudgetStep(p: Params, times: seq<int>, i: nat, now: int)
    requires i < |times|
    ensures var init, last := times[..|times| - 1], times[|times| - 1];
            Budget(p, times, i, now) == Carried(p, times, Budget(p, init, i, last), now)
  {
    var init, last := times[..|times| - 1], times[|times| - 1];
    var answers := Kept(p, times).0;
    assert answers[..|answers| - 1] == Kept(p, init).0;
    GainAdds(p, Travel(init, i, last), Up(last, now));
  }

  lemma LevelStep(p: Params, times: seq<int>, now: int)
    requires times != []
    ensures var init, last := times[..|times| - 1], times[|times| - 1];
            Level(p, Kept(p, times).1, now)
              == Min(p.burst as real, Carried(p, times, Level(p, Kept(p, init).1, last), now))
  {
  }

  // A call is allowed exactly when, over every interval of the run that ends with it, the
  // calls allowed so far and this one fit into burst + rate * travel.
  lemma AllowedIffEveryIntervalFits(p: Params, times: seq<int>, now: int)
    requires ValidParams(p)
    ensures Step(p, Kept(p, times).1, now).0 <==> forall i :: 0 <= i <= |times| ==> Budget(p, times, i, now) >= 1.0
  {
    LevelIsLeastBudget(p, times, now);
  }

  // Hence, on any clocks under which expiry is invisible, the calls allowed from call i to
  // the last one number at most burst + rate * how far the callers' clock went up in between.
  lemma AllowedIsBounded(p: Params, times: seq<int>, at: seq<int>, i: nat)
    requires ValidParams(p) && |at| == |times| && Tolerated(p, times, at) && i < |times|
    ensures Count(Run(p, times, at).0, i) as real <= p.burst as real + Gain(p, Travel(times, i, times[|times| - 1]))
  {
    var now := times[|times| - 1];
    ExpiryIsInvisible(p, times, at);
    LevelIsLeastBudget(p, times, now);
    KeptIsSound(p, times);
    StepKeepsRange(p, Kept(p, times).1, now);
    assert Level(p, Kept(p, times).1, now) <= Budget(p, times, i, now);
  }

  // How often the key expired after call i.
  function Expiries(p: Params, at: seq<int>, i: nat): nat
    requires ValidParams(p) && i < |at|
  {
    if i == |at| - 1 then 0
    else Expiries(p, at[..|at| - 1], i) + if Expires(p, at, |at| - 1) then 1 else 0
  }

  lemma {:induction false} RunIsSound(p: Params, times: seq<int>, at: seq<int>)
    requires ValidParams(p) && |at| == |times| && times != []
    ensures Run(p, times, at).1.Some? && InRange(p, Run(p, times, at).1.value.bucket)
  {
    var n := |times| - 1;
    if n > 0 {
      RunIsSound(p, times[..n], at[..n]);
    }
    StepKeepsRange(p, Lookup(Run(p, times[..n], at[..n]).1, at[n]), times[n]);
  }

  lemma TravelGrows(times: seq<int>, i: nat, n: nat)
    requires |times| == n + 1 && i < n
    ensures Travel(times, i, times[n]) == Travel(times[..n], i, times[n - 1]) + Up(times[n - 1], times[n])
  {
  }

  // What the last call finds is what the one before it left, refilled, and at most a burst
  // more if the key expired.
  lemma FoundAtLast(p: Params, times: seq<int>, at: seq<int>, n: nat)
    requires ValidParams(p) && |at| == |times| == n + 1 && n > 0
    ensures Run(p, times[..n], at[..n]).1.Some?
    ensures Level(p, Lookup(Run(p, times[..n], at[..n]).1, at[n]), times[n])
         <= Run(p, times[..n], at[..n]).1.value.bucket.tokens + Gain(p, Up(times[n - 1], times[n]))
          + if Expires(p, at, n) then p.burst as real else 0.0
  {
    RunIsSound(p, times[..n], at[..n]);
    LastTouch(p, times[..n], at[..n]);
    GainIsMonotone(p, 0, Up(times[n - 1], times[n]));
  }

  // The calls allowed since call i and the tokens left, on any clocks at all.
  lemma {:induction false} SpentIsBounded(p: Params, times: seq<int>, at: seq<int>, i: nat)
    requires ValidParams(p) && |at| == |times| && i < |times|
    ensures Run(p, times, at).1.Some?
    ensures Count(Run(p, times, at).0, i) as real + Run(p, times, at).1.value.bucket.tokens
         <= p.burst as real + Bursts(p, Expiries(p, at, i)) + Gain(p, Travel(times, i, times[|times| - 1]))
  {
    var n := |times| - 1;
    var answers := Run(p, times, at).0;
    assert answers[..n] == Run(p, times[..n], at[..n]).0;
    var level := Level(p, Lookup(Run(p, times[..n], at[..n]).1, at[n]), times[n]);
    assert answers[n] == (level >= 1.0);
    if i == n {
      if n > 0 {
        RunIsSound(p, times[..n], at[..n]);
      }
      StepKeepsRange(p, Lookup(Run(p, times[..n], at[..n]).1, at[n]), times[n]);
      GainIsMonotone(p, 0, 0);
    } else {
      SpentIsBounded(p, times[..n], at[..n], i);
      FoundAtLast(p, times, at, n);
      TravelGrows(times, i, n);
      GainAdds(p, Travel(times[..n], i, times[n - 1]), Up(times[n - 1], times[n]));
    }
  }

  // That many full buckets.
  function Bursts(p: Params, n: nat): real {
    if n == 0 then 0.0 else Bursts(p, n - 1) + p.burst as real
  }

  // On any clocks at all the bound is a burst more for every time the key expired.
  lemma AllowedIsBoundedByExpiries(p: Params, times: seq<int>, at: seq<int>, i: nat)
    requires ValidParams(p) && |at| == |times| && i < |times|
    ensures Count(Run(p, times, at).0, i) as real
         <= p.burst as real + Bursts(p, Expiries(p, at, i)) + Gain(p, Travel(times, i, times[|times| - 1]))
  {
    SpentIsBounded(p, times, at, i);
    RunIsSound(p, times, at);
  }

  ghost predicate NonDecreasing(times: seq<int>) {
    forall i, j :: 0 <= i < j < |times| ==> times[i] <= times[j]
  }

  // The travel is the plain length of an interval exactly when the clock never stepped back
  // in it; otherwise it is longer.
  lemma {:induction false} TravelIsLengthIff(times: seq<int>, i: nat, now: int)
    requires i < |times|
    ensures Travel(times, i, now) >= now - times[i]
    ensures Travel(times, i, now) == now - times[i] <==> NonDecreasing(times[i..] + [now])
  {
    var init, last := times[..|times| - 1], times[|times| - 1];
    var path := times[i..] + [now];
    if i == |times| - 1 {
      assert path == [last] + [now];
      OneMoreTime([last], now);
    } else {
      TravelIsLengthIff(init, i, last);
      assert path == (init[i..] + [last]) + [now];
      OneMoreTime(init[i..] + [last], now);
    }
  }

  lemma OneMoreTime(path: seq<int>, now: int)
    requires path != []
    ensures NonDecreasing(path + [now]) <==> NonDecreasing(path) && path[|path| - 1] <= now
  {
    var all := path + [now];
    if NonDecreasing(all) {
      assert all[|path| - 1] == path[|path| - 1] && all[|path|] == now;
      forall i, j | 0 <= i < j < |path| ensures path[i] <= path[j] {
        assert all[i] == path[i] && all[j] == path[j];
      }
    }
  }

  // So while the callers' clock does not step back, and lags within the tolerance, the calls
  // allowed in an interval number at most burst + rate * its length.
  lemma AllowedIsBoundedByLength(p: Params, times: seq<int>, at: seq<int>, i: nat)
    requires ValidParams(p) && |at| == |times| && Tolerated(p, times, at) && NonDecreasing(times) && i < |times|
    ensures Count(Run(p, times, at).0, i) as real <= p.burst as real + Gain(p, times[|times| - 1] - times[i])
  {
    var now := times[|times| - 1];
    AllowedIsBounded(p, times, at, i);
    assert forall k :: 0 <= k < |times[i..]| ==> times[i..][k] == times[i + k];
    OneMoreTime(times[i..], now);
    TravelIsLengthIff(times, i, now);
  }

  lemma StepsAt(p: Params, d: int)
    requires p.burst == 1 && Gain(p, d) == 1.0 && d > 0
    ensures Step(p, None, 0) == (true, Bucket(0.0, 0))
    ensures Step(p, Some(Bucket(0.0, 0)), d) == (true, Bucket(0.0, d))
    ensures Step(p, Some(Bucket(0.0, d)), 0) == (false, Bucket(0.0, 0))
  {
    assert Gain(p, 0) == 0.0;
  }

  lemma KeptOnSteppingBack(p: Params, d: int)
    requires p.burst == 1 && Gain(p, d) == 1.0 && d > 0
    ensures Kept(p, [0] + [d] + [0] + [d]).0 == [true] + [true] + [false] + [true]
  {
    StepsAt(p, d);
    KeptSnoc(p, [], 0);
    assert [] + [0] == [0] && [] + [true] == [true];
    KeptSnoc(p, [0], d);
    KeptSnoc(p, [0] + [d], 0);
    KeptSnoc(p, [0] + [d] + [0], d);
  }

  // A clock stepping back by any d can refill the same span twice: three calls within d
  // under a burst of one and a rate of one call every d.
  lemma ClockStepBackRefillsTwice(d: int)
    requires d > 0
    ensures var p := Params(1000.0 / d as real, 1);
            ValidParams(p) && Gain(p, d) == 1.0 && Run(p, [0, d, 0, d], [0, 0, 0, 0]).0 == [true, true, false, true]
  {
    var p := Params(1000.0 / d as real, 1);
    GainOfPeriod(d);
    TtlIsPositive(p);
    KeptOnSteppingBack(p, d);
    ExpiryIsInvisible(p, [0, d, 0, d], [0, 0, 0, 0]);
    assert [0, d, 0, d] == [0] + [d] + [0] + [d];
    assert [true, true, false, true] == [true] + [true] + [false] + [true];
  }

  lemma TtlIsPositive(p: Params)
    requires ValidParams(p)
    ensures Ttl(p) >= SLACK
  {
    assert p.burst as real / p.rate >= 0.0;
  }

  lemma GainOfPeriod(d: int)
    requires d > 0
    ensures 1000.0 / d as real > 0.0 && Gain(Params(1000.0 / d as real, 1), d) == 1.0
  {
    var x := d as real;
    var r := 1000.0 / x;
    assert r * x == 1000.0;
    assert (x / 1000.0) * r == (r * x) / 1000.0;
  }

  lemma KeptSnoc(p: Params, times: seq<int>, now: int)
    ensures var (answers, data) := Kept(p, times);
            var (allowed, b) := Step(p, data, now);
            Kept(p, times + [now]) == (answers + [allowed], Some(b))
  {
    assert (times + [now])[..|times|] == times;
  }

  // ---- The limiter ----

  // Whether Redis answered; if not, whether the script had run.
  datatype Reply = Answered | Unreached | ReplyLost

  class Redis {
    var entries: map<string, Entry>

    constructor ()
      ensures entries == map[]
    {
      entries := map[];
    }

    // The script, statement by statement.
    method TokenBucket(key: string, p: Params, now: int, at: int) returns (allowed: bool)
      requires ValidParams(p)
      modifies this
      ensures var (answer, entry) := Touch(p, if key in old(entries) then Some(old(entries)[key]) else None, now, at);
              allowed == answer && entries == old(entries)[key := entry]
    {
      var tokens, ts := p.burst as real, now;
      if key in entries && at <= entries[key].expires {
        tokens, ts := entries[key].bucket.tokens, entries[key].bucket.ts;
      }
      RefillIsLevel(p, Lookup(if key in entries then Some(entries[key]) else None, at), tokens, ts, now);
      var delta := (if now - ts > 0 then now - ts else 0) as real / 1000.0;
      tokens := Min(p.burst as real, tokens + delta * p.rate);
      allowed := false;
      if tokens >= 1.0 {
        tokens := tokens - 1.0;
        allowed := true;
      }
      entries := entries[key := Entry(Bucket(tokens, now), at + Ttl(p))];
    }
  }

  lemma RefillIsLevel(p: Params, data: Option<Bucket>, tokens: real, ts: int, now: int)
    requires ValidParams(p)
    requires if data.Some? then data.value == Bucket(tokens, ts) else tokens == p.burst as real && ts == now
    ensures Min(p.burst as real, tokens + (if now - ts > 0 then now - ts else 0) as real / 1000.0 * p.rate)
         == Level(p, data, now)
  {
    GainIsMonotone(p, 0, 0);
  }

  class RedisLimiter {
    const client: Redis
    const p: Params
    const prefix: string

    constructor (client: Redis, rate: real, burst: int, prefix: string)
      ensures this.client == client && this.p == Params(rate, burst) && this.prefix == prefix
    {
      this.client, this.p, this.prefix := client, Params(rate, burst), prefix;
    }

    // An error lets the call through.
    method Allow(key: string, now: int, at: int, reply: Reply) returns (allowed: bool)
      requires ValidParams(p)
      modifies client
      ensures reply.Unreached? ==> client.entries == old(client.entries)
      ensures !reply.Unreached? ==> var (answer, entry) := Touch(p,
                if prefix + key in old(client.entries) then Some(old(client.entries)[prefix + key]) else None, now, at);
              client.entries == old(client.entries)[prefix + key := entry] && (reply.Answered? ==> allowed == answer)
      ensures !reply.Answered? ==> allowed
    {
      if reply.Unreached? {
        return true;
      }
      var res := client.TokenBucket(prefix + key, p, now, at);
      allowed := reply.ReplyLost? || res;
    }
  }
}
