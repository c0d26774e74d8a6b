// The sliding-window quota: how many runs a user may start in an hour.
module Quota {
  import opened Text

  // Nanoseconds.
  const SECOND: int := 1_000_000_000
  const WINDOW: int := 3_600_000_000_000

  const EXPLORE: string := "explore"
  const WORKFLOW: string := "workflow"

  datatype RoleQuota = RoleQuota(exploreRunsPerHour: int, workflowRunsPerHour: int)

  type Config = map<string, RoleQuota>

  datatype Result = Result(allowed: bool, quota: int, used: int, window: int, retryAfter: int)

  // ---- The quota of a user ----

  function Candidate(cfg: Config, role: string, kind: string): int {
    if role !in cfg then 0
    else if kind == EXPLORE then cfg[role].exploreRunsPerHour
    else if kind == WORKFLOW then cfg[role].workflowRunsPerHour
    else 0
  }

  function QuotaOf(cfg: Config, roles: seq<string>, kind: string): int {
    if roles == [] then 0
    else
      var best := QuotaOf(cfg, roles[..|roles| - 1], kind);
      var candidate := Candidate(cfg, roles[|roles| - 1], kind);
      if candidate > best then candidate else best
  }

  // The largest quota any role grants, and never a negative one.
  lemma {:induction false} QuotaIsLargest(cfg: Config, roles: seq<string>, kind: string)
    ensures var q := QuotaOf(cfg, roles, kind);
            && q >= 0
            && (forall role :: role in roles ==> Candidate(cfg, role, kind) <= q)
            && (q > 0 ==> exists role :: role in roles && Candidate(cfg, role, kind) == q)
  {
    if roles != [] {
      var init, last := roles[..|roles| - 1], roles[|roles| - 1];
      QuotaIsLargest(cfg, init, kind);
      assert roles == init + [last];
      if QuotaOf(cfg, init, kind) > 0 {
        var role :| role in init && Candidate(cfg, role, kind) == QuotaOf(cfg, init, kind);
        assert role in roles;
      }
    }
  }

  method QuotaFor(cfg: Config, roles: seq<string>, kind: string) returns (best: int)
    ensures best == QuotaOf(cfg, roles, kind)
  {
    best := 0;
    for i := 0 to |roles|
      invariant best == QuotaOf(cfg, roles[..i], kind)
    {
      assert roles[..i + 1][..i] == roles[..i];
      QuotaIsLargest(cfg, roles[..i], kind);
      if roles[i] !in cfg {
        continue;
      }
      var q := cfg[roles[i]];
      var candidate := if kind == EXPLORE then q.exploreRunsPerHour
                       else if kind == WORKFLOW then q.workflowRunsPerHour else 0;
      if candidate > best {
        best := candidate;
      }
    }
    assert roles[..|roles|] == roles;
  }

  // Two users, or the two kinds of one user, never share a log.
  lemma KeysAreApart(kind: string, user: string, kind': string, user': string)
    requires kind in {EXPLORE, WORKFLOW} && kind' in {EXPLORE, WORKFLOW}
    ensures kind + ":" + user == kind' + ":" + user' <==> kind == kind' && user == user'
  {
    var key, key' := kind + ":" + user, kind' + ":" + user';
    if key == key' {
      assert key[0] == kind[0] && key'[0] == kind'[0];
      assert EXPLORE[0] != WORKFLOW[0];
      assert key[|kind| + 1..] == user && key'[|kind| + 1..] == user';
    }
  }

  // ---- One call ----

  function Kept(hits: seq<int>, cutoff: int): (r: seq<int>)
    ensures |r| <= |hits|
  {
    if hits == [] then []
    else
      var kept := Kept(hits[..|hits| - 1], cutoff);
      var last := hits[|hits| - 1];
      if last > cutoff then kept + [last] else kept
  }

  function Step(quota: int, hits: seq<int>, now: int): (Result, seq<int>) {
    var kept := Kept(hits, now - WINDOW);
    if |kept| >= quota then
      var wait := if kept == [] then WINDOW else kept[0] + WINDOW - now;
      (Result(false, quota, |kept|, WINDOW, if kept != [] && wait < SECOND then SECOND else wait), kept)
    else
      (Result(true, quota, |kept| + 1, WINDOW, 0), kept + [now])
  }

  // A Go slice of hits: a backing array and a length.
  class Bucket {
    var data: array<int>
    var len: nat

    ghost predicate Valid()
      reads this
    {
      len <= data.Length
    }

    ghost function Hits(): (r: seq<int>)
      requires Valid()
      reads this, data
      ensures |r| == len
    {
      data[..len]
    }

    constructor ()
      ensures Valid() && Hits() == [] && fresh(data)
    {
      data := new int[0];
      len := 0;
    }

    // The surviving hits move to the front of the same array.
    method Prune(cutoff: int)
      requires Valid()
      modifies this`len, data
      ensures Valid() && data == old(data)
      ensures Hits() == Kept(old(Hits()), cutoff)
    {
      ghost var before := data[..len];
      var kept := 0;
      for i := 0 to len
        invariant kept <= i <= len == |before| <= data.Length
        invariant data[i..len] == before[i..]
        invariant data[..kept] == Kept(before[..i], cutoff)
      {
        PrefixStep(before, i);
        KeptSnoc(before[..i], before[i], cutoff);
        var ts := data[i];
        assert ts == data[i..len][0] == before[i];
        assert data[i + 1..len] == data[i..len][1..];
        if ts > cutoff {
          data[kept] := ts;
          kept := kept + 1;
        }
      }
      assert before[..len] == before;
      len := kept;
    }

    // append: in place while there is room, otherwise into a larger array.
    method Append(ts: int)
      requires Valid()
      modifies this, data
      ensures Valid() && Hits() == old(Hits()) + [ts]
      ensures data == old(data) || fresh(data)
    {
      if len == data.Length {
        var larger := new int[2 * data.Length + 1];
        forall i | 0 <= i < len {
          larger[i] := data[i];
        }
        assert larger[..len] == data[..len];
        data := larger;
      }
      data[len] := ts;
      len := len + 1;
    }

    // The locked part of Check.
    method Check(quota: int, now: int) returns (r: Result)
      requires Valid()
      modifies this, data
      ensures Valid() && (r, Hits()) == Step(quota, old(Hits()), now)
      ensures data == old(data) || fresh(data)
    {
      Prune(now - WINDOW);
      var used := len;
      if used >= quota {
        var retryAfter := WINDOW;
        if used > 0 {
          retryAfter := data[0] + WINDOW - now;
          if retryAfter < SECOND {
            retryAfter := SECOND;
          }
        }
        return Result(false, quota, used, WINDOW, retryAfter);
      }
      Append(now);
      r := Result(true, quota, len, WINDOW, 0);
    }
  }

  class Service {
    const cfg: Config
    var state: map<string, Bucket>

    // No two keys share a bucket or a backing array.
    ghost predicate Valid()
      reads this, state.Values
    {
      && (forall k :: k in state ==> state[k].Valid())
      && forall k, k' :: k in state && k' in state && k != k' ==>
           state[k] != state[k'] && state[k].data != state[k'].data
    }

    ghost function Log(key: string): seq<int>
      requires Valid()
      reads this, state.Values, set k | k in state :: state[k].data
    {
      if key in state then state[key].Hits() else []
    }

    constructor (cfg: Config)
      ensures Valid() && this.cfg == cfg && state == map[]
    {
      this.cfg := cfg;
      state := map[];
    }

    method LoadOrStore(key: string) returns (b: Bucket)
      requires Valid()
      modifies this
      ensures Valid() && key in state && state[key] == b
      ensures forall k :: k in old(state) ==> k in state && state[k] == old(state)[k]
      ensures key in old(state) ==> state == old(state)
      ensures key !in old(state) ==> fresh(b) && fresh(b.data) && b.Hits() == [] && state == old(state)[key := b]
    {
      if key in state {
        return state[key];
      }
      b := new Bucket();
      state := state[key := b];
    }

    method Check(userID: string, roles: seq<string>, kind: string, now: int) returns (r: Result)
      requires Valid()
      modifies this, state.Values, set k | k in state :: state[k].data
      ensures Valid()
      ensures var quota := QuotaOf(cfg, roles, kind);
              if quota <= 0 || userID == "" then r == Result(true, 0, 0, WINDOW, 0) && state == old(state)
              else (r, Log(kind + ":" + userID)) == Step(quota, old(Log(kind + ":" + userID)), now)
      ensures forall k :: k != kind + ":" + userID ==> Log(k) == old(Log(k))
    {
      var quota := QuotaFor(cfg, roles, kind);
      if quota <= 0 || userID == "" {
        return Result(true, 0, 0, WINDOW, 0);
      }
      r := CheckKey(kind + ":" + userID, quota, now);
    }

    method CheckKey(key: string, quota: int, now: int) returns (r: Result)
      requires Valid()
      modifies this, state.Values, set k | k in state :: state[k].data
      ensures Valid()
      ensures (r, Log(key)) == Step(quota, old(Log(key)), now)
      ensures forall k :: k != key ==> Log(k) == old(Log(k))
    {
      var b := LoadOrStore(key);
      r := b.Check(quota, now);
    }
  }

  // ---- Runs ----

  ghost predicate NonDecreasing(times: seq<int>) {
    forall i, j :: 0 <= i < j < |times| ==> times[i] <= times[j]
  }

  // What a run of calls under one quota leaves: the log, and every call ever allowed.
  datatype History = History(log: seq<int>, allowed: seq<int>)

  function After(quota: int, h: History, now: int): History {
    var (r, log) := Step(quota, h.log, now);
    History(log, if r.allowed then h.allowed + [now] else h.allowed)
  }

  function Run(quota: int, times: seq<int>): History {
    if times == [] then History([], [])
    else After(quota, Run(quota, times[..|times| - 1]), times[|times| - 1])
  }

  lemma {:induction false} KeptTwice(hits: seq<int>, earlier: int, later: int)
    requires earlier <= later
    ensures Kept(Kept(hits, earlier), later) == Kept(hits, later)
  {
    if hits != [] {
      var init, last := hits[..|hits| - 1], hits[|hits| - 1];
      KeptTwice(init, earlier, later);
      if last > earlier {
        KeptSnoc(Kept(init, earlier), last, later);
      }
    }
  }

  lemma KeptSnoc(hits: seq<int>, ts: int, cutoff: int)
    ensures Kept(hits + [ts], cutoff) == if ts > cutoff then Kept(hits, cutoff) + [ts] else Kept(hits, cutoff)
  {
    assert (hits + [ts])[..|hits|] == hits;
  }

  // The log is all of the allowed history later than the cutoff.
  ghost predicate Covers(h: History, cutoff: int) {
    h.log == Kept(h.allowed, cutoff)
  }

  lemma AfterKeepsWindow(quota: int, h: History, earlier: int, now: int)
    requires Covers(h, earlier) && earlier <= now - WINDOW
    ensures Covers(After(quota, h, now), now - WINDOW)
  {
    KeptTwice(h.allowed, earlier, now - WINDOW);
    KeptSnoc(h.allowed, now, now - WINDOW);
  }

  lemma {:induction false} LogIsWindow(quota: int, times: seq<int>)
    requires times != [] && NonDecreasing(times)
    ensures Covers(Run(quota, times), times[|times| - 1] - WINDOW)
  {
    var init, now := times[..|times| - 1], times[|times| - 1];
    if init != [] {
      LogIsWindow(quota, init);
      assert init[|init| - 1] == times[|times| - 2] <= now;
    }
    var earlier := (if init == [] then now else init[|init| - 1]) - WINDOW;
    AfterKeepsWindow(quota, Run(quota, init), earlier, now);
  }

  // So every answer is the one the whole history gives.
  lemma AnswerFollowsHistory(quota: int, times: seq<int>, now: int)
    requires NonDecreasing(times + [now])
    ensures Step(quota, Run(quota, times).log, now).0.allowed
       <==> |Kept(Run(quota, times).allowed, now - WINDOW)| < quota
  {
    InitIsNonDecreasing(times, now);
    if times != [] {
      LogIsWindow(quota, times);
      KeptTwice(Run(quota, times).allowed, times[|times| - 1] - WINDOW, now - WINDOW);
    }
  }

  lemma InitIsNonDecreasing(times: seq<int>, now: int)
    requires NonDecreasing(times + [now])
    ensures NonDecreasing(times) && (times != [] ==> times[|times| - 1] <= now)
  {
    var all := times + [now];
    assert forall i :: 0 <= i < |times| ==> all[i] == times[i];
    assert all[|times|] == now;
  }

  lemma SortedSnoc(s: seq<int>, x: int)
    requires NonDecreasing(s) && forall y :: y in s ==> y <= x
    ensures NonDecreasing(s + [x])
  {
    var all := s + [x];
    forall i, j | 0 <= i < j < |all| ensures all[i] <= all[j] {
      assert all[i] in s;
    }
  }

  // How many of the given times fall into (start, start + WINDOW].
  function InWindow(times: seq<int>, start: int): nat {
    if times == [] then 0
    else
      var last := times[|times| - 1];
      InWindow(times[..|times| - 1], start) + if start < last <= start + WINDOW then 1 else 0
  }

  lemma {:induction false} WindowIsKept(times: seq<int>, start: int, cutoff: int)
    requires cutoff <= start
    ensures InWindow(times, start) <= |Kept(times, cutoff)|
  {
    if times != [] {
      WindowIsKept(times[..|times| - 1], start, cutoff);
    }
  }

  lemma InWindowSnoc(times: seq<int>, now: int, start: int)
    ensures InWindow(times + [now], start)
         == InWindow(times, start) + if start < now <= start + WINDOW then 1 else 0
  {
    assert (times + [now])[..|times|] == times;
  }

  // Over the whole history, no hour ever holds more than quota allowed calls.
  lemma {:induction false} EveryHourIsBounded(quota: int, times: seq<int>, start: int)
    requires quota >= 0 && NonDecreasing(times)
    ensures InWindow(Run(quota, times).allowed, start) <= quota
  {
    if times != [] {
      var init, now := times[..|times| - 1], times[|times| - 1];
      EveryHourIsBounded(quota, init, start);
      assert init + [now] == times;
      AnswerFollowsHistory(quota, init, now);
      InWindowSnoc(Run(quota, init).allowed, now, start);
      if start < now <= start + WINDOW {
        WindowIsKept(Run(quota, init).allowed, start, now - WINDOW);
      }
    }
  }

  // How many fall into the hour closed at both ends.
  function InClosedHour(times: seq<int>, start: int): nat {
    if times == [] then 0
    else
      var last := times[|times| - 1];
      InClosedHour(times[..|times| - 1], start) + if start <= last <= start + WINDOW then 1 else 0
  }

  lemma {:induction false} ClosedHourIsTwoWindows(times: seq<int>, start: int)
    ensures InClosedHour(times, start) <= InWindow(times, start - WINDOW) + InWindow(times, start)
  {
    if times != [] {
      ClosedHourIsTwoWindows(times[..|times| - 1], start);
    }
  }

  // An hour closed at both ends holds at most twice the quota.
  lemma ClosedHourIsBounded(quota: int, times: seq<int>, start: int)
    requires quota >= 0 && NonDecreasing(times)
    ensures InClosedHour(Run(quota, times).allowed, start) <= 2 * quota
  {
    ClosedHourIsTwoWindows(Run(quota, times).allowed, start);
    EveryHourIsBounded(quota, times, start - WINDOW);
    EveryHourIsBounded(quota, times, start);
  }

  function Times(n: nat, t: int): seq<int> {
    seq(n, _ => t)
  }

  lemma OneMoreAtOnce(quota: int, n: nat, t: int)
    requires n < quota
    ensures After(quota, History(Times(n, t), Times(n, t)), t) == History(Times(n + 1, t), Times(n + 1, t))
  {
    assert Times(n, t) + [t] == Times(n + 1, t);
    KeptOfTimes(n, t, t - WINDOW);
  }

  lemma {:induction false} AllAtOnce(quota: int, n: nat, t: int)
    requires n <= quota
    ensures Run(quota, Times(n, t)) == History(Times(n, t), Times(n, t))
  {
    if n > 0 {
      assert Times(n, t)[..n - 1] == Times(n - 1, t);
      AllAtOnce(quota, n - 1, t);
      OneMoreAtOnce(quota, n - 1, t);
    }
  }

  lemma {:induction false} KeptOfTimes(n: nat, t: int, cutoff: int)
    ensures Kept(Times(n, t), cutoff) == if t > cutoff then Times(n, t) else []
  {
    if n > 0 {
      assert Times(n, t)[..n - 1] == Times(n - 1, t) && Times(n - 1, t) + [t] == Times(n, t);
      KeptOfTimes(n - 1, t, cutoff);
    }
  }

  // One more hit an hour after the first ones, which it drops from the log.
  lemma HitAnHourLater(quota: int, h: History, n: nat, m: nat)
    requires m < quota && h.log == (if m == 0 then Times(n, 0) else Times(m, WINDOW))
    ensures After(quota, h, WINDOW) == History(Times(m + 1, WINDOW), h.allowed + [WINDOW])
  {
    KeptOfTimes(n, 0, 0);
    KeptOfTimes(m, WINDOW, 0);
    assert Times(m, WINDOW) + [WINDOW] == Times(m + 1, WINDOW);
  }

  lemma TwoTimesStep(n: nat, m: nat)
    ensures Times(n, 0) + Times(0, WINDOW) == Times(n, 0)
    ensures Times(n, 0) + Times(m + 1, WINDOW) == Times(n, 0) + Times(m, WINDOW) + [WINDOW]
  {
  }

  lemma RunSnoc(quota: int, times: seq<int>, now: int)
    ensures Run(quota, times + [now]) == After(quota, Run(quota, times), now)
  {
    assert (times + [now])[..|times|] == times;
  }

  // A full quota at once, and m calls an hour later.
  function Twice(quota: nat, m: nat): seq<int> {
    Times(quota, 0) + Times(m, WINDOW)
  }

  function TwiceAllowed(quota: nat, m: nat): History {
    History(if m == 0 then Times(quota, 0) else Times(m, WINDOW), Twice(quota, m))
  }

  lemma TwiceStep(quota: nat, m: nat)
    requires m < quota
    ensures After(quota, TwiceAllowed(quota, m), WINDOW) == TwiceAllowed(quota, m + 1)
  {
    HitAnHourLater(quota, TwiceAllowed(quota, m), quota, m);
    TwoTimesStep(quota, m);
  }

  // And for every quota it can hold that many: a hit exactly an hour old no longer counts.
  lemma {:induction false} ClosedHourCanHoldTwice(quota: nat, m: nat)
    requires m <= quota
    ensures Run(quota, Twice(quota, m)) == TwiceAllowed(quota, m)
  {
    if m == 0 {
      TwoTimesStep(quota, 0);
      AllAtOnce(quota, quota, 0);
    } else {
      ClosedHourCanHoldTwice(quota, m - 1);
      TwiceStep(quota, m - 1);
      TwoTimesStep(quota, m - 1);
      RunSnoc(quota, Twice(quota, m - 1), WINDOW);
    }
  }

  // ---- Calls out of order ----

  // A call reads the clock before it gets the bucket, so its time may be up to lag earlier
  // than that of a call before it.
  ghost predicate LagsBy(times: seq<int>, lag: int) {
    forall i, j :: 0 <= i < j < |times| ==> times[j] >= times[i] - lag
  }

  // How many of the given times fall into (start, start + length].
  function InSpan(times: seq<int>, start: int, length: int): nat {
    if times == [] then 0
    else
      var last := times[|times| - 1];
      InSpan(times[..|times| - 1], start, length) + if start < last <= start + length then 1 else 0
  }

  lemma InSpanSnoc(times: seq<int>, now: int, start: int, length: int)
    ensures InSpan(times + [now], start, length)
         == InSpan(times, start, length) + if start < now <= start + length then 1 else 0
  {
    assert (times + [now])[..|times|] == times;
  }

  lemma {:induction false} SpanIsKept(times: seq<int>, start: int, length: int)
    ensures InSpan(times, start, length) <= |Kept(times, start)|
  {
    if times != [] {
      SpanIsKept(times[..|times| - 1], start, length);
    }
  }

  lemma {:induction false} KeptShrinks(times: seq<int>, earlier: int, later: int)
    requires earlier <= later
    ensures |Kept(times, later)| <= |Kept(times, earlier)|
  {
    if times != [] {
      KeptShrinks(times[..|times| - 1], earlier, later);
    }
  }

  predicate NoneLaterThan(times: seq<int>, t: int) {
    forall i :: 0 <= i < |times| ==> times[i] <= t
  }

  lemma AfterInParts(quota: int, h: History, now: int)
    ensures var log, more := Kept(h.log, now - WINDOW), if |Kept(h.log, now - WINDOW)| < quota then [now] else [];
            After(quota, h, now) == History(log + more, h.allowed + more)
  {
  }

  lemma RecentStep(quota: int, h: History, now: int, start: int)
    requires now <= start + WINDOW && Kept(h.log, start) == Kept(h.allowed, start)
    ensures Kept(After(quota, h, now).log, start) == Kept(After(quota, h, now).allowed, start)
  {
    var log := Kept(h.log, now - WINDOW);
    AfterInParts(quota, h, now);
    KeptTwice(h.log, now - WINDOW, start);
    KeptSnoc(log, now, start);
    KeptSnoc(h.allowed, now, start);
    assert log + [] == log && h.allowed + [] == h.allowed;
  }

  // In whatever order the calls came, the log holds every allowed call after start as long
  // as none came more than a window after it.
  lemma {:induction false} LogHoldsRecent(quota: int, times: seq<int>, start: int)
    requires NoneLaterThan(times, start + WINDOW)
    ensures Kept(Run(quota, times).log, start) == Kept(Run(quota, times).allowed, start)
  {
    if times != [] {
      LogHoldsRecent(quota, times[..|times| - 1], start);
      RecentStep(quota, Run(quota, times[..|times| - 1]), times[|times| - 1], start);
    }
  }

  lemma LagBoundsInit(times: seq<int>, lag: int)
    requires times != [] && LagsBy(times, lag)
    ensures LagsBy(times[..|times| - 1], lag)
    ensures NoneLaterThan(times[..|times| - 1], times[|times| - 1] + lag)
  {
  }

  lemma SpanStep(quota: int, h: History, now: int, start: int, length: int)
    requires length <= WINDOW && InSpan(h.allowed, start, length) <= quota
    requires start < now <= start + length ==> Kept(h.log, start) == Kept(h.allowed, start)
    ensures InSpan(After(quota, h, now).allowed, start, length) <= quota
  {
    InSpanSnoc(h.allowed, now, start, length);
    if start < now <= start + length {
      SpanIsKept(h.allowed, start, length);
      KeptShrinks(h.log, now - WINDOW, start);
    }
  }

  // Calls that lag by at most lag: no window shorter by as much holds more than quota of
  // them.
  lemma {:induction false} EverySpanIsBounded(quota: int, times: seq<int>, lag: int, start: int)
    requires quota >= 0 && lag >= 0 && LagsBy(times, lag)
    ensures InSpan(Run(quota, times).allowed, start, WINDOW - lag) <= quota
  {
    if times != [] {
      var init, now := times[..|times| - 1], times[|times| - 1];
      LagBoundsInit(times, lag);
      EverySpanIsBounded(quota, init, lag, start);
      if now <= start + WINDOW - lag {
        LogHoldsRecent(quota, init, start);
      }
      SpanStep(quota, Run(quota, init), now, start, WINDOW - lag);
    }
  }

  lemma {:induction false} HourIsTwoSpans(times: seq<int>, start: int, length: int)
    requires 0 <= WINDOW - length <= length
    ensures InWindow(times, start) <= InSpan(times, start, length) + InSpan(times, start + WINDOW - length, length)
  {
    if times != [] {
      HourIsTwoSpans(times[..|times| - 1], start, length);
    }
  }

  lemma TwoSpansBoundHour(allowed: seq<int>, quota: int, lag: int, start: int)
    requires 0 <= 2 * lag <= WINDOW
    requires InSpan(allowed, start, WINDOW - lag) <= quota && InSpan(allowed, start + lag, WINDOW - lag) <= quota
    ensures InWindow(allowed, start) <= 2 * quota
  {
    assert start + WINDOW - (WINDOW - lag) == start + lag;
    HourIsTwoSpans(allowed, start, WINDOW - lag);
  }

  // With a lag of half an hour or less an hour holds at most twice the quota.
  lemma LaggedHourIsBounded(quota: int, times: seq<int>, lag: int, start: int)
    requires quota >= 0 && 0 <= 2 * lag <= WINDOW && LagsBy(times, lag)
    ensures InWindow(Run(quota, times).allowed, start) <= 2 * quota
  {
    EverySpanIsBounded(quota, times, lag, start);
    EverySpanIsBounded(quota, times, lag, start + lag);
    TwoSpansBoundHour(Run(quota, times).allowed, quota, lag, start);
  }

  // A full quota at one nanosecond, one call an hour later that drops it from the log, and
  // m calls that are a nanosecond late.
  function Late(quota: nat, m: nat): seq<int> {
    Times(quota, 1) + [1 + WINDOW] + Times(m, WINDOW)
  }

  lemma LateLog(m: nat)
    ensures [1 + WINDOW] + Times(m, WINDOW) + [WINDOW] == [1 + WINDOW] + Times(m + 1, WINDOW)
  {
    assert Times(m + 1, WINDOW) == Times(m, WINDOW) + [WINDOW];
  }

  lemma LateKept(m: nat)
    ensures Kept([1 + WINDOW] + Times(m, WINDOW), 0) == [1 + WINDOW] + Times(m, WINDOW)
    ensures |[1 + WINDOW] + Times(m, WINDOW)| == m + 1
  {
    KeptIsAll([1 + WINDOW] + Times(m, WINDOW), 0);
  }

  // One late call more.
  lemma LateStep(quota: nat, h: History, m: nat)
    requires m + 1 < quota && h.log == [1 + WINDOW] + Times(m, WINDOW)
    ensures After(quota, h, WINDOW) == History([1 + WINDOW] + Times(m + 1, WINDOW), h.allowed + [WINDOW])
  {
    LateKept(m);
    AfterInParts(quota, h, WINDOW);
    LateLog(m);
  }

  lemma {:induction false} KeptIsAll(hits: seq<int>, cutoff: int)
    requires forall i :: 0 <= i < |hits| ==> hits[i] > cutoff
    ensures Kept(hits, cutoff) == hits
  {
    if hits != [] {
      KeptIsAll(hits[..|hits| - 1], cutoff);
      assert hits == hits[..|hits| - 1] + [hits[|hits| - 1]];
    }
  }

  lemma LateGrows(quota: nat, m: nat)
    ensures Late(quota, m + 1) == Late(quota, m) + [WINDOW]
    ensures Late(quota, 0) == Times(quota, 1) + [1 + WINDOW]
  {
    assert Times(m + 1, WINDOW) == Times(m, WINDOW) + [WINDOW];
    assert Times(0, WINDOW) == [];
  }

  // And under the least lag an hour can hold nearly that many: all these calls are allowed,
  // and all but one fall into one hour.
  lemma {:induction false} LaggedHourCanHoldMore(quota: nat, m: nat)
    requires m < quota
    ensures Run(quota, Late(quota, m)) == History([1 + WINDOW] + Times(m, WINDOW), Late(quota, m))
  {
    LateGrows(quota, if m == 0 then 0 else m - 1);
    if m == 0 {
      AllAtOnce(quota, quota, 1);
      KeptOfTimes(quota, 1, 1);
      RunSnoc(quota, Times(quota, 1), 1 + WINDOW);
      assert [1 + WINDOW] + Times(0, WINDOW) == [] + [1 + WINDOW];
    } else {
      LaggedHourCanHoldMore(quota, m - 1);
      LateStep(quota, History([1 + WINDOW] + Times(m - 1, WINDOW), Late(quota, m - 1)), m - 1);
      RunSnoc(quota, Late(quota, m - 1), WINDOW);
    }
  }

  lemma {:induction false} TimesInWindow(n: nat, t: int, start: int)
    requires start < t <= start + WINDOW
    ensures InWindow(Times(n, t), start) == n
  {
    if n > 0 {
      assert Times(n, t)[..n - 1] == Times(n - 1, t);
      TimesInWindow(n - 1, t, start);
    }
  }

  lemma {:induction false} InWindowJoins(a: seq<int>, b: seq<int>, start: int)
    ensures InWindow(a + b, start) == InWindow(a, start) + InWindow(b, start)
  {
    if b == [] {
      assert a + b == a;
    } else {
      InWindowJoins(a, b[..|b| - 1], start);
      assert (a + b)[..|a + b| - 1] == a + b[..|b| - 1];
    }
  }

  lemma LateFillsHour(quota: nat, m: nat)
    ensures InWindow(Late(quota, m), 0) == quota + m
  {
    InWindowJoins(Times(quota, 1) + [1 + WINDOW], Times(m, WINDOW), 0);
    InWindowJoins(Times(quota, 1), [1 + WINDOW], 0);
    InWindowSnoc([], 1 + WINDOW, 0);
    assert [] + [1 + WINDOW] == [1 + WINDOW];
    TimesInWindow(quota, 1, 0);
    TimesInWindow(m, WINDOW, 0);
  }

  // ---- Retrying ----

  lemma {:induction false} NothingKept(hits: seq<int>, cutoff: int)
    requires forall i :: 0 <= i < |hits| ==> hits[i] <= cutoff
    ensures Kept(hits, cutoff) == []
  {
    if hits != [] {
      NothingKept(hits[..|hits| - 1], cutoff);
    }
  }

  lemma {:induction false} KeptIsSuffix(hits: seq<int>, cutoff: int)
    requires NonDecreasing(hits)
    ensures Kept(hits, cutoff) == hits[FirstAfter(hits, cutoff)..]
  {
    if hits != [] {
      var init, last := hits[..|hits| - 1], hits[|hits| - 1];
      if last <= cutoff {
        NothingKept(hits, cutoff);
      } else {
        KeptIsSuffix(init, cutoff);
        assert hits == init + [last];
        assert hits[FirstAfter(init, cutoff)..] == init[FirstAfter(init, cutoff)..] + [last];
      }
    }
  }

  lemma KeptCount(hits: seq<int>, cutoff: int, quota: int)
    requires NonDecreasing(hits) && 0 < quota <= |hits|
    ensures |Kept(hits, cutoff)| < quota <==> hits[|hits| - quota] <= cutoff
  {
    KeptIsSuffix(hits, cutoff);
  }

  ghost function FirstAfter(hits: seq<int>, cutoff: int): (k: nat)
    requires NonDecreasing(hits)
    ensures k <= |hits|
    ensures forall i :: 0 <= i < k ==> hits[i] <= cutoff
    ensures forall i :: k <= i < |hits| ==> hits[i] > cutoff
  {
    if hits == [] || hits[|hits| - 1] <= cutoff then |hits|
    else FirstAfter(hits[..|hits| - 1], cutoff)
  }

  lemma {:induction false} KeptIsSorted(hits: seq<int>, cutoff: int)
    requires NonDecreasing(hits)
    ensures NonDecreasing(Kept(hits, cutoff))
    ensures forall x :: x in Kept(hits, cutoff) ==> x in hits && x > cutoff
  {
    KeptIsSuffix(hits, cutoff);
  }

  // After a refusal, a call at t with none in between is allowed exactly from the moment
  // the hit that stands quota places from the end leaves the window.
  lemma AllowedAgainWhen(quota: int, hits: seq<int>, now: int, t: int)
    requires quota > 0 && NonDecreasing(hits) && now <= t
    requires !Step(quota, hits, now).0.allowed
    ensures var kept := Step(quota, hits, now).1;
            Step(quota, kept, t).0.allowed <==> kept[|kept| - quota] + WINDOW <= t
  {
    var kept := Step(quota, hits, now).1;
    KeptIsSorted(hits, now - WINDOW);
    KeptCount(kept, t - WINDOW, quota);
  }

  // A log no longer than the quota is refused only when it is full, and then the wait is
  // that of its oldest hit.
  lemma RefusalNamesOldestHit(quota: int, log: seq<int>, now: int)
    requires quota > 0 && |log| <= quota && !Step(quota, log, now).0.allowed
    ensures var (r, kept) := Step(quota, log, now);
            && r.used == quota == |kept|
            && r.retryAfter == if kept[0] + WINDOW - now < SECOND then SECOND else kept[0] + WINDOW - now
  {
  }

  // Under one quota, waiting RetryAfter is enough; when the oldest hit still has a second
  // to go, it is also the shortest wait.
  lemma RetryAfterIsEnough(quota: int, times: seq<int>, now: int, t: int)
    requires quota > 0 && NonDecreasing(times + [now]) && now <= t
    requires !Step(quota, Run(quota, times).log, now).0.allowed
    ensures var (r, kept) := Step(quota, Run(quota, times).log, now);
            && r.used == quota && r.retryAfter >= SECOND
            && (t >= now + r.retryAfter ==> Step(quota, kept, t).0.allowed)
            && (t < now + r.retryAfter && r.retryAfter > SECOND ==> !Step(quota, kept, t).0.allowed)
  {
    var log := Run(quota, times).log;
    InitIsNonDecreasing(times, now);
    LogIsSorted(quota, times);
    RefusalNamesOldestHit(quota, log, now);
    AllowedAgainWhen(quota, log, now, t);
  }

  lemma StepKeepsSorted(quota: int, log: seq<int>, now: int)
    requires quota > 0 && NonDecreasing(log) && forall x :: x in log ==> x <= now
    ensures var log' := Step(quota, log, now).1;
            NonDecreasing(log') && (|log| <= quota ==> |log'| <= quota) && forall x :: x in log' ==> x <= now
  {
    KeptIsSorted(log, now - WINDOW);
    SortedSnoc(Kept(log, now - WINDOW), now);
  }

  lemma {:induction false} LogIsSorted(quota: int, times: seq<int>)
    requires quota > 0 && NonDecreasing(times)
    ensures NonDecreasing(Run(quota, times).log) && |Run(quota, times).log| <= quota
    ensures times != [] ==> forall x :: x in Run(quota, times).log ==> x <= times[|times| - 1]
  {
    if times != [] {
      var init, now := times[..|times| - 1], times[|times| - 1];
      LogIsSorted(quota, init);
      StepKeepsSorted(quota, Run(quota, init).log, now);
    }
  }

  // A quota lowered meanwhile leaves more hits than it allows. Waiting RetryAfter is then
  // enough exactly when the hit quota places from the end of the log is no younger than the
  // oldest one still counted, or gone within the one-second minimum.
  lemma RetryAfterIffEnough(quota: int, hits: seq<int>, now: int)
    requires quota > 0 && NonDecreasing(hits)
    requires !Step(quota, hits, now).0.allowed
    ensures var (r, kept) := Step(quota, hits, now);
            (kept[|kept| - quota] == kept[0] || kept[|kept| - quota] + WINDOW <= now + SECOND)
            <==> Step(quota, kept, now + r.retryAfter).0.allowed
  {
    var kept := Kept(hits, now - WINDOW);
    KeptIsSorted(hits, now - WINDOW);
    WaitOfRefusal(quota, hits, now);
    assert kept[0] <= kept[|kept| - quota];
    assert kept[0] in kept;
    AllowedAgainWhen(quota, hits, now, now + WaitFor(kept, now));
  }

  function WaitFor(kept: seq<int>, now: int): int
    requires kept != []
  {
    if kept[0] + WINDOW - now < SECOND then SECOND else kept[0] + WINDOW - now
  }

  lemma WaitOfRefusal(quota: int, hits: seq<int>, now: int)
    requires quota > 0 && !Step(quota, hits, now).0.allowed
    ensures var kept := Kept(hits, now - WINDOW);
            kept != [] && |kept| >= quota && Step(quota, hits, now).1 == kept
            && Step(quota, hits, now).0.retryAfter == WaitFor(kept, now)
  {
  }

  lemma LoweredQuotaCanOutlastRetryAfter()
    ensures var hits := [0, WINDOW / 2];
            var (r, kept) := Step(1, hits, WINDOW / 2);
            !r.allowed && !Step(1, kept, WINDOW / 2 + r.retryAfter).0.allowed
  {
    var hits := [0, WINDOW / 2];
    assert Kept([0], WINDOW / 2 - WINDOW) == [0];
    assert hits[..1] == [0] && [0] + [WINDOW / 2] == hits;
    assert Kept(hits, WINDOW / 2 - WINDOW) == hits;
    RetryAfterIffEnough(1, hits, WINDOW / 2);
    assert hits[1] != hits[0];
  }
}
