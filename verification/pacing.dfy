/** Block classification and the adaptive delay between requests
    (`ExampleSpider.is_blocked` and the delay update at the top of `parse`).

    The delay is an integer number of seconds. It starts at `InitialDelay`,
    grows by `DelayStep` (capped at `MaxDelay`) after every response that
    looks blocked and shrinks by `DelayStep` (floored at `MinDelay`) after
    every other response. */
module Pacing {

  const InitialDelay: int := 10
  const MaxDelay: int := 30
  const DelayStep: int := 2
  const MinDelay: int := 1

  /** What the crawler sees of one HTTP response: the URL, the status code,
      the body and the URL type carried along from the seed list. */
  datatype Response = Response(url: string, status: int, body: string, urlType: string)

  /** The status codes that signal blocking. */
  const BlockStatuses: set<int> := {403, 503}

  /** A response is blocked exactly when its status signals blocking; the
      CAPTCHA and empty-body checks are placeholders that never fire. */
  function IsBlocked(resp: Response): (blocked: bool)
    ensures blocked <==> resp.status in BlockStatuses
  {
    resp.status in [403, 503]
  }

  /** The verdict depends on the status code alone. */
  lemma BlockedIffBlockStatus(resp: Response)
    ensures IsBlocked(resp) <==> resp.status == 403 || resp.status == 503
    ensures forall other: Response :: other.status == resp.status ==> IsBlocked(other) == IsBlocked(resp)
  {
  }

  predicate InRange(d: int)
  {
    MinDelay <= d <= MaxDelay
  }

  function Min(a: int, b: int): (m: int) { if a <= b then a else b }
  function Max(a: int, b: int): (m: int) { if a >= b then a else b }

  /** The delay after one observation. */
  function Observe(d: int, blocked: bool): (r: int)
    ensures InRange(d) ==> InRange(r)
    ensures blocked ==> r <= MaxDelay
    ensures !blocked ==> MinDelay <= r
    ensures blocked && d <= MaxDelay ==> d <= r
    ensures !blocked && MinDelay <= d ==> r <= d
    ensures InRange(d) ==> r - d <= DelayStep && d - r <= DelayStep
    ensures InRange(d) ==> (r == d <==> (blocked && d == MaxDelay) || (!blocked && d == MinDelay))
  {
    if blocked then Min(d + DelayStep, MaxDelay) else Max(d - DelayStep, MinDelay)
  }

  /** The delay after a sequence of observations, oldest first. */
  function Run(d: int, obs: seq<bool>): (r: int)
    ensures InRange(d) ==> InRange(r)
    decreases |obs|
  {
    if obs == [] then d else Run(Observe(d, obs[0]), obs[1..])
  }

  /** `k` copies of the same observation. */
  function Repeat(blocked: bool, k: nat): (s: seq<bool>)
    ensures |s| == k
    ensures forall i :: 0 <= i < k ==> s[i] == blocked
  {
    if k == 0 then [] else [blocked] + Repeat(blocked, k - 1)
  }

  /** Number of observations in `obs` equal to `blocked`. */
  function Count(blocked: bool, obs: seq<bool>): (n: nat)
    ensures n <= |obs|
  {
    if obs == [] then 0 else (if obs[0] == blocked then 1 else 0) + Count(blocked, obs[1..])
  }

  /** Running observations in two batches is running them in one. */
  lemma {:induction false} RunAppend(d: int, a: seq<bool>, b: seq<bool>)
    ensures Run(d, a + b) == Run(Run(d, a), b)
    decreases |a|
  {
    if a != [] {
      assert (a + b)[0] == a[0] && (a + b)[1..] == a[1..] + b;
      RunAppend(Observe(d, a[0]), a[1..], b);
    } else {
      assert a + b == b;
    }
  }

  /** After `k` unblocked responses the delay is `max(d - 2k, 1)`. */
  lemma {:induction false} RunUnblocked(d: int, k: nat)
    requires MinDelay <= d
    ensures Run(d, Repeat(false, k)) == Max(d - DelayStep * k, MinDelay)
    decreases k
  {
    if k > 0 {
      assert Repeat(false, k)[1..] == Repeat(false, k - 1);
      RunUnblocked(Observe(d, false), k - 1);
    }
  }

  /** After `k` blocked responses the delay is `min(d + 2k, 30)`. */
  lemma {:induction false} RunBlocked(d: int, k: nat)
    requires d <= MaxDelay
    ensures Run(d, Repeat(true, k)) == Min(d + DelayStep * k, MaxDelay)
    decreases k
  {
    if k > 0 {
      assert Repeat(true, k)[1..] == Repeat(true, k - 1);
      RunBlocked(Observe(d, true), k - 1);
    }
  }

  /** Least number of unblocked responses that bring `d` down to the floor:
      ceil((d - MinDelay) / DelayStep). */
  function StepsToFloor(d: int): (k: int)
  {
    (d - MinDelay + DelayStep - 1) / DelayStep
  }

  /** Least number of blocked responses that bring `d` up to the ceiling:
      ceil((MaxDelay - d) / DelayStep). */
  function StepsToCeiling(d: int): (k: int)
  {
    (MaxDelay - d + DelayStep - 1) / DelayStep
  }

  /** From a delay in range, `k` unblocked responses reach the floor exactly
      when `k` is at least `StepsToFloor(d)`. */
  lemma ReachesFloorIff(d: int, k: nat)
    requires InRange(d)
    ensures Run(d, Repeat(false, k)) == MinDelay <==> k >= StepsToFloor(d)
  {
    RunUnblocked(d, k);
  }

  /** From a delay in range, `k` blocked responses reach the ceiling exactly
      when `k` is at least `StepsToCeiling(d)`. */
  lemma ReachesCeilingIff(d: int, k: nat)
    requires InRange(d)
    ensures Run(d, Repeat(true, k)) == MaxDelay <==> k >= StepsToCeiling(d)
  {
    RunBlocked(d, k);
  }

  /** From the ceiling, fifteen unblocked responses reach the floor and
      fourteen do not; from the floor, fifteen blocked responses reach the
      ceiling and fourteen do not. */
  lemma ConvergenceBetweenExtremes()
    ensures StepsToFloor(MaxDelay) == 15 && StepsToCeiling(MinDelay) == 15
    ensures Run(MaxDelay, Repeat(false, 15)) == MinDelay
    ensures Run(MaxDelay, Repeat(false, 14)) != MinDelay
    ensures Run(MinDelay, Repeat(true, 15)) == MaxDelay
    ensures Run(MinDelay, Repeat(true, 14)) != MaxDelay
  {
    ReachesFloorIff(MaxDelay, 15);
    ReachesFloorIff(MaxDelay, 14);
    ReachesCeilingIff(MinDelay, 15);
    ReachesCeilingIff(MinDelay, 14);
  }

  /** A larger starting delay never ends lower. */
  lemma {:induction false} RunMonotone(d1: int, d2: int, obs: seq<bool>)
    requires d1 <= d2
    ensures Run(d1, obs) <= Run(d2, obs)
    decreases |obs|
  {
    if obs != [] {
      RunMonotone(Observe(d1, obs[0]), Observe(d2, obs[0]), obs[1..]);
    }
  }

  /** From a delay in range, the delay moves up by at most 2 per blocked
      response and down by at most 2 per unblocked one. */
  lemma {:induction false} RunDrift(d: int, obs: seq<bool>)
    requires InRange(d)
    ensures Run(d, obs) <= d + DelayStep * Count(true, obs)
    ensures d - DelayStep * Count(false, obs) <= Run(d, obs)
    decreases |obs|
  {
    if obs != [] {
      RunDrift(Observe(d, obs[0]), obs[1..]);
    }
  }
}
