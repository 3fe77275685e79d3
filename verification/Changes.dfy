/** Counting changes along a sequence, and what sampling the sequence at checkpoints can miss. */
module Changes {

  /** The places i in (a, b] at which s[i] differs from s[i - 1]. */
  function ChangesIn(s: seq<int>, a: nat, b: nat): nat
    requires a <= b < |s|
  {
    if a == b then 0 else ChangesIn(s, a, b - 1) + (if s[b - 1] != s[b] then 1 else 0)
  }

  function Total(s: seq<int>): nat
    requires |s| >= 1
  {
    ChangesIn(s, 0, |s| - 1)
  }

  // One or none: what an observer of the two ends alone can report.
  function EndsDiffer(s: seq<int>, a: nat, b: nat): nat
    requires a <= b < |s|
  {
    if s[a] != s[b] then 1 else 0
  }

  lemma {:induction false} ChangesSplit(s: seq<int>, a: nat, b: nat, c: nat)
    requires a <= b <= c < |s|
    ensures ChangesIn(s, a, c) == ChangesIn(s, a, b) + ChangesIn(s, b, c)
  {
    if b < c {
      ChangesSplit(s, a, b, c - 1);
    }
  }

  lemma {:induction false} ChangesExtend(s: seq<int>, t: seq<int>, a: nat, b: nat)
    requires a <= b < |s| && s <= t
    ensures ChangesIn(t, a, b) == ChangesIn(s, a, b)
  {
    if a < b {
      ChangesExtend(s, t, a, b - 1);
    }
  }

  lemma TotalAppend(s: seq<int>, x: int)
    requires |s| >= 1
    ensures Total(s + [x]) == Total(s) + (if s[|s| - 1] != x then 1 else 0)
  {
    ChangesExtend(s, s + [x], 0, |s| - 1);
  }

  /** The two ends show exactly what happened in between if that was at most one change, and less
      than what happened otherwise. */
  lemma {:induction false} EndsShow(s: seq<int>, a: nat, b: nat)
    requires a <= b < |s|
    ensures EndsDiffer(s, a, b) <= ChangesIn(s, a, b)
    ensures EndsDiffer(s, a, b) == ChangesIn(s, a, b) <==> ChangesIn(s, a, b) <= 1
  {
    if a < b {
      EndsShow(s, a, b - 1);
    }
  }

  // ---- Checkpoints ----

  predicate Checkpoints(s: seq<int>, checks: seq<nat>) {
    && |s| >= 1
    && |checks| >= 1
    && checks[0] == 0
    && checks[|checks| - 1] < |s|
    && forall k :: 0 <= k < |checks| - 1 ==> checks[k] < checks[k + 1]
  }

  lemma {:induction false} ChecksOrdered(s: seq<int>, checks: seq<nat>, j: nat, k: nat)
    requires Checkpoints(s, checks) && j <= k < |checks|
    ensures checks[j] <= checks[k] < |s|
    decreases |checks| - j
  {
    if j < k {
      ChecksOrdered(s, checks, j + 1, k);
    } else if k < |checks| - 1 {
      ChecksOrdered(s, checks, k + 1, |checks| - 1);
    }
  }

  lemma ChecksInside(s: seq<int>, checks: seq<nat>)
    requires Checkpoints(s, checks)
    ensures forall k :: 0 <= k < |checks| ==> checks[k] < |s|
  {
    forall k | 0 <= k < |checks| ensures checks[k] < |s| {
      ChecksOrdered(s, checks, k, |checks| - 1);
    }
  }

  /** What an observer sees that only looks at the checkpoints. */
  function Sampled(s: seq<int>, checks: seq<nat>): (r: seq<int>)
    requires Checkpoints(s, checks)
    ensures |r| == |checks|
  {
    ChecksInside(s, checks);
    seq(|checks|, k requires 0 <= k < |checks| => s[checks[k]])
  }

  // One more element, which may or may not be a checkpoint.
  lemma SampledExtend(s: seq<int>, checks: seq<nat>, x: int)
    requires Checkpoints(s, checks)
    ensures Checkpoints(s + [x], checks) && Sampled(s + [x], checks) == Sampled(s, checks)
    ensures Checkpoints(s + [x], checks + [|s|]) && Sampled(s + [x], checks + [|s|]) == Sampled(s, checks) + [x]
  {
    ChecksInside(s, checks);
  }

  function WindowChanges(s: seq<int>, checks: seq<nat>, k: nat): nat
    requires Checkpoints(s, checks) && k < |checks| - 1
  {
    ChecksInside(s, checks);
    ChangesIn(s, checks[k], checks[k + 1])
  }

  /** Between any two consecutive checkpoints there is at most one change, and after the last none. */
  predicate Quiet(s: seq<int>, checks: seq<nat>)
    requires Checkpoints(s, checks)
  {
    ChecksInside(s, checks);
    && (forall k :: 0 <= k < |checks| - 1 ==> WindowChanges(s, checks, k) <= 1)
    && ChangesIn(s, checks[|checks| - 1], |s| - 1) == 0
  }

  // The statement up to the m-th checkpoint.
  lemma {:induction false} SampledUpTo(s: seq<int>, checks: seq<nat>, m: nat)
    requires Checkpoints(s, checks) && m < |checks|
    ensures checks[m] < |s|
    ensures ChangesIn(Sampled(s, checks), 0, m) <= ChangesIn(s, 0, checks[m])
    ensures ChangesIn(Sampled(s, checks), 0, m) == ChangesIn(s, 0, checks[m])
       <==> forall k :: 0 <= k < m ==> WindowChanges(s, checks, k) <= 1
  {
    ChecksInside(s, checks);
    if m > 0 {
      SampledUpTo(s, checks, m - 1);
      ChangesSplit(s, 0, checks[m - 1], checks[m]);
      EndsShow(s, checks[m - 1], checks[m]);
      assert WindowChanges(s, checks, m - 1) == ChangesIn(s, checks[m - 1], checks[m]);
      assert Sampled(s, checks)[m] == s[checks[m]] && Sampled(s, checks)[m - 1] == s[checks[m - 1]];
    }
  }

  /** Sampling never sees more changes than there are, and sees all of them exactly if the sequence
      is quiet between the checkpoints. */
  lemma SamplingMisses(s: seq<int>, checks: seq<nat>)
    requires Checkpoints(s, checks)
    ensures Total(Sampled(s, checks)) <= Total(s)
    ensures Total(Sampled(s, checks)) == Total(s) <==> Quiet(s, checks)
  {
    ChecksInside(s, checks);
    var last := checks[|checks| - 1];
    SampledUpTo(s, checks, |checks| - 1);
    ChangesSplit(s, 0, last, |s| - 1);
  }
}
