/** measure_interleaved: which contender is raced when. */
module Rotation {
  import opened Modular

  /** A race, identified by when it was run: the round and the place within the round.  What it
      measured is not part of this model. */
  datatype Slot = Slot(round: nat, position: nat)

  /** The contender raced at position j of round t. */
  function Contender(j: nat, t: nat, k: nat): nat
    requires k >= 1
  {
    (j + t) % k
  }

  /** The position at which contender i is raced in round t. */
  function Position(i: nat, t: nat, k: nat): (j: nat)
    requires i < k
    ensures j < k
  {
    (i + (k - t % k)) % k
  }

  // ---- Each round is a permutation ----

  lemma ContenderValue(j: nat, t: nat, k: nat)
    requires j < k
    ensures Contender(j, t, k) == if j + t % k < k then j + t % k else j + t % k - k
  {
    var r := t % k;
    Fundamental(t, k);
    if j + r < k {
      ModUnique(j + t, k, t / k, j + r);
    } else {
      MulSub(t / k + 1, t / k, k);
      ModUnique(j + t, k, t / k + 1, j + r - k);
    }
  }

  lemma PositionValue(i: nat, t: nat, k: nat)
    requires i < k
    ensures Position(i, t, k) == if i >= t % k then i - t % k else i + k - t % k
  {
    Fundamental(t, k);
    var r := t % k;
    if i >= r {
      ModUnique(i + (k - r), k, 1, i - r);
    } else {
      ModUnique(i + (k - r), k, 0, i + k - r);
    }
  }

  /** In every round, positions and contenders correspond one to one. */
  lemma RoundIsPermutation(i: nat, j: nat, t: nat, k: nat)
    requires i < k && j < k
    ensures Contender(j, t, k) == i <==> Position(i, t, k) == j
  {
    Fundamental(t, k);
    ContenderValue(j, t, k);
    PositionValue(i, t, k);
  }

  // ---- The loop ----

  /** The timed races of contender i after t whole rounds. */
  function Schedule(i: nat, t: nat, k: nat): (r: seq<Slot>)
    requires i < k
    ensures |r| == t
  {
    seq(t, u requires 0 <= u < t => Slot(u, Position(i, u, k)))
  }

  const WARMUP_RACES: nat := 1

  /** The warm-up races of contender i: the order does not rotate. */
  function Warmups(i: nat): (r: seq<Slot>)
    ensures |r| == WARMUP_RACES
  {
    seq(WARMUP_RACES, w requires 0 <= w => Slot(w, i))
  }

  /** The two double loops of measure_interleaved: contender i's warm-up races end up in warmups[i], one
      per round, always at position i; its timed races in timed[i], one per round, in the order of the
      rounds, at the rotating position. */
  method MeasureInterleaved(k: nat, trials: int) returns (warmups: seq<seq<Slot>>, timed: seq<seq<Slot>>)
    ensures |warmups| == |timed| == k
    ensures forall i :: 0 <= i < k ==> warmups[i] == Warmups(i)
    ensures forall i :: 0 <= i < k ==> timed[i] == Schedule(i, if trials < 0 then 0 else trials, k)
    ensures forall i :: 0 <= i < k ==> |warmups[i]| == 1 && warmups[i][0].round == 0 && warmups[i][0].position == i
    ensures forall i :: 0 <= i < k ==> |timed[i]| == if trials < 0 then 0 else trials
    ensures forall i, t :: 0 <= i < k && 0 <= t < trials ==>
      && timed[i][t].round == t
      && timed[i][t].position < k
      && (timed[i][t].position + t) % k == i
  {
    warmups := seq(k, _ => []);
    var w := 0;
    while w < WARMUP_RACES
      invariant 0 <= w <= WARMUP_RACES && |warmups| == k
      invariant forall i :: 0 <= i < k ==> |warmups[i]| == w && forall u :: 0 <= u < w ==> warmups[i][u] == Slot(u, i)
    {
      var i := 0;
      while i < k
        invariant 0 <= i <= k && |warmups| == k
        invariant forall c :: 0 <= c < k ==>
          && |warmups[c]| == (if c < i then w + 1 else w)
          && forall u :: 0 <= u < |warmups[c]| ==> warmups[c][u] == Slot(u, c)
      {
        warmups := warmups[i := warmups[i] + [Slot(w, i)]];
        i := i + 1;
      }
      w := w + 1;
    }
    timed := seq(k, _ => []);
    var t := 0;
    while t < trials
      invariant 0 <= t && (t <= trials || t == 0)
      invariant |timed| == k
      invariant forall i :: 0 <= i < k ==> timed[i] == Schedule(i, t, k)
    {
      var j := 0;
      while j < k
        invariant 0 <= j <= k && |timed| == k
        invariant forall i :: 0 <= i < k ==>
          timed[i] == if Position(i, t, k) < j then Schedule(i, t + 1, k) else Schedule(i, t, k)
      {
        var i := (j + t) % k;
        ScheduleStep(i, t, k);
        forall c | 0 <= c < k ensures Position(c, t, k) == j <==> c == i {
          RoundIsPermutation(c, j, t, k);
        }
        timed := timed[i := timed[i] + [Slot(t, j)]];
        j := j + 1;
      }
      t := t + 1;
    }
    forall i, t | 0 <= i < k && 0 <= t < trials
      ensures timed[i][t].round == t && timed[i][t].position < k && (timed[i][t].position + t) % k == i
    {
      RoundIsPermutation(i, Position(i, t, k), t, k);
    }
  }

  lemma ScheduleStep(i: nat, t: nat, k: nat)
    requires i < k
    ensures Schedule(i, t + 1, k) == Schedule(i, t, k) + [Slot(t, Position(i, t, k))]
  {
  }

  // ---- Fairness ----

  /** How many of these races were run at position j of their round. */
  function TimesAt(races: seq<Slot>, j: nat): nat {
    if races == [] then 0
    else TimesAt(races[..|races| - 1], j) + (if races[|races| - 1].position == j then 1 else 0)
  }

  // The round, modulo k, in which contender i is raced at position j.
  function Turn(i: nat, j: nat, k: nat): nat
    requires i < k && j < k
  {
    if i >= j then i - j else i + k - j
  }

  lemma PositionByTurn(i: nat, j: nat, t: nat, k: nat)
    requires i < k && j < k
    ensures Position(i, t, k) == j <==> t % k == Turn(i, j, k)
  {
    PositionValue(i, t, k);
    Fundamental(t, k);
  }

  // The numbers below t that leave remainder r, given quotient and remainder of t.
  function Share(quotient: nat, remainder: nat, r: nat): nat {
    quotient + (if remainder > r then 1 else 0)
  }

  lemma ShareStep(t: nat, r: nat, k: nat)
    requires r < k
    ensures Share((t + 1) / k, (t + 1) % k, r) == Share(t / k, t % k, r) + (if t % k == r then 1 else 0)
  {
    Fundamental(t, k);
    DivModSucc(t, k);
  }

  lemma {:induction false} TimesAtShare(i: nat, j: nat, t: nat, k: nat)
    requires i < k && j < k
    ensures TimesAt(Schedule(i, t, k), j) == Share(t / k, t % k, Turn(i, j, k))
  {
    if t == 0 {
      ModUnique(0, k, 0, 0);
    } else {
      TimesAtShare(i, j, t - 1, k);
      ScheduleStep(i, t - 1, k);
      assert Schedule(i, t, k)[..t - 1] == Schedule(i, t - 1, k);
      PositionByTurn(i, j, t - 1, k);
      ShareStep(t - 1, Turn(i, j, k), k);
    }
  }

  /** No contender systematically gets any position: over any number of trials the counts of its timed
      races at any two positions differ by at most one, and over a multiple of k trials are equal. */
  lemma RotationIsFair(i: nat, j: nat, j': nat, trials: nat, k: nat)
    requires i < k && j < k && j' < k
    ensures -1 <= TimesAt(Schedule(i, trials, k), j) - TimesAt(Schedule(i, trials, k), j') <= 1
    ensures trials % k == 0 ==> TimesAt(Schedule(i, trials, k), j) == trials / k
  {
    TimesAtShare(i, j, trials, k);
    TimesAtShare(i, j', trials, k);
  }
}
