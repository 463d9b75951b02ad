/** The credential refresher: when it fetches, what the repository's pool runs on meanwhile, and
    how many credentials are alive. A fetch that succeeds takes no time; building a pool, waiting
    for the old one to close, and a fetch that fails may take any. Times are nanoseconds since the
    start-up fetch. */
module Leases {
  import opened Sets

  const SECOND: nat := 1_000_000_000
  const RETRY: nat := 30_000_000_000

  /** What comes of one round of the loop: no credential, a credential but no pool, or a new pool
      in place after `building` whose SetPool has `waited` for the old one to close. */
  datatype Round = FetchFailed(took: nat) | PoolFailed(took: nat) | Rotated(building: nat, waited: nat)

  /** `now` is the time of the next fetch, `held` the fetch time of the credential behind the
      repository's pool, `fetched` the times of all credentials Vault has handed out. */
  datatype Clock = Clock(now: nat, held: nat, fetched: seq<nat>)

  function Lease(seconds: nat): nat { seconds * SECOND }

  /** Half the lease, but never less than the retry pause. */
  function Interval(lease: nat): nat { if lease / 2 < RETRY then RETRY else lease / 2 }

  /** The service has run for `delay` since its start-up fetch when the loop begins. */
  function Begin(delay: nat): Clock { Clock(delay, 0, [0]) }

  /** One round: the callback returns before the pause begins. */
  function Next(lease: nat, c: Clock, round: Round): Clock {
    match round
    case FetchFailed(took) => c.(now := c.now + took + RETRY)
    case PoolFailed(took) => c.(now := c.now + took + Interval(lease), fetched := c.fetched + [c.now])
    case Rotated(building, waited) =>
      Clock(c.now + building + waited + Interval(lease), c.now, c.fetched + [c.now])
  }

  function After(lease: nat, delay: nat, rounds: seq<Round>): Clock {
    if rounds == [] then Begin(delay)
    else Next(lease, After(lease, delay, rounds[..|rounds| - 1]), rounds[|rounds| - 1])
  }

  // ---------------------------------------------------------------- the loop

  class Refresher {
    var now: nat
    var held: nat
    var fetched: seq<nat>

    constructor (delay: nat)
      ensures State() == Begin(delay)
    {
      now, held, fetched := delay, 0, [0];
    }

    ghost function State(): Clock
      reads this
    {
      Clock(now, held, fetched)
    }

    /** The loop until its context is cancelled, after `|rounds|` rounds. */
    method Run(lease: nat, ghost delay: nat, rounds: seq<Round>)
      requires State() == Begin(delay)
      modifies this
      ensures State() == After(lease, delay, rounds)
    {
      for i := 0 to |rounds|
        invariant State() == After(lease, delay, rounds[..i])
      {
        assert rounds[..i + 1][..i] == rounds[..i];
        if rounds[i].FetchFailed? {
          now := now + rounds[i].took;
          now := now + RETRY;
          continue;
        }
        fetched := fetched + [now];
        if rounds[i].Rotated? {
          held := now;
          now := now + rounds[i].building;
          now := now + rounds[i].waited;
        } else {
          now := now + rounds[i].took;
        }
        var interval := lease / 2;
        if interval < RETRY {
          interval := RETRY;
        }
        now := now + interval;
      }
      assert rounds[..|rounds|] == rounds;
    }
  }

  // ---------------------------------------------------------------- what the pool runs on

  /** The fetch time of the credential behind the repository's pool at instant `t`. */
  function Behind(lease: nat, delay: nat, rounds: seq<Round>, t: nat): nat {
    if rounds == [] then 0
    else
      var before, last := rounds[..|rounds| - 1], rounds[|rounds| - 1];
      var c := After(lease, delay, before);
      if t < c.now then Behind(lease, delay, before, t)
      else if last.Rotated? && t >= c.now + last.building then c.now
      else c.held
  }

  /** At every instant up to the next fetch the pool runs on a credential within its lease. */
  ghost predicate AlwaysInLease(lease: nat, delay: nat, rounds: seq<Round>) {
    forall t: nat :: t < After(lease, delay, rounds).now ==>
      Behind(lease, delay, rounds, t) <= t < Behind(lease, delay, rounds, t) + lease
  }

  /** When the present credential is replaced, if the next round is `round`, or the next fetch. */
  function Until(c: Clock, round: Round): nat { if round.Rotated? then c.now + round.building else c.now }

  /** The credential of each clock reading lasts until it is replaced, and until the next fetch. */
  predicate Lasts(lease: nat, c: Clock, round: Round) { Until(c, round) <= c.held + lease }

  predicate AllLast(lease: nat, delay: nat, rounds: seq<Round>)
    decreases |rounds|
  {
    && After(lease, delay, rounds).now <= After(lease, delay, rounds).held + lease
    && (rounds != [] ==>
          && AllLast(lease, delay, rounds[..|rounds| - 1])
          && Lasts(lease, After(lease, delay, rounds[..|rounds| - 1]), rounds[|rounds| - 1]))
  }

  lemma {:induction false} HeldIsPast(lease: nat, delay: nat, rounds: seq<Round>)
    ensures After(lease, delay, rounds).held <= After(lease, delay, rounds).now
  {
    if rounds != [] { HeldIsPast(lease, delay, rounds[..|rounds| - 1]); }
  }

  /** Right before a fetch the pool runs on the credential held then. */
  lemma BehindBeforeFetch(lease: nat, delay: nat, rounds: seq<Round>, t: nat)
    requires t + 1 == After(lease, delay, rounds).now
    ensures Behind(lease, delay, rounds, t) == After(lease, delay, rounds).held
  {
    assert Interval(lease) >= RETRY > 0;
  }

  lemma {:induction false} LastingCoversInstants(lease: nat, delay: nat, rounds: seq<Round>, t: nat)
    requires AllLast(lease, delay, rounds) && t < After(lease, delay, rounds).now
    ensures Behind(lease, delay, rounds, t) <= t < Behind(lease, delay, rounds, t) + lease
  {
    if rounds != [] {
      var before := rounds[..|rounds| - 1];
      HeldIsPast(lease, delay, before);
      if t < After(lease, delay, before).now { LastingCoversInstants(lease, delay, before, t); }
    }
  }

  lemma InstantsOfPrefix(lease: nat, delay: nat, rounds: seq<Round>)
    requires rounds != [] && AlwaysInLease(lease, delay, rounds)
    ensures AlwaysInLease(lease, delay, rounds[..|rounds| - 1])
  {
    var before := rounds[..|rounds| - 1];
    forall t: nat | t < After(lease, delay, before).now
      ensures Behind(lease, delay, before, t) <= t < Behind(lease, delay, before, t) + lease
    {
      assert Behind(lease, delay, rounds, t) == Behind(lease, delay, before, t);
    }
  }

  lemma {:induction false} InstantsNeedLasting(lease: nat, delay: nat, rounds: seq<Round>)
    requires AlwaysInLease(lease, delay, rounds)
    ensures AllLast(lease, delay, rounds)
    decreases |rounds|
  {
    var c := After(lease, delay, rounds);
    if c.now > 0 {
      BehindBeforeFetch(lease, delay, rounds, c.now - 1);
      assert c.now - 1 < c.held + lease;
    }
    if rounds != [] {
      var before, last := rounds[..|rounds| - 1], rounds[|rounds| - 1];
      InstantsOfPrefix(lease, delay, rounds);
      InstantsNeedLasting(lease, delay, before);
      var b := After(lease, delay, before);
      if last.Rotated? && last.building > 0 {
        var t := b.now + last.building - 1;
        assert Behind(lease, delay, rounds, t) == b.held;
      }
    }
  }

  // ---------------------------------------------------------------- the budget

  /** Since the last rotation: fetches that failed, pools that could not be built, and the time
      that those attempts, and the last rotation itself, took beyond the pauses. */
  datatype Tally = Tally(fetches: nat, pools: nat, spent: nat)

  function Since(rounds: seq<Round>): Tally {
    if rounds == [] then Tally(0, 0, 0)
    else
      var t := Since(rounds[..|rounds| - 1]);
      match rounds[|rounds| - 1]
      case FetchFailed(took) => Tally(t.fetches + 1, t.pools, t.spent + took)
      case PoolFailed(took) => Tally(t.fetches, t.pools + 1, t.spent + took)
      case Rotated(building, waited) => Tally(0, 0, building + waited)
  }

  predicate HasRotated(rounds: seq<Round>) {
    exists i :: 0 <= i < |rounds| && rounds[i].Rotated?
  }

  /** The time from the fetch of the credential behind the pool to the next fetch: the pause after
      its rotation or the delay of the start, a pause for every failure, and the time spent. */
  function Gap(lease: nat, delay: nat, rounds: seq<Round>): nat {
    var t := Since(rounds);
    (if HasRotated(rounds) then Interval(lease) else delay)
    + t.fetches * RETRY + Product(t.pools, Interval(lease)) + t.spent
  }

  function Product(a: nat, b: nat): nat { if a == 0 then 0 else Product(a - 1, b) + b }

  lemma RotatedSoFar(rounds: seq<Round>)
    requires rounds != []
    ensures HasRotated(rounds) <==> HasRotated(rounds[..|rounds| - 1]) || rounds[|rounds| - 1].Rotated?
  {
    var before := rounds[..|rounds| - 1];
    if i :| 0 <= i < |before| && before[i].Rotated? { assert rounds[i].Rotated?; }
    if i :| 0 <= i < |rounds| && rounds[i].Rotated? { assert i < |before| ==> before[i].Rotated?; }
  }

  lemma {:induction false} GapIsTheBudget(lease: nat, delay: nat, rounds: seq<Round>)
    ensures var c := After(lease, delay, rounds);
            c.now == c.held + Gap(lease, delay, rounds)
  {
    if rounds != [] {
      GapIsTheBudget(lease, delay, rounds[..|rounds| - 1]);
      RotatedSoFar(rounds);
    }
  }

  /** What the failures and waits since the last rotation leave of a lease: at the end of the
      rounds, and, before a rotation, with the building of the new pool. */
  predicate WithinBudget(lease: nat, delay: nat, rounds: seq<Round>)
    decreases |rounds|
  {
    && Gap(lease, delay, rounds) <= lease
    && (rounds != [] ==>
          && WithinBudget(lease, delay, rounds[..|rounds| - 1])
          && (rounds[|rounds| - 1].Rotated? ==>
                Gap(lease, delay, rounds[..|rounds| - 1]) + rounds[|rounds| - 1].building <= lease))
  }

  lemma {:induction false} BudgetIsLasting(lease: nat, delay: nat, rounds: seq<Round>)
    ensures AllLast(lease, delay, rounds) <==> WithinBudget(lease, delay, rounds)
    decreases |rounds|
  {
    GapIsTheBudget(lease, delay, rounds);
    if rounds != [] {
      GapIsTheBudget(lease, delay, rounds[..|rounds| - 1]);
      BudgetIsLasting(lease, delay, rounds[..|rounds| - 1]);
    }
  }

  /** For every lease and every run: the pool runs on a credential within its lease at every
      instant exactly when, at each point, these fit into one lease: half a lease (or the half
      minute that replaces it), half a minute for each failed fetch, an interval for each failed
      pool, and the time spent since the last rotation, its wait for the old pool included. */
  lemma InLeaseExactlyWithinBudget(lease: nat, delay: nat, rounds: seq<Round>)
    ensures AlwaysInLease(lease, delay, rounds) <==> WithinBudget(lease, delay, rounds)
  {
    BudgetIsLasting(lease, delay, rounds);
    if AlwaysInLease(lease, delay, rounds) { InstantsNeedLasting(lease, delay, rounds); }
    if AllLast(lease, delay, rounds) {
      forall t: nat | t < After(lease, delay, rounds).now
        ensures Behind(lease, delay, rounds, t) <= t < Behind(lease, delay, rounds, t) + lease
      {
        LastingCoversInstants(lease, delay, rounds, t);
      }
    }
  }

  // ---------------------------------------------------------------- leases of a minute and more

  /** What half a lease leaves beyond half a minute for each of its whole minutes. */
  function Slack(seconds: nat): nat { Lease(seconds) / 2 - seconds / 60 * RETRY }

  lemma SlackOfSeconds(seconds: nat)
    requires seconds >= 60
    ensures Lease(seconds) / 2 >= RETRY
    ensures Lease(seconds) / 2 >= seconds / 60 * RETRY
    ensures Slack(seconds) == seconds % 60 * (SECOND / 2)
    ensures Lease(seconds) == Lease(seconds) / 2 + seconds / 60 * RETRY + Slack(seconds)
  {
    assert seconds == seconds / 60 * 60 + seconds % 60;
    assert Lease(seconds) / 2 == seconds * (SECOND / 2);
  }

  /** At most as many failed fetches in a row as the lease has minutes, and the time spent beyond
      the pauses within the slack, the building of the next pool included. */
  predicate FewFailures(seconds: nat, rounds: seq<Round>)
    requires seconds >= 60
    decreases |rounds|
  {
    var t := Since(rounds);
    && t.fetches <= seconds / 60 && t.pools == 0 && t.spent <= Slack(seconds)
    && (rounds != [] ==>
          var before, last := rounds[..|rounds| - 1], rounds[|rounds| - 1];
          && FewFailures(seconds, before)
          && (last.Rotated? ==> Since(before).spent + last.building <= Slack(seconds)))
  }

  /** Leases of a minute and more survive as many failed fetches in a row as they have minutes. */
  lemma LongLeasesHold(seconds: nat, delay: nat, rounds: seq<Round>)
    requires seconds >= 60 && delay <= Lease(seconds) / 2 && FewFailures(seconds, rounds)
    ensures AlwaysInLease(Lease(seconds), delay, rounds)
  {
    FewFailuresFit(seconds, delay, rounds);
    InLeaseExactlyWithinBudget(Lease(seconds), delay, rounds);
  }

  lemma {:induction false} FewFailuresFit(seconds: nat, delay: nat, rounds: seq<Round>)
    requires seconds >= 60 && delay <= Lease(seconds) / 2 && FewFailures(seconds, rounds)
    ensures WithinBudget(Lease(seconds), delay, rounds)
    decreases |rounds|
  {
    SlackOfSeconds(seconds);
    assert Since(rounds).fetches * RETRY <= seconds / 60 * RETRY;
    if rounds != [] {
      var before := rounds[..|rounds| - 1];
      FewFailuresFit(seconds, delay, before);
      assert Since(before).fetches * RETRY <= seconds / 60 * RETRY;
    }
  }

  /** One failure more is too many, for every lease; */
  lemma OneMoreFailureLapses(seconds: nat, delay: nat, rounds: seq<Round>)
    requires seconds >= 60 && HasRotated(rounds) && Since(rounds).fetches > seconds / 60
    ensures !AlwaysInLease(Lease(seconds), delay, rounds)
  {
    SlackOfSeconds(seconds);
    assert Since(rounds).fetches * RETRY >= seconds / 60 * RETRY + RETRY;
    assert Slack(seconds) < RETRY;
    InLeaseExactlyWithinBudget(Lease(seconds), delay, rounds);
  }

  /** and so is any wait beyond the slack after the last failure that is allowed: none at all when
      the lease is in whole minutes. */
  lemma WaitBeyondSlackLapses(seconds: nat, delay: nat, rounds: seq<Round>)
    requires seconds >= 60 && HasRotated(rounds)
    requires Since(rounds).fetches == seconds / 60 && Since(rounds).spent > Slack(seconds)
    ensures !AlwaysInLease(Lease(seconds), delay, rounds)
    ensures seconds % 60 == 0 ==> Slack(seconds) == 0
  {
    SlackOfSeconds(seconds);
    InLeaseExactlyWithinBudget(Lease(seconds), delay, rounds);
  }

  /** Leases below half a minute have lapsed by every fetch after the first rotation, whatever
      succeeds. */
  lemma ShortLeasesLapse(seconds: nat, delay: nat, rounds: seq<Round>)
    requires seconds < 30 && HasRotated(rounds)
    ensures var c := After(Lease(seconds), delay, rounds); c.held + Lease(seconds) < c.now
    ensures !AlwaysInLease(Lease(seconds), delay, rounds)
  {
    GapIsTheBudget(Lease(seconds), delay, rounds);
    InLeaseExactlyWithinBudget(Lease(seconds), delay, rounds);
  }

  // ---------------------------------------------------------------- what the clock records

  /** Each round: the credential it fetched, if it did, and how long it was to the next one. In
      nanoseconds, the pause is half a lease after a fetch, and 30 seconds at the least. */
  lemma RoundByRound(seconds: nat, delay: nat, rounds: seq<Round>)
    requires rounds != []
    ensures var lease := seconds * 1_000_000_000;
      var c, d := After(lease, delay, rounds[..|rounds| - 1]), After(lease, delay, rounds);
      match rounds[|rounds| - 1]
      case FetchFailed(took) => d == Clock(c.now + took + 30_000_000_000, c.held, c.fetched)
      case PoolFailed(took) =>
        && d.held == c.held && d.fetched == c.fetched + [c.now]
        && (seconds >= 60 ==> 2 * (d.now - c.now - took) == lease)
        && (seconds < 60 ==> d.now == c.now + took + 30_000_000_000)
      case Rotated(building, waited) =>
        && d.held == c.now && d.fetched == c.fetched + [c.now]
        && (seconds >= 60 ==> 2 * (d.now - c.now - building - waited) == lease)
        && (seconds < 60 ==> d.now == c.now + building + waited + 30_000_000_000)
  {
    var lease := seconds * 1_000_000_000;
    assert lease / 2 == seconds * 500_000_000;
  }

  // ---------------------------------------------------------------- how many are alive

  /** The credentials whose lease covers instant `t`, by their number; 0 is the start-up one. */
  function Live(lease: nat, fetched: seq<nat>, t: nat): set<nat> {
    set i: nat | i < |fetched| && fetched[i] <= t < fetched[i] + lease
  }

  ghost predicate Spaced(lease: nat, c: Clock) {
    && |c.fetched| >= 1
    && (forall i :: 1 <= i < |c.fetched| ==> c.fetched[i] + Interval(lease) <= c.now)
    && (forall i :: 1 <= i < |c.fetched| - 1 ==> c.fetched[i] + Interval(lease) <= c.fetched[i + 1])
  }

  lemma {:induction false} FetchesAreSpaced(lease: nat, delay: nat, rounds: seq<Round>)
    ensures Spaced(lease, After(lease, delay, rounds))
  {
    if rounds != [] { FetchesAreSpaced(lease, delay, rounds[..|rounds| - 1]); }
  }

  lemma {:induction false} FarApart(lease: nat, c: Clock, i: nat, j: nat)
    requires Spaced(lease, c) && 1 <= i && i + 2 <= j < |c.fetched|
    ensures c.fetched[i] + 2 * Interval(lease) <= c.fetched[j]
  {
    assert c.fetched[i] + Interval(lease) <= c.fetched[i + 1];
    assert c.fetched[j - 1] + Interval(lease) <= c.fetched[j];
    if j > i + 2 { FarApart(lease, c, i, j - 1); }
  }

  /** At any instant at most three credentials are alive, the start-up one included: the fetches
      that fall into any half-open window of the length of a lease. */
  lemma AtMostThreeAlive(seconds: nat, delay: nat, rounds: seq<Round>, t: nat)
    ensures |Live(Lease(seconds), After(Lease(seconds), delay, rounds).fetched, t)| <= 3
  {
    var lease := Lease(seconds);
    FetchesAreSpaced(lease, delay, rounds);
    assert 2 * Interval(lease) >= lease;
    SpacedMeansThree(lease, After(lease, delay, rounds), t);
  }

  lemma SpacedMeansThree(lease: nat, c: Clock, t: nat)
    requires Spaced(lease, c) && 2 * Interval(lease) >= lease
    ensures |Live(lease, c.fetched, t)| <= 3
  {
    var live := Live(lease, c.fetched, t);
    if j :| j in live && j >= 1 {
      var i := Least(live, j);
      forall k | k in live ensures k in {0, i, i + 1} {
        if k > i + 1 { FarApart(lease, c, i, k); }
      }
      SubsetCount(live, {0, i, i + 1});
    } else {
      assert live <= {0};
      SubsetCount(live, {0});
    }
  }

  lemma {:induction false} Least(s: set<nat>, j: nat) returns (i: nat)
    requires j in s && j >= 1
    ensures i in s && i >= 1 && forall k :: k in s && k >= 1 ==> i <= k
    decreases j
  {
    if k :| k in s && 1 <= k < j { i := Least(s, k); } else { i := j; }
  }

  /** Three is reached by every lease of a minute and more, when the loop starts at once. */
  lemma ThreeAreReached(seconds: nat)
    requires seconds >= 60
    ensures var lease := Lease(seconds);
            Live(lease, After(lease, 0, [Rotated(0, 0), Rotated(0, 0)]).fetched, lease / 2) == {0, 1, 2}
  {
    var lease, one, two := Lease(seconds), [Rotated(0, 0)], [Rotated(0, 0), Rotated(0, 0)];
    assert two[..1] == one && one[..0] == [];
    assert After(lease, 0, one) == Clock(Interval(lease), 0, [0, 0]);
    assert After(lease, 0, two).fetched == [0, 0, Interval(lease)];
  }
}
