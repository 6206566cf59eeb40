/** Bounded revision: an answer that is not acceptable is revised until it is, for a fixed number of rounds at most. */
module Revision {
  import opened Wrappers

  datatype RevisionError = Exhausted | Unsupported | NoProgress

  /** The revision loop from a given round on; `revise` is absent when the worker cannot revise. */
  ghost function Outcome<T>(ok: T -> bool, revise: Option<(T, nat) -> T>, x: T, round: nat, max: nat)
    : Result<T, RevisionError>
    decreases max - round
  {
    if ok(x) then Ok(x)
    else if round >= max then Err(Exhausted)
    else if revise.None? then Err(Unsupported)
    else
      var next := revise.value(x, round + 1);
      if next == x then Err(NoProgress) else Outcome(ok, revise, next, round + 1, max)
  }

  /** The answer of round k, if the loop gets that far. */
  ghost function AnswerAt<T>(revise: Option<(T, nat) -> T>, first: T, k: nat): T {
    if k == 0 || revise.None? then first else revise.value(AnswerAt(revise, first, k - 1), k)
  }

  /** The reviser is told the number of the round, the first revision being round 1. */
  lemma RoundsAreNumbered(max: nat)
    ensures Outcome((n: nat) => n == max, Some((n: nat, round: nat) => round), 0, 0, max) == Ok(max)
  {
    NumbersFollow(0, max);
  }

  lemma {:induction false} NumbersFollow(round: nat, max: nat)
    requires round <= max
    ensures Outcome((n: nat) => n == max, Some((n: nat, next: nat) => next), round, round, max) == Ok(max)
    decreases max - round
  {
    if round < max { NumbersFollow(round + 1, max); }
  }

  /** Every answer before round k was unacceptable, and every revision up to it changed something. */
  ghost predicate GetsTo<T(!new)>(ok: T -> bool, revise: Option<(T, nat) -> T>, first: T, k: nat) {
    && (k > 0 ==> revise.Some?)
    && forall j :: 0 <= j < k ==> !ok(AnswerAt(revise, first, j))
                                  && AnswerAt(revise, first, j + 1) != AnswerAt(revise, first, j)
  }

  ghost predicate SettlesAt<T(!new)>(ok: T -> bool, revise: Option<(T, nat) -> T>, first: T, k: nat) {
    GetsTo(ok, revise, first, k) && ok(AnswerAt(revise, first, k))
  }

  lemma PassedMeans<T(!new)>(ok: T -> bool, revise: Option<(T, nat) -> T>, first: T, j: nat, k: nat)
    ensures j < k && GetsTo(ok, revise, first, k) ==>
              && revise.Some? && !ok(AnswerAt(revise, first, j))
              && AnswerAt(revise, first, j + 1) != AnswerAt(revise, first, j)
  {
  }

  /** The loop from a round it reaches ends well exactly if some round up to the limit settles it. */
  lemma {:induction false} FromRound<T(!new)>(ok: T -> bool, revise: Option<(T, nat) -> T>, first: T,
                                              round: nat, max: nat)
    requires GetsTo(ok, revise, first, round) && round <= max
    ensures var r := Outcome(ok, revise, AnswerAt(revise, first, round), round, max);
            && (r.Ok? <==> exists k :: round <= k <= max && SettlesAt(ok, revise, first, k))
            && (forall k :: round <= k <= max && SettlesAt(ok, revise, first, k) ==>
                  r == Ok(AnswerAt(revise, first, k)))
    decreases max - round
  {
    var x := AnswerAt(revise, first, round);
    if ok(x) {
      assert SettlesAt(ok, revise, first, round);
    } else if round < max && revise.Some? && AnswerAt(revise, first, round + 1) != x {
      FromRound(ok, revise, first, round + 1, max);
      assert !SettlesAt(ok, revise, first, round);
    } else {
      forall k | round <= k <= max ensures !SettlesAt(ok, revise, first, k) {
        PassedMeans(ok, revise, first, round, k);
      }
    }
  }

  /**
   The loop accepts an answer exactly if, for some round within the limit, that round's answer is acceptable, no
   earlier one is, and every revision on the way changed something; it is then that round's answer.
   */
  lemma OutcomeExactly<T(!new)>(ok: T -> bool, revise: Option<(T, nat) -> T>, first: T, max: nat)
    ensures var r := Outcome(ok, revise, first, 0, max);
            && (r.Ok? <==> exists k :: 0 <= k <= max && SettlesAt(ok, revise, first, k))
            && (forall k :: 0 <= k <= max && SettlesAt(ok, revise, first, k) ==> r == Ok(AnswerAt(revise, first, k)))
            && (r.Ok? ==> ok(r.value))
  {
    FromRound(ok, revise, first, 0, max);
    var r := Outcome(ok, revise, first, 0, max);
    if r.Ok? {
      var k :| 0 <= k <= max && SettlesAt(ok, revise, first, k);
      assert r == Ok(AnswerAt(revise, first, k));
    }
  }

  /** The loop is at round k with an unacceptable answer. */
  ghost predicate FailsAt<T(!new)>(ok: T -> bool, revise: Option<(T, nat) -> T>, first: T, k: nat) {
    GetsTo(ok, revise, first, k) && !ok(AnswerAt(revise, first, k))
  }

  /** The revision after round k leaves an unacceptable answer as it was. */
  ghost predicate StallsAt<T(!new)>(ok: T -> bool, revise: Option<(T, nat) -> T>, first: T, k: nat) {
    revise.Some? && FailsAt(ok, revise, first, k) && AnswerAt(revise, first, k + 1) == AnswerAt(revise, first, k)
  }

  /** What each error says about the answers from a round on. */
  lemma {:induction false} FailureFrom<T(!new)>(ok: T -> bool, revise: Option<(T, nat) -> T>, first: T,
                                                round: nat, max: nat)
    requires GetsTo(ok, revise, first, round) && round <= max
    ensures var r := Outcome(ok, revise, AnswerAt(revise, first, round), round, max);
            && (r == Err(Exhausted) <==> FailsAt(ok, revise, first, max))
            && (r == Err(Unsupported) <==> revise.None? && round < max && FailsAt(ok, revise, first, round))
            && (r == Err(NoProgress) <==>
                  exists k :: round <= k < max && StallsAt(ok, revise, first, k))
    decreases max - round
  {
    var x := AnswerAt(revise, first, round);
    forall k | round < k ensures GetsTo(ok, revise, first, k) ==>
                                   !ok(x) && revise.Some? && AnswerAt(revise, first, round + 1) != x
    {
      PassedMeans(ok, revise, first, round, k);
    }
    if ok(x) {
      assert forall k: nat :: round <= k ==> !FailsAt(ok, revise, first, k);
    } else if round >= max {
      assert FailsAt(ok, revise, first, max);
    } else if revise.None? {
      assert FailsAt(ok, revise, first, round) && !GetsTo(ok, revise, first, max);
    } else if AnswerAt(revise, first, round + 1) == x {
      assert StallsAt(ok, revise, first, round);
    } else {
      FailureFrom(ok, revise, first, round + 1, max);
    }
  }

  /**
   Which error a failing loop ends with: the rounds are exhausted exactly if the last answer allowed was reached and
   unacceptable; a reviser is missing exactly if there was none, a second round and an unacceptable first answer; and
   progress is missing exactly if some round's revision left an unacceptable answer as it was.
   */
  lemma FailureExactly<T(!new)>(ok: T -> bool, revise: Option<(T, nat) -> T>, first: T, max: nat)
    ensures var r := Outcome(ok, revise, first, 0, max);
            && (r == Err(Exhausted) <==> FailsAt(ok, revise, first, max))
            && (r == Err(Unsupported) <==> revise.None? && max > 0 && !ok(first))
            && (r == Err(NoProgress) <==>
                  exists k :: 0 <= k < max && StallsAt(ok, revise, first, k))
  {
    FailureFrom(ok, revise, first, 0, max);
  }
}
