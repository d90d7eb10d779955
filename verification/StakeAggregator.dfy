/** Counts the stake of distinct voters against the quorum threshold
    (consensus/core/src/stake_aggregator.rs). */
module StakeAggregators {
  import opened Committees

  class StakeAggregator {
    var votes: set<nat>
    var stake: nat

    ghost predicate Valid(c: Committee)
      reads this
    {
      stake == StakeOf(c.stakes, votes)
    }

    constructor (c: Committee)
      ensures Valid(c) && votes == {}
    {
      votes, stake := {}, 0;
      new;
      StakeOfEmpty(c.stakes, {}, c.Size());
    }

    /** A voter counts once, however often it votes. */
    method Add(vote: nat, c: Committee) returns (reached: bool)
      requires Valid(c) && c.IsValidIndex(vote)
      modifies this
      ensures Valid(c) && votes == old(votes) + {vote}
      ensures reached <==> IsQuorum(c, votes)
    {
      if vote !in votes {
        StakeOfInsert(c.stakes, votes, vote, c.Size());
        votes := votes + {vote};
        stake := stake + c.Stake(vote);
      } else {
        assert votes == votes + {vote};
      }
      reached := c.ReachedQuorum(stake);
    }
  }
}
