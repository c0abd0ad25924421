/**
 * The governance canister's vote tally: per rule id, one yes/no vote per
 * voter (the last one wins) accepted during a fixed window that opens with
 * the rule's first vote, and a strict-majority decision recorded when the
 * tally is processed. Time is the explicit parameter `now`, in nanoseconds
 * since the epoch, the resolution of `SystemTime`; the timer that runs the
 * tally and the forwarding of the decision through `quill` are not part of
 * this model.
 */
module Governance {
  import opened Wrappers
  import opened IcTypes
  import Decimal

  const NanosPerSecond: nat := 1_000_000_000
  /** `VOTING_PERIOD`: one hour. */
  const VotingPeriod: nat := 3600 * NanosPerSecond

  const PeriodEnded: string := "Voting period has ended for this rule."
  const VoteAccepted: string := "Vote submitted successfully."
  const NoVoting: string := "No voting found for this rule ID."

  /** `RuleVote` without its timer handle: the votes, when voting opened, and each voter's neuron id. */
  datatype RuleVote = RuleVote(votes: map<Principal, bool>, startTime: int, neuronIds: map<Principal, string>)

  /** `start_time.elapsed().unwrap_or(Duration::ZERO)`: a clock behind the start time reads as zero. */
  function Elapsed(startTime: int, now: int): (d: nat)
    ensures now >= startTime ==> d == now - startTime
    ensures now < startTime ==> d == 0
  {
    if now >= startTime then now - startTime else 0
  }

  /** The voters who voted yes. */
  function YesVoters(votes: map<Principal, bool>): set<Principal>
  {
    set v | v in votes && votes[v]
  }

  /** The voters who voted no. */
  function NoVoters(votes: map<Principal, bool>): set<Principal>
  {
    set v | v in votes && !votes[v]
  }

  /** Every voter is counted once, on one side. */
  lemma VotersPartition(votes: map<Principal, bool>)
    ensures YesVoters(votes) !! NoVoters(votes)
    ensures |YesVoters(votes)| + |NoVoters(votes)| == |votes|
  {
    assert YesVoters(votes) + NoVoters(votes) == votes.Keys;
    assert |votes.Keys| == |votes|;
  }

  /** `yes_count > total_count / 2` with integer division. */
  predicate Approval(yes: nat, no: nat)
  {
    yes > (yes + no) / 2
  }

  /** The majority test is a strict majority: a tie, and no votes at all, reject. */
  lemma ApprovalIsStrictMajority(yes: nat, no: nat)
    ensures Approval(yes, no) <==> yes > no
  {
  }

  /** Counts the yes and no votes, visiting the voters in any order as the `HashMap` iteration does. */
  method CountVotes(votes: map<Principal, bool>) returns (yes: nat, no: nat)
    ensures yes == |YesVoters(votes)| && no == |NoVoters(votes)|
    ensures yes + no == |votes|
  {
    yes, no := 0, 0;
    var remaining := votes.Keys;
    while remaining != {}
      invariant remaining <= votes.Keys
      invariant yes == |set v | v in votes.Keys - remaining && votes[v]|
      invariant no == |set v | v in votes.Keys - remaining && !votes[v]|
      decreases |remaining|
    {
      var voter :| voter in remaining;
      ghost var doneYes := set v | v in votes.Keys - remaining && votes[v];
      ghost var doneNo := set v | v in votes.Keys - remaining && !votes[v];
      if votes[voter] {
        yes := yes + 1;
        assert (set v | v in votes.Keys - (remaining - {voter}) && votes[v]) == doneYes + {voter};
        assert (set v | v in votes.Keys - (remaining - {voter}) && !votes[v]) == doneNo;
      } else {
        no := no + 1;
        assert (set v | v in votes.Keys - (remaining - {voter}) && votes[v]) == doneYes;
        assert (set v | v in votes.Keys - (remaining - {voter}) && !votes[v]) == doneNo + {voter};
      }
      remaining := remaining - {voter};
    }
    assert votes.Keys - remaining == votes.Keys;
    VotersPartition(votes);
  }

  /** `remaining.as_secs()`: the whole seconds left in the window, zero once it has passed. */
  function RemainingSeconds(startTime: int, now: int): (s: nat)
    ensures Elapsed(startTime, now) >= VotingPeriod ==> s == 0
    ensures Elapsed(startTime, now) < VotingPeriod ==> s * NanosPerSecond <= VotingPeriod - Elapsed(startTime, now) < (s + 1) * NanosPerSecond
    ensures s <= 3600
  {
    var elapsed := Elapsed(startTime, now);
    (if elapsed < VotingPeriod then VotingPeriod - elapsed else 0) / NanosPerSecond
  }

  /** The text `get_voting_status` formats. */
  function StatusLine(yes: nat, no: nat, total: nat, remaining: nat): string
  {
    "Voting status: Yes: " + Decimal.NatToString(yes) + ", No: " + Decimal.NatToString(no)
      + ", Total: " + Decimal.NatToString(total) + ", Time remaining: " + Decimal.NatToString(remaining)
      + " seconds"
  }

  class GovernanceCanister {
    /** `RULE_VOTES`. */
    var ruleVotes: map<U64, RuleVote>
    /** `RULE_RESULTS`. */
    var ruleResults: map<U64, bool>

    /** Results exist only for rules with a tally, and every recorded vote has its voter's neuron id. */
    ghost predicate Valid()
      reads this
    {
      && ruleResults.Keys <= ruleVotes.Keys
      && forall id | id in ruleVotes :: ruleVotes[id].votes.Keys == ruleVotes[id].neuronIds.Keys
    }

    constructor ()
      ensures Valid() && ruleVotes == map[] && ruleResults == map[]
    {
      ruleVotes := map[];
      ruleResults := map[];
    }

    /**
     * `submit_vote`: the rule's first vote opens its window at `now`; a vote arriving
     * more than `VotingPeriod` after that is refused, one arriving exactly at its end
     * is still taken; a voter's new vote and neuron id replace the old ones.
     */
    method SubmitVote(voter: Principal, neuronId: string, ruleId: U64, approved: bool, now: int)
      returns (msg: string)
      requires Valid()
      modifies this
      ensures Valid()
      ensures ruleResults == old(ruleResults)
      ensures ruleId !in old(ruleVotes) ==>
        && msg == VoteAccepted
        && ruleVotes == old(ruleVotes)[ruleId := RuleVote(map[voter := approved], now, map[voter := neuronId])]
      ensures ruleId in old(ruleVotes) && Elapsed(old(ruleVotes)[ruleId].startTime, now) > VotingPeriod ==>
        msg == PeriodEnded && ruleVotes == old(ruleVotes)
      ensures ruleId in old(ruleVotes) && Elapsed(old(ruleVotes)[ruleId].startTime, now) <= VotingPeriod ==>
        var entry := old(ruleVotes)[ruleId];
        && msg == VoteAccepted
        && ruleVotes == old(ruleVotes)[ruleId := entry.(votes := entry.votes[voter := approved],
                                                       neuronIds := entry.neuronIds[voter := neuronId])]
    {
      var entry: RuleVote;
      if ruleId in ruleVotes {
        entry := ruleVotes[ruleId];
      } else {
        entry := RuleVote(map[], now, map[]);
        ruleVotes := ruleVotes[ruleId := entry];
      }
      if Elapsed(entry.startTime, now) > VotingPeriod {
        msg := PeriodEnded;
        return;
      }
      entry := entry.(votes := entry.votes[voter := approved], neuronIds := entry.neuronIds[voter := neuronId]);
      ruleVotes := ruleVotes[ruleId := entry];
      msg := VoteAccepted;
    }

    /**
     * `process_votes`: record whether the rule's votes hold a strict majority of yes;
     * nothing happens without a tally, and the tally itself is kept.
     */
    method ProcessVotes(ruleId: U64)
      requires Valid()
      modifies this
      ensures Valid()
      ensures ruleVotes == old(ruleVotes)
      ensures ruleId !in ruleVotes ==> ruleResults == old(ruleResults)
      ensures ruleId in ruleVotes ==>
        ruleResults == old(ruleResults)[ruleId := |YesVoters(ruleVotes[ruleId].votes)| > |NoVoters(ruleVotes[ruleId].votes)|]
    {
      if ruleId in ruleVotes {
        var yes, no := CountVotes(ruleVotes[ruleId].votes);
        var approval := yes > (yes + no) / 2;
        ApprovalIsStrictMajority(yes, no);
        ruleResults := ruleResults[ruleId := approval];
      }
    }

    /** `get_rule_result`: the recorded decision, absent until the tally has been processed. */
    function GetRuleResult(ruleId: U64): (r: Option<bool>)
      reads this
      ensures r.Some? <==> ruleId in ruleResults
      ensures r.Some? ==> r.value == ruleResults[ruleId]
    {
      if ruleId in ruleResults then Some(ruleResults[ruleId]) else None
    }

    /** `get_voting_status`: the counts of the tally and the seconds left, or a fixed text without a tally. */
    method GetVotingStatus(ruleId: U64, now: int) returns (status: string)
      ensures ruleId !in ruleVotes ==> status == NoVoting
      ensures ruleId in ruleVotes ==>
        var entry := ruleVotes[ruleId];
        status == StatusLine(|YesVoters(entry.votes)|, |NoVoters(entry.votes)|, |entry.votes|,
                             RemainingSeconds(entry.startTime, now))
    {
      if ruleId in ruleVotes {
        var entry := ruleVotes[ruleId];
        var yes, no := CountVotes(entry.votes);
        var total := yes + no;
        var elapsed := Elapsed(entry.startTime, now);
        var remaining := if elapsed < VotingPeriod then VotingPeriod - elapsed else 0;
        status := StatusLine(yes, no, total, remaining / NanosPerSecond);
      } else {
        status := NoVoting;
      }
    }
  }
}
