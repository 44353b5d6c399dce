/**
 The leader's tally: votes are kept per round, phase and payload, each set with the power that it
 has gathered and the bitmap of its signers.
 */
module Votes {
  import opened Options
  import opened Quorum
  import opened Certificates

  type Key = (nat, Phase, Payload)

  datatype VoteSet = VoteSet(vote: Payload, totalVotedPower: nat, signers: set<nat>)

  datatype VoteError = BadAttachment | NotInSet | DuplicateVote

  function KeyOf(p: Payload): Key {
    (p.view.round, p.view.phase, p)
  }

  function VoteSetOf(votes: map<Key, VoteSet>, p: Payload): VoteSet {
    if KeyOf(p) in votes then votes[KeyOf(p)] else VoteSet(p, 0, {})
  }

  class Tally {
    const committee: Committee
    var votes: map<Key, VoteSet>

    /** The power of every vote set is the power of its distinct committee signers. */
    ghost predicate Valid()
      reads this
    {
      forall key :: key in votes ==>
        && KeyOf(votes[key].vote) == key
        && votes[key].totalVotedPower == committee.Power(votes[key].signers)
        && forall i :: i in votes[key].signers ==> i < committee.Size()
    }

    /** Some payload of the round and phase has gathered a two-thirds majority. */
    ghost predicate HasMajority(round: nat, phase: Phase)
      reads this
    {
      exists key :: key in votes && key.0 == round && key.1 == phase && committee.IsQuorum(votes[key].signers)
    }

    /** Everybody in a vote set has signed its payload. */
    ghost predicate SignedBy(log: seq<Signed>)
      reads this
    {
      forall key, i :: key in votes && i in votes[key].signers ==> Signed(i, key.2) in log
    }

    constructor (committee: Committee)
      ensures Valid() && votes == map[] && this.committee == committee
    {
      this.committee := committee;
      this.votes := map[];
    }

    /** The vote set of a payload, created empty if need be. */
    method GetVoteSet(p: Payload) returns (voteSet: VoteSet)
      requires Valid()
      modifies this`votes
      ensures Valid()
      ensures voteSet == VoteSetOf(old(votes), p)
      ensures votes == old(votes)[KeyOf(p) := voteSet]
      ensures forall log :: old(SignedBy(log)) ==> SignedBy(log)
    {
      if KeyOf(p) !in votes {
        assert committee.Power({}) == 0 by {
          PowerOfNobody(committee.powers, |committee.powers|);
        }
        votes := votes[KeyOf(p) := VoteSet(p, 0, {})];
      }
      voteSet := votes[KeyOf(p)];
    }

    /**
     Adds one vote. A vote is counted at most once per signer, so the tally moves exactly by the
     signer's power; a rejected vote leaves every vote set's power and signers as they were.
     attachmentOk is the verdict on the evidence and lock that an election vote carries.
     */
    method AddVote(sender: nat, p: Payload, attachmentOk: bool) returns (r: Option<VoteError>)
      requires Valid()
      modifies this`votes
      ensures Valid()
      ensures r.Some? <==> !attachmentOk || sender >= committee.Size() || sender in VoteSetOf(old(votes), p).signers
      ensures r.Some? ==> votes == old(votes)[KeyOf(p) := VoteSetOf(old(votes), p)]
      ensures r.None? ==> votes == old(votes)[KeyOf(p) :=
        VoteSet(p, VoteSetOf(old(votes), p).totalVotedPower + committee.powers[sender], VoteSetOf(old(votes), p).signers + {sender})]
      ensures forall log :: old(SignedBy(log)) && Signed(sender, p) in log ==> SignedBy(log)
    {
      var voteSet := GetVoteSet(p);
      if !attachmentOk {
        return Some(BadAttachment);
      }
      if sender >= committee.Size() {
        return Some(NotInSet);
      }
      if sender in voteSet.signers {
        return Some(DuplicateVote);
      }
      PowerOfAdded(committee.powers, voteSet.signers, sender, committee.Size());
      assert KeyOf(p) in votes && votes[KeyOf(p)] == voteSet;
      votes := votes[KeyOf(p) := VoteSet(voteSet.vote, voteSet.totalVotedPower + committee.powers[sender], voteSet.signers + {sender})];
      return None;
    }

    /** A vote set of the given round and phase with a two-thirds majority, if there is one. */
    method GetMajorityVote(round: nat, phase: Phase) returns (r: Option<VoteSet>)
      requires Valid()
      ensures r.Some? ==>
        KeyOf(r.value.vote) in votes && votes[KeyOf(r.value.vote)] == r.value
        && r.value.vote.view.round == round && r.value.vote.view.phase == phase && committee.IsQuorum(r.value.signers)
      ensures r.Some? <==> HasMajority(round, phase)
    {
      var keys := votes.Keys;
      while keys != {}
        invariant keys <= votes.Keys
        invariant forall key :: key in votes && key !in keys && key.0 == round && key.1 == phase ==> !committee.IsQuorum(votes[key].signers)
        decreases keys
      {
        var key :| key in keys;
        if key.0 == round && key.1 == phase {
          if votes[key].totalVotedPower >= committee.MinimumMaj23() {
            return Some(votes[key]);
          }
        }
        keys := keys - {key};
      }
      return None;
    }
  }
}
