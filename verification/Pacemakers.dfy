/** The Pacemaker's rule: the highest round that enough voting power has reached. */
module Pacemakers {
  import opened Arithmetic
  import opened Quorum

  /** Reduces an amount by a percentage, rounding down. */
  function ReducePercentage(fullAmount: nat, percentage: nat): nat {
    if percentage >= 100 || fullAmount == 0 then 0
    else if percentage == 0 then fullAmount
    else fullAmount * (100 - percentage) / 100
  }

  /** What is left is the largest amount within what the percentage leaves. */
  lemma ReducedExactly(fullAmount: nat, percentage: nat)
    ensures IsQuotient(ReducePercentage(fullAmount, percentage), fullAmount * Rest(percentage), 100)
  {
    QuotientBounds(fullAmount * Rest(percentage), 100);
  }

  /** The power that lets a replica jump to a round. */
  function Threshold(c: Committee): nat {
    ReducePercentage(c.MinimumMaj23(), 50)
  }

  /** That is half of a two-thirds majority, rounded down: more than a third of the power less one. */
  lemma ThresholdIsHalf(c: Committee)
    ensures IsQuotient(Threshold(c), c.MinimumMaj23(), 2)
    ensures c.TotalPower() < 3 * Threshold(c) + 3
  {
    ReducedExactly(c.MinimumMaj23(), 50);
  }

  /** Those who report a round at least as high. */
  ghost function Reached(messages: map<nat, nat>, round: nat): set<nat> {
    set i | i in messages && round <= messages[i]
  }

  /** Some committee member reports the round, and the power of those who have reached it suffices. */
  ghost predicate Backed(c: Committee, messages: map<nat, nat>, round: nat) {
    && (exists i :: i in messages && i < c.Size() && messages[i] == round)
    && Threshold(c) <= c.Power(Reached(messages, round))
  }

  /** The round to jump to: the highest one that is backed, or 0 if none is. */
  ghost predicate IsPacemakerRound(c: Committee, messages: map<nat, nat>, round: nat) {
    && (Backed(c, messages, round) || round == 0)
    && forall r: nat :: Backed(c, messages, r) ==> r <= round
  }

  /** The messages from the highest round to the lowest, each sender once. */
  ghost predicate SortedMessages(messages: map<nat, nat>, sorted: seq<(nat, nat)>) {
    && (forall k :: 0 <= k < |sorted| ==> sorted[k].0 in messages && messages[sorted[k].0] == sorted[k].1)
    && (forall j, k :: 0 <= j < k < |sorted| ==> sorted[j].0 != sorted[k].0 && sorted[j].1 >= sorted[k].1)
    && (forall i :: i in messages ==> exists k :: 0 <= k < |sorted| && sorted[k].0 == i)
  }

  ghost function Senders(sorted: seq<(nat, nat)>): set<nat> {
    set k | 0 <= k < |sorted| :: sorted[k].0
  }

  /** The round to jump to is the highest one that is backed; 0 if none is. */
  method PacemakerRound(c: Committee, ghost messages: map<nat, nat>, sorted: seq<(nat, nat)>) returns (round: nat)
    requires SortedMessages(messages, sorted)
    ensures IsPacemakerRound(c, messages, round)
  {
    var total := 0;
    PowerOfNoSender(c);
    for k := 0 to |sorted|
      invariant total == c.Power(Senders(sorted[..k]))
      invariant total < Threshold(c) || forall j :: 0 <= j < k ==> sorted[j].0 >= c.Size()
    {
      var sender := sorted[k].0;
      SendersGrow(c, sorted, k);
      if sender >= c.Size() {
        continue;
      }
      ghost var before := total;
      total := total + c.powers[sender];
      if total >= Threshold(c) {
        BackedAt(c, messages, sorted, k);
        forall r: nat | Backed(c, messages, r)
          ensures r <= sorted[k].1
        {
          if r > sorted[k].1 {
            NotBackedAbove(c, messages, sorted, k, r);
          }
        }
        return sorted[k].1;
      }
    }
    assert sorted[..|sorted|] == sorted;
    forall r: nat
      ensures !Backed(c, messages, r)
    {
      NoneBacked(c, messages, sorted, r);
    }
    return 0;
  }

  lemma PowerOfNoSender(c: Committee)
    ensures c.Power(Senders([])) == 0
  {
    assert Senders([]) == {};
    PowerOfNobody(c.powers, c.Size());
  }

  lemma SendersGrow(c: Committee, sorted: seq<(nat, nat)>, k: nat)
    requires k < |sorted|
    requires forall i, j :: 0 <= i < j < |sorted| ==> sorted[i].0 != sorted[j].0
    ensures c.Power(Senders(sorted[..k + 1])) == c.Power(Senders(sorted[..k])) + if sorted[k].0 < c.Size() then c.powers[sorted[k].0] else 0
  {
    assert Senders(sorted[..k + 1]) == Senders(sorted[..k]) + {sorted[k].0} by {
      assert sorted[..k + 1] == sorted[..k] + [sorted[k]];
      forall x
        ensures x in Senders(sorted[..k + 1]) <==> x in Senders(sorted[..k]) || x == sorted[k].0
      {
        if x in Senders(sorted[..k]) {
          var j :| 0 <= j < k && sorted[..k][j].0 == x;
          assert sorted[..k + 1][j].0 == x;
        }
        if x == sorted[k].0 {
          assert sorted[..k + 1][k].0 == x;
        }
      }
    }
    PowerOfAdded(c.powers, Senders(sorted[..k]), sorted[k].0, c.Size());
  }

  lemma BackedAt(c: Committee, messages: map<nat, nat>, sorted: seq<(nat, nat)>, k: nat)
    requires SortedMessages(messages, sorted) && k < |sorted| && sorted[k].0 < c.Size()
    requires Threshold(c) <= c.Power(Senders(sorted[..k + 1]))
    ensures Backed(c, messages, sorted[k].1)
  {
    PowerMonotone(c.powers, Senders(sorted[..k + 1]), Reached(messages, sorted[k].1), c.Size());
  }

  lemma NotBackedAbove(c: Committee, messages: map<nat, nat>, sorted: seq<(nat, nat)>, k: nat, r: nat)
    requires SortedMessages(messages, sorted) && k < |sorted| && sorted[k].1 < r
    requires c.Power(Senders(sorted[..k])) < Threshold(c) || forall j :: 0 <= j < k ==> sorted[j].0 >= c.Size()
    ensures !Backed(c, messages, r)
  {
    forall i | i in Reached(messages, r)
      ensures i in Senders(sorted[..k])
    {
      var j :| 0 <= j < |sorted| && sorted[j].0 == i;
      assert j < k && sorted[..k][j].0 == i;
    }
    PowerMonotone(c.powers, Reached(messages, r), Senders(sorted[..k]), c.Size());
  }

  lemma NoneBacked(c: Committee, messages: map<nat, nat>, sorted: seq<(nat, nat)>, r: nat)
    requires SortedMessages(messages, sorted)
    requires c.Power(Senders(sorted)) < Threshold(c) || forall j :: 0 <= j < |sorted| ==> sorted[j].0 >= c.Size()
    ensures !Backed(c, messages, r)
  {
    forall i | i in Reached(messages, r)
      ensures i in Senders(sorted)
    {
      var j :| 0 <= j < |sorted| && sorted[j].0 == i;
    }
    PowerMonotone(c.powers, Reached(messages, r), Senders(sorted), c.Size());
  }

  /** The round to jump to is unique. */
  lemma OnePacemakerRound(c: Committee, messages: map<nat, nat>, r: nat, s: nat)
    requires IsPacemakerRound(c, messages, r) && IsPacemakerRound(c, messages, s)
    ensures r == s
  {
  }

  /** There is always a round to jump to. */
  lemma HighestBacked(c: Committee, messages: map<nat, nat>, sorted: seq<(nat, nat)>) returns (round: nat)
    requires SortedMessages(messages, sorted)
    ensures IsPacemakerRound(c, messages, round)
  {
    round := 0;
    var k := 0;
    while k < |sorted|
      invariant k <= |sorted|
      invariant Backed(c, messages, round) || round == 0
      invariant forall j :: 0 <= j < k && Backed(c, messages, sorted[j].1) ==> sorted[j].1 <= round
    {
      if Backed(c, messages, sorted[k].1) && round < sorted[k].1 {
        round := sorted[k].1;
      }
      k := k + 1;
    }
    forall r: nat | Backed(c, messages, r)
      ensures r <= round
    {
      var i :| i in messages && i < c.Size() && messages[i] == r;
      var j :| 0 <= j < |sorted| && sorted[j].0 == i;
      assert sorted[j].1 == r;
    }
  }
}
