/**
 Block rewards from the lottery to the payout: percents in a certificate, their reduction for non-signers,
 their accumulation over many certificates, and the distribution and burning of the reward pool.
 */
module Rewards {
  import opened Options
  import opened Ledger
  import opened Arithmetic
  import opened Pacemakers

  datatype Stub = Stub(address: Address, percent: nat, chain: nat)
  datatype Winner = Winner(address: Address, cut: nat)

  /** The percents allocated on a chain. */
  function SumFor(stubs: seq<Stub>, chain: nat): nat {
    if stubs == [] then 0 else (if stubs[0].chain == chain then stubs[0].percent else 0) + SumFor(stubs[1..], chain)
  }

  predicate Unique(stubs: seq<Stub>) {
    forall j, k :: 0 <= j < k < |stubs| ==> (stubs[j].address, stubs[j].chain) != (stubs[k].address, stubs[k].chain)
  }

  function Find(stubs: seq<Stub>, a: Address, chain: nat): (r: Option<nat>)
    ensures r.Some? ==> r.value < |stubs| && (stubs[r.value].address, stubs[r.value].chain) == (a, chain)
    ensures r.None? ==> forall j :: 0 <= j < |stubs| ==> (stubs[j].address, stubs[j].chain) != (a, chain)
  {
    if stubs == [] then None
    else if (stubs[0].address, stubs[0].chain) == (a, chain) then Some(0)
    else
      match Find(stubs[1..], a, chain)
      case None => None
      case Some(j) => Some(j + 1)
  }

  /** Adds a percent to a recipient's entry on a chain, or appends the entry; no entry for nothing. */
  function Credit(stubs: seq<Stub>, a: Address, percent: nat, chain: nat): seq<Stub> {
    if percent == 0 then stubs
    else
      match Find(stubs, a, chain)
      case None => stubs + [Stub(a, percent, chain)]
      case Some(j) => stubs[j := Stub(a, stubs[j].percent + percent, chain)]
  }

  lemma {:induction false} SumForConcat(a: seq<Stub>, b: seq<Stub>, chain: nat)
    ensures SumFor(a + b, chain) == SumFor(a, chain) + SumFor(b, chain)
  {
    if a == [] {
      assert a + b == b;
    } else {
      assert (a + b)[1..] == a[1..] + b;
      SumForConcat(a[1..], b, chain);
    }
  }

  lemma {:induction false} SumForUpdate(stubs: seq<Stub>, j: nat, s: Stub, chain: nat)
    requires j < |stubs| && stubs[j].chain == s.chain
    ensures SumFor(stubs[j := s], chain) + (if s.chain == chain then stubs[j].percent else 0)
         == SumFor(stubs, chain) + (if s.chain == chain then s.percent else 0)
  {
    if j > 0 {
      assert stubs[j := s][1..] == stubs[1..][j - 1 := s];
      SumForUpdate(stubs[1..], j - 1, s, chain);
    } else {
      assert stubs[j := s][1..] == stubs[1..];
    }
  }

  /** Crediting adds exactly the percent on exactly the chain, and keeps entries unique. */
  lemma CreditAddsExactly(stubs: seq<Stub>, a: Address, percent: nat, chain: nat, other: nat)
    ensures SumFor(Credit(stubs, a, percent, chain), other) == SumFor(stubs, other) + if other == chain then percent else 0
    ensures Unique(stubs) ==> Unique(Credit(stubs, a, percent, chain))
  {
    match Find(stubs, a, chain)
    case None => SumForConcat(stubs, [Stub(a, percent, chain)], other);
    case Some(j) => SumForUpdate(stubs, j, Stub(a, stubs[j].percent + percent, chain), other);
  }

  /** What an address is allocated on a chain. */
  function PercentFor(stubs: seq<Stub>, a: Address, chain: nat): nat {
    if stubs == [] then 0
    else (if (stubs[0].address, stubs[0].chain) == (a, chain) then stubs[0].percent else 0) + PercentFor(stubs[1..], a, chain)
  }

  lemma {:induction false} PercentForConcat(a: seq<Stub>, b: seq<Stub>, of: Address, chain: nat)
    ensures PercentFor(a + b, of, chain) == PercentFor(a, of, chain) + PercentFor(b, of, chain)
  {
    if a == [] {
      assert a + b == b;
    } else {
      assert (a + b)[1..] == a[1..] + b;
      PercentForConcat(a[1..], b, of, chain);
    }
  }

  lemma {:induction false} PercentForUpdate(stubs: seq<Stub>, j: nat, percent: nat, of: Address, chain: nat)
    requires j < |stubs|
    ensures PercentFor(stubs[j := Stub(stubs[j].address, percent, stubs[j].chain)], of, chain)
          + (if (stubs[j].address, stubs[j].chain) == (of, chain) then stubs[j].percent else 0)
         == PercentFor(stubs, of, chain) + (if (stubs[j].address, stubs[j].chain) == (of, chain) then percent else 0)
  {
    var s := Stub(stubs[j].address, percent, stubs[j].chain);
    if j > 0 {
      assert stubs[j := s][1..] == stubs[1..][j - 1 := s];
      PercentForUpdate(stubs[1..], j - 1, percent, of, chain);
    } else {
      assert stubs[j := s][1..] == stubs[1..];
    }
  }

  /** Crediting an address on a chain allocates exactly the percent to it, and nothing to anybody else or on another chain. */
  lemma CreditIsFor(stubs: seq<Stub>, a: Address, percent: nat, chain: nat, of: Address, other: nat)
    ensures PercentFor(Credit(stubs, a, percent, chain), of, other) == PercentFor(stubs, of, other) + if (of, other) == (a, chain) then percent else 0
  {
    match Find(stubs, a, chain)
    case None => PercentForConcat(stubs, [Stub(a, percent, chain)], of, other);
    case Some(j) => PercentForUpdate(stubs, j, stubs[j].percent + percent, of, other);
  }

  /** What a lottery winner gets: the cut, if there is a winner and that much is left. */
  function Afforded(w: Option<Winner>, left: nat): nat {
    if w.Some? && w.value.cut <= left then w.value.cut else 0
  }

  function CutFor(w: Option<Winner>, left: nat, a: Address): nat {
    if w.Some? && w.value.address == a then Afforded(w, left) else 0
  }

  /** What an address is due on every paid chain: its cuts, and the rest if it is the proposer. Only a nested chain has nested winners. */
  function Due(a: Address, proposer: Address, delegate: Option<Winner>, nValidator: Option<Winner>, nDelegate: Option<Winner>): nat {
    var left := 100 - Afforded(delegate, 100);
    var left' := left - Afforded(nValidator, left);
    var left'' := left' - Afforded(nDelegate, left');
    CutFor(delegate, 100, a) + CutFor(nValidator, left, a) + CutFor(nDelegate, left', a) + if a == proposer then left'' else 0
  }

  // ---------------------------------------------------------------------------------------------
  // The proposer's allocation
  // ---------------------------------------------------------------------------------------------

  class RewardRecipients {
    var percents: seq<Stub>
    var proposerCut: nat
    const selfChain: nat
    const rootChain: nat

    constructor (selfChain: nat, rootChain: nat)
      ensures percents == [] && proposerCut == 100 && this.selfChain == selfChain && this.rootChain == rootChain
    {
      this.selfChain, this.rootChain, percents, proposerCut := selfChain, rootChain, [], 100;
    }

    /** On every paid chain, what is allocated and what the proposer still has make 100 percent; nothing elsewhere. */
    ghost predicate Divided(left: nat)
      reads this
    {
      && Unique(percents)
      && SumFor(percents, rootChain) + left == 100
      && SumFor(percents, selfChain) + left == 100
      && forall c :: c != rootChain && c != selfChain ==> SumFor(percents, c) == 0
    }

    method AddPercentOn(toAdd: Winner, chain: nat)
      modifies this`percents
      ensures percents == Credit(old(percents), toAdd.address, toAdd.cut, chain)
    {
      if toAdd.cut == 0 {
        return;
      }
      for j := 0 to |percents|
        invariant percents == old(percents)
        invariant forall k :: 0 <= k < j ==> (percents[k].address, percents[k].chain) != (toAdd.address, chain)
      {
        if percents[j].address == toAdd.address && percents[j].chain == chain {
          FirstIsFound(percents, toAdd.address, chain, j);
          percents := percents[j := Stub(toAdd.address, percents[j].percent + toAdd.cut, chain)];
          return;
        }
      }
      percents := percents + [Stub(toAdd.address, toAdd.cut, chain)];
    }

    method AddPaymentPercent(toAdd: Winner, ghost left: nat)
      requires Divided(left + toAdd.cut)
      modifies this`percents
      ensures Divided(left)
      ensures forall a, c :: PercentFor(percents, a, c) == PercentFor(old(percents), a, c) + if a == toAdd.address && (c == rootChain || c == selfChain) then toAdd.cut else 0
    {
      ghost var before := percents;
      AddPercentOn(toAdd, rootChain);
      ghost var between := percents;
      if selfChain != rootChain {
        AddPercentOn(toAdd, selfChain);
      }
      forall c
        ensures SumFor(between, c) == SumFor(before, c) + if c == rootChain then toAdd.cut else 0
        ensures SumFor(percents, c) == SumFor(before, c) + if c == rootChain || c == selfChain then toAdd.cut else 0
      {
        CreditAddsExactly(before, toAdd.address, toAdd.cut, rootChain, c);
        CreditAddsExactly(between, toAdd.address, toAdd.cut, selfChain, c);
      }
      CreditAddsExactly(before, toAdd.address, toAdd.cut, rootChain, rootChain);
      CreditAddsExactly(between, toAdd.address, toAdd.cut, selfChain, selfChain);
      forall a, c
        ensures PercentFor(percents, a, c) == PercentFor(before, a, c) + if a == toAdd.address && (c == rootChain || c == selfChain) then toAdd.cut else 0
      {
        CreditIsFor(before, toAdd.address, toAdd.cut, rootChain, a, c);
        CreditIsFor(between, toAdd.address, toAdd.cut, selfChain, a, c);
      }
    }

    /** A winner's cut comes out of the proposer's; a winner that the proposer cannot afford is skipped. */
    method AddRewardRecipient(toAdd: Option<Winner>)
      requires Divided(proposerCut)
      modifies this`percents, this`proposerCut
      ensures Divided(proposerCut)
      ensures proposerCut == old(proposerCut) - Afforded(toAdd, old(proposerCut))
      ensures forall a, c :: PercentFor(percents, a, c) == PercentFor(old(percents), a, c) + if c == rootChain || c == selfChain then CutFor(toAdd, old(proposerCut), a) else 0
    {
      if toAdd.None? || proposerCut < toAdd.value.cut {
        return;
      }
      proposerCut := proposerCut - toAdd.value.cut;
      AddPaymentPercent(toAdd.value, proposerCut);
    }

    /** The percents of every paid chain sum to exactly 100, with one entry per recipient and chain, and everybody gets what is due. */
    method CalculateRewardRecipients(proposer: Address, delegate: Option<Winner>, nValidator: Option<Winner>, nDelegate: Option<Winner>)
      requires percents == [] && proposerCut == 100
      modifies this
      ensures Divided(0)
      ensures forall a, c :: PercentFor(percents, a, c) == if c != rootChain && c != selfChain then 0 else
        Due(a, proposer, delegate, if selfChain == rootChain then None else nValidator, if selfChain == rootChain then None else nDelegate)
    {
      AddRewardRecipient(delegate);
      if selfChain != rootChain {
        AddRewardRecipient(nValidator);
        AddRewardRecipient(nDelegate);
      }
      AddPaymentPercent(Winner(proposer, proposerCut), 0);
    }
  }

  lemma {:induction false} FirstIsFound(stubs: seq<Stub>, a: Address, chain: nat, j: nat)
    requires j < |stubs| && (stubs[j].address, stubs[j].chain) == (a, chain)
    requires forall k :: 0 <= k < j ==> (stubs[k].address, stubs[k].chain) != (a, chain)
    ensures Find(stubs, a, chain) == Some(j)
  {
    if j > 0 {
      FirstIsFound(stubs[1..], a, chain, j - 1);
    }
  }

  // ---------------------------------------------------------------------------------------------
  // From certificates to committee data
  // ---------------------------------------------------------------------------------------------

  /** Every percent reduced by the power of the non-signers. */
  function Reduced(stubs: seq<Stub>, nonSignerPercent: nat): seq<Stub> {
    if stubs == [] then []
    else [stubs[0].(percent := ReducePercentage(stubs[0].percent, nonSignerPercent))] + Reduced(stubs[1..], nonSignerPercent)
  }

  /** Every entry keeps its recipient and chain, and the largest percent within what the reduction leaves. */
  lemma {:induction false} ReductionIsExact(stubs: seq<Stub>, reduction: nat, j: nat)
    requires j < |stubs|
    ensures var r := Reduced(stubs, reduction);
      && |r| == |stubs| && (r[j].address, r[j].chain) == (stubs[j].address, stubs[j].chain)
      && IsQuotient(r[j].percent, stubs[j].percent * Rest(reduction), 100)
  {
    if j == 0 {
      ReducedExactly(stubs[0].percent, reduction);
      ReducedLength(stubs, reduction);
    } else {
      ReductionIsExact(stubs[1..], reduction, j - 1);
    }
  }

  lemma {:induction false} ReducedLength(stubs: seq<Stub>, reduction: nat)
    ensures |Reduced(stubs, reduction)| == |stubs|
  {
    if stubs != [] {
      ReducedLength(stubs[1..], reduction);
    }
  }

  lemma ReducedPercent(percent: nat, reduction: nat)
    ensures ReducePercentage(percent, reduction) <= percent
  {
    ReducedExactly(percent, reduction);
    ScaleUp(Rest(reduction), 100, percent);
  }

  /** The reduction only lowers percents. */
  lemma {:induction false} ReductionOnlyLowers(stubs: seq<Stub>, reduction: nat, chain: nat)
    ensures SumFor(Reduced(stubs, reduction), chain) <= SumFor(stubs, chain)
  {
    if stubs != [] {
      var first := stubs[0].(percent := ReducePercentage(stubs[0].percent, reduction));
      assert Reduced(stubs, reduction)[1..] == Reduced(stubs[1..], reduction);
      ReducedPercent(stubs[0].percent, reduction);
      ReductionOnlyLowers(stubs[1..], reduction, chain);
    }
  }

  datatype CommitteeData = CommitteeData(stubs: seq<Stub>, samples: nat)

  /** Adds the percents for our chain to the stubs; None if a stub leaves 64 bits. */
  function Combined(mine: seq<Stub>, theirs: seq<Stub>, chain: nat): Option<seq<Stub>>
    decreases |theirs|
  {
    if theirs == [] then Some(mine)
    else if theirs[0].chain != chain then Combined(mine, theirs[1..], chain)
    else
      var next := Credit(mine, theirs[0].address, theirs[0].percent, chain);
      if exists j :: 0 <= j < |next| && next[j].percent > MAX_UINT64 then None else Combined(next, theirs[1..], chain)
  }

  function Combine(data: CommitteeData, theirs: seq<Stub>, chain: nat): Option<CommitteeData> {
    var stubs :- Combined(data.stubs, theirs, chain);
    if data.samples == MAX_UINT64 then None else Some(CommitteeData(stubs, data.samples + 1))
  }

  lemma {:induction false} CombinedSum(mine: seq<Stub>, theirs: seq<Stub>, chain: nat)
    requires forall j :: 0 <= j < |mine| ==> mine[j].chain == chain
    requires Combined(mine, theirs, chain).Some?
    ensures var r := Combined(mine, theirs, chain).value;
      && SumFor(r, chain) == SumFor(mine, chain) + SumFor(theirs, chain)
      && forall j :: 0 <= j < |r| ==> r[j].chain == chain
    decreases |theirs|
  {
    if theirs != [] {
      if theirs[0].chain != chain {
        CombinedSum(mine, theirs[1..], chain);
      } else {
        CreditAddsExactly(mine, theirs[0].address, theirs[0].percent, chain, chain);
        CombinedSum(Credit(mine, theirs[0].address, theirs[0].percent, chain), theirs[1..], chain);
      }
    }
  }

  /** Everybody's percents on our chain are added, and nobody's on another. */
  lemma {:induction false} CombinedIsFor(mine: seq<Stub>, theirs: seq<Stub>, chain: nat, a: Address, other: nat)
    requires Combined(mine, theirs, chain).Some?
    ensures PercentFor(Combined(mine, theirs, chain).value, a, other)
         == PercentFor(mine, a, other) + if other == chain then PercentFor(theirs, a, chain) else 0
    decreases |theirs|
  {
    if theirs != [] {
      if theirs[0].chain != chain {
        CombinedIsFor(mine, theirs[1..], chain, a, other);
      } else {
        CreditIsFor(mine, theirs[0].address, theirs[0].percent, chain, a, other);
        CombinedIsFor(Credit(mine, theirs[0].address, theirs[0].percent, chain), theirs[1..], chain, a, other);
      }
    }
  }

  /** One entry for each recipient and chain, each within 64 bits. */
  ghost predicate Tidy(stubs: seq<Stub>) {
    Unique(stubs) && forall j :: 0 <= j < |stubs| ==> stubs[j].percent <= MAX_UINT64
  }

  lemma {:induction false} EntryIsPart(stubs: seq<Stub>, j: nat)
    requires j < |stubs|
    ensures stubs[j].percent <= PercentFor(stubs, stubs[j].address, stubs[j].chain)
  {
    if j > 0 {
      EntryIsPart(stubs[1..], j - 1);
    }
  }

  lemma {:induction false} PercentOfNobody(stubs: seq<Stub>, a: Address, chain: nat)
    requires forall j :: 0 <= j < |stubs| ==> (stubs[j].address, stubs[j].chain) != (a, chain)
    ensures PercentFor(stubs, a, chain) == 0
  {
    if stubs != [] {
      PercentOfNobody(stubs[1..], a, chain);
    }
  }

  lemma {:induction false} EntryIsAll(stubs: seq<Stub>, j: nat)
    requires Unique(stubs) && j < |stubs|
    ensures PercentFor(stubs, stubs[j].address, stubs[j].chain) == stubs[j].percent
  {
    if j > 0 {
      assert (stubs[0].address, stubs[0].chain) != (stubs[j].address, stubs[j].chain);
      EntryIsAll(stubs[1..], j - 1);
    } else {
      PercentOfNobody(stubs[1..], stubs[0].address, stubs[0].chain);
    }
  }

  /** A credit leaves 64 bits exactly if the percents of its recipient do. */
  lemma CreditOverflowsExactlyWhen(stubs: seq<Stub>, a: Address, percent: nat, chain: nat)
    requires Tidy(stubs)
    ensures Tidy(Credit(stubs, a, percent, chain)) <==> PercentFor(stubs, a, chain) + percent <= MAX_UINT64
  {
    var next := Credit(stubs, a, percent, chain);
    CreditAddsExactly(stubs, a, percent, chain, chain);
    match Find(stubs, a, chain)
    case None =>
      PercentOfNobody(stubs, a, chain);
      assert percent != 0 ==> next[|stubs|].percent == percent;
    case Some(j) =>
      EntryIsAll(stubs, j);
      assert percent != 0 ==> next[j].percent == stubs[j].percent + percent;
  }

  /** Together the address's percents leave 64 bits. */
  ghost predicate Overflows(mine: seq<Stub>, theirs: seq<Stub>, chain: nat, a: Address) {
    PercentFor(mine, a, chain) + PercentFor(theirs, a, chain) > MAX_UINT64
  }

  lemma NobodyOverflows(mine: seq<Stub>, chain: nat)
    requires Tidy(mine)
    ensures forall a :: !Overflows(mine, [], chain, a)
  {
    forall a
      ensures !Overflows(mine, [], chain, a)
    {
      match Find(mine, a, chain)
      case None => PercentOfNobody(mine, a, chain);
      case Some(j) => EntryIsAll(mine, j);
    }
  }

  lemma OverflowAfterCredit(mine: seq<Stub>, theirs: seq<Stub>, chain: nat, a: Address)
    requires theirs != []
    ensures var next := if theirs[0].chain == chain then Credit(mine, theirs[0].address, theirs[0].percent, chain) else mine;
      Overflows(next, theirs[1..], chain, a) <==> Overflows(mine, theirs, chain, a)
  {
    CreditIsFor(mine, theirs[0].address, theirs[0].percent, chain, a, chain);
  }

  /** Adding a certificate's percents fails exactly if somebody's percents would leave 64 bits. */
  lemma {:induction false} CombinedFailsExactlyWhen(mine: seq<Stub>, theirs: seq<Stub>, chain: nat)
    requires Tidy(mine)
    ensures Combined(mine, theirs, chain).None? <==> exists a :: Overflows(mine, theirs, chain, a)
    ensures Combined(mine, theirs, chain).Some? ==> Tidy(Combined(mine, theirs, chain).value)
    decreases |theirs|
  {
    if theirs == [] {
      NobodyOverflows(mine, chain);
    } else {
      var first := theirs[0];
      var next := if first.chain == chain then Credit(mine, first.address, first.percent, chain) else mine;
      forall a
        ensures Overflows(next, theirs[1..], chain, a) <==> Overflows(mine, theirs, chain, a)
      {
        OverflowAfterCredit(mine, theirs, chain, a);
      }
      CreditOverflowsExactlyWhen(mine, first.address, first.percent, chain);
      CreditAddsExactly(mine, first.address, first.percent, chain, chain);
      if Tidy(next) {
        CombinedFailsExactlyWhen(next, theirs[1..], chain);
      } else {
        assert Overflows(mine, theirs, chain, first.address);
      }
    }
  }

  /** At most 100 percent for each sample, all on our chain. */
  ghost predicate FairData(data: CommitteeData, chain: nat) {
    && SumFor(data.stubs, chain) <= 100 * data.samples
    && forall j :: 0 <= j < |data.stubs| ==> data.stubs[j].chain == chain
  }

  /** Adding one more certificate's percents for our chain keeps the data fair. */
  lemma CombineKeepsFair(data: CommitteeData, theirs: seq<Stub>, reduction: nat, chain: nat)
    requires FairData(data, chain) && SumFor(theirs, chain) <= 100
    requires Combine(data, Reduced(theirs, reduction), chain).Some?
    ensures FairData(Combine(data, Reduced(theirs, reduction), chain).value, chain)
  {
    ReductionOnlyLowers(theirs, reduction, chain);
    CombinedSum(data.stubs, Reduced(theirs, reduction), chain);
  }

  /** A certificate is only accepted with at most 100 percent for each chain. */
  datatype Certificate = Certificate(stubs: seq<Stub>, nonSignerPercent: nat)

  ghost predicate Acceptable(c: Certificate, chain: nat) {
    SumFor(c.stubs, chain) <= 100
  }

  /** The committee data after a sequence of certificates. */
  function Accumulated(certificates: seq<Certificate>, chain: nat): Option<CommitteeData>
    decreases |certificates|
  {
    if certificates == [] then Some(CommitteeData([], 0))
    else
      var last := certificates[|certificates| - 1];
      var before :- Accumulated(certificates[..|certificates| - 1], chain);
      Combine(before, Reduced(last.stubs, last.nonSignerPercent), chain)
  }

  /** No matter how many certificates are combined, the percents never exceed 100 for each sample. */
  lemma {:induction false} AtMostHundredPerSample(certificates: seq<Certificate>, chain: nat)
    requires forall k :: 0 <= k < |certificates| ==> Acceptable(certificates[k], chain)
    requires Accumulated(certificates, chain).Some?
    ensures var data := Accumulated(certificates, chain).value;
      data.samples == |certificates| && FairData(data, chain)
    decreases |certificates|
  {
    if certificates != [] {
      var last := certificates[|certificates| - 1];
      AtMostHundredPerSample(certificates[..|certificates| - 1], chain);
      CombineKeepsFair(Accumulated(certificates[..|certificates| - 1], chain).value, last.stubs, last.nonSignerPercent, chain);
    }
  }

  /** What a sequence of certificates allocates to an address on a chain, each reduced for its non-signers. */
  function AllocatedTo(certificates: seq<Certificate>, a: Address, chain: nat): nat {
    if certificates == [] then 0
    else
      var last := certificates[|certificates| - 1];
      AllocatedTo(certificates[..|certificates| - 1], a, chain) + PercentFor(Reduced(last.stubs, last.nonSignerPercent), a, chain)
  }

  /** However many certificates are combined, everybody's entry is the sum of what they allocate, and each is one sample. */
  lemma {:induction false} NothingIsForgotten(certificates: seq<Certificate>, chain: nat, a: Address)
    requires Accumulated(certificates, chain).Some?
    ensures var data := Accumulated(certificates, chain).value;
      data.samples == |certificates| && PercentFor(data.stubs, a, chain) == AllocatedTo(certificates, a, chain)
    decreases |certificates|
  {
    if certificates != [] {
      var last := certificates[|certificates| - 1];
      NothingIsForgotten(certificates[..|certificates| - 1], chain, a);
      CombinedIsFor(Accumulated(certificates[..|certificates| - 1], chain).value.stubs, Reduced(last.stubs, last.nonSignerPercent), chain, a, chain);
    }
  }

  // ---------------------------------------------------------------------------------------------
  // Distribution
  // ---------------------------------------------------------------------------------------------

  /** The floored share of the pool, cut to 64 bits. */
  function FullReward(percent: nat, pool: nat, samples: nat): nat {
    if samples == 0 then 0 else Wrap(percent * pool / (samples * 100))
  }

  /** What is left after the early withdrawal penalty. */
  function EarlyReward(full: nat, penalty: nat): nat {
    if penalty >= 100 || full == 0 then 0 else if penalty == 0 then full else SafeMulDiv(full, 100 - penalty, 100)
  }

  /** Compounding validators receive the full reward as stake, everybody else the early reward. */
  function Reward(s: Stub, pool: nat, samples: nat, penalty: nat, compounding: set<Address>): nat {
    var full := FullReward(s.percent, pool, samples);
    if s.address in compounding then full else EarlyReward(full, penalty)
  }

  function Distributed(stubs: seq<Stub>, pool: nat, samples: nat, penalty: nat, compounding: set<Address>): nat {
    if stubs == [] then 0
    else
      Distributed(stubs[..|stubs| - 1], pool, samples, penalty, compounding) + Reward(stubs[|stubs| - 1], pool, samples, penalty, compounding)
  }

  /** The largest part of the pool within the percent of all samples; early withdrawal leaves the largest part of that within its penalty. */
  ghost predicate IsReward(r: nat, percent: nat, pool: nat, samples: nat, penalty: nat, compounds: bool) {
    exists full: nat :: IsQuotient(full, percent * pool, samples * 100) && if compounds then r == full else IsQuotient(r, full * Rest(penalty), 100)
  }

  lemma WrapKeeps(q: nat, n: nat, d: nat, bound: nat)
    requires IsQuotient(q, n, d) && n <= bound * d && 0 < d && bound <= MAX_UINT64
    ensures Wrap(q) == q <= bound
  {
    CancelThrough(q, n, bound, d);
  }

  lemma DivisionIsQuotient(n: nat, d: nat)
    requires 0 < d
    ensures IsQuotient(n / d, n, d)
  {
    QuotientBounds(n, d);
  }

  lemma FittingQuotient(n: nat, d: nat, bound: nat) returns (q: nat)
    requires 0 < d && n <= bound * d && bound <= MAX_UINT64
    ensures q == Wrap(n / d) <= bound && IsQuotient(q, n, d)
  {
    q := n / d;
    DivisionIsQuotient(n, d);
    WrapKeeps(q, n, d, bound);
  }

  lemma FullRewardExactly(percent: nat, pool: nat, samples: nat)
    requires percent <= 100 * samples && 0 < samples && pool <= MAX_UINT64
    ensures IsQuotient(FullReward(percent, pool, samples), percent * pool, samples * 100)
    ensures FullReward(percent, pool, samples) <= pool
  {
    ScaleUp(percent, samples * 100, pool);
    assert pool * (samples * 100) == samples * 100 * pool;
    var q := FittingQuotient(percent * pool, samples * 100, pool);
    assert FullReward(percent, pool, samples) == q;
  }

  lemma RewardExactly(s: Stub, pool: nat, samples: nat, penalty: nat, compounding: set<Address>)
    requires s.percent <= 100 * samples && 0 < samples && pool <= MAX_UINT64
    ensures IsReward(Reward(s, pool, samples, penalty, compounding), s.percent, pool, samples, penalty, s.address in compounding)
  {
    var full := FullReward(s.percent, pool, samples);
    FullRewardExactly(s.percent, pool, samples);
    PercentIsQuotient(full, Rest(penalty));
  }

  lemma RewardBound(s: Stub, pool: nat, samples: nat, penalty: nat, compounding: set<Address>)
    requires 0 < samples
    ensures Reward(s, pool, samples, penalty, compounding) * (samples * 100) <= s.percent * pool
  {
    var full := FullReward(s.percent, pool, samples);
    CutOffBound(s.percent * pool, samples * 100, MAX_UINT64 + 1);
    MulDivBound(full, 100 - (if penalty > 100 then 100 else penalty), 100);
    var early := EarlyReward(full, penalty);
    assert early <= full by {
      if 0 < penalty < 100 {
        ScaleUp(100 - penalty, 100, full);
        Cancel(early, full, 100);
      }
    }
    ScaleUp(early, full, samples * 100);
  }

  lemma {:induction false} DistributedBound(stubs: seq<Stub>, pool: nat, samples: nat, penalty: nat, compounding: set<Address>, chain: nat)
    requires 0 < samples
    requires forall j :: 0 <= j < |stubs| ==> stubs[j].chain == chain
    ensures Distributed(stubs, pool, samples, penalty, compounding) * (samples * 100) <= SumFor(stubs, chain) * pool
    decreases |stubs|
  {
    if stubs != [] {
      var prefix, last := stubs[..|stubs| - 1], stubs[|stubs| - 1];
      assert stubs == prefix + [last];
      SumForConcat(prefix, [last], chain);
      DistributedBound(prefix, pool, samples, penalty, compounding, chain);
      RewardBound(last, pool, samples, penalty, compounding);
      SumOfBounds(Distributed(prefix, pool, samples, penalty, compounding), Reward(last, pool, samples, penalty, compounding),
                  samples * 100, SumFor(prefix, chain), last.percent, pool);
    }
  }

  lemma SumOfBounds(a: nat, b: nat, d: nat, p: nat, q: nat, pool: nat)
    requires a * d <= p * pool && b * d <= q * pool
    ensures (a + b) * d <= (p + q) * pool
  {
  }

  lemma WithinPool(paid: nat, percents: nat, samples: nat, pool: nat)
    requires 0 < samples && percents <= 100 * samples && paid * (samples * 100) <= percents * pool
    ensures paid <= pool
  {
    ScaleUp(percents, samples * 100, pool);
    CancelThrough(paid, percents * pool, pool, samples * 100);
  }

  /** With at most 100 percent for each sample, the floored payouts never exceed the pool. */
  lemma FairNeverOverDistributes(data: CommitteeData, chain: nat, pool: nat, penalty: nat, compounding: set<Address>)
    requires FairData(data, chain)
    ensures Distributed(data.stubs, pool, data.samples, penalty, compounding) <= pool
  {
    if data.samples > 0 {
      DistributedBound(data.stubs, pool, data.samples, penalty, compounding, chain);
      WithinPool(Distributed(data.stubs, pool, data.samples, penalty, compounding), SumFor(data.stubs, chain), data.samples, pool);
    } else {
      NothingWithoutSamples(data.stubs, pool, penalty, compounding);
    }
  }

  lemma {:induction false} NothingWithoutSamples(stubs: seq<Stub>, pool: nat, penalty: nat, compounding: set<Address>)
    ensures Distributed(stubs, pool, 0, penalty, compounding) == 0
    decreases |stubs|
  {
    if stubs != [] {
      NothingWithoutSamples(stubs[..|stubs| - 1], pool, penalty, compounding);
    }
  }

  /** Whatever certificates were combined, the floored payouts never exceed the pool, so that burning the rest cannot underflow. */
  lemma NeverOverDistributes(certificates: seq<Certificate>, chain: nat, pool: nat, penalty: nat, compounding: set<Address>)
    requires forall k :: 0 <= k < |certificates| ==> Acceptable(certificates[k], chain)
    requires Accumulated(certificates, chain).Some?
    ensures var data := Accumulated(certificates, chain).value;
      Distributed(data.stubs, pool, data.samples, penalty, compounding) <= pool
  {
    AtMostHundredPerSample(certificates, chain);
    FairNeverOverDistributes(Accumulated(certificates, chain).value, chain, pool, penalty, compounding);
  }

  lemma {:induction false} PrefixDistributes(stubs: seq<Stub>, n: nat, pool: nat, samples: nat, penalty: nat, compounding: set<Address>)
    requires n <= |stubs|
    ensures Distributed(stubs[..n], pool, samples, penalty, compounding) <= Distributed(stubs, pool, samples, penalty, compounding)
    decreases |stubs|
  {
    if n < |stubs| {
      assert stubs[..|stubs| - 1][..n] == stubs[..n];
      PrefixDistributes(stubs[..|stubs| - 1], n, pool, samples, penalty, compounding);
    } else {
      assert stubs[..n] == stubs;
    }
  }
}
