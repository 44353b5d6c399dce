/**
 Weighted quorums over a fixed committee: the validator set, the aggregate signature's
 signer bitmap (here a set of committee indices) and the two-thirds threshold.
 */
module Quorum {
  import opened Options

  /** The committee: the voting power of each validator, by committee index. */
  datatype Committee = Committee(powers: seq<nat>) {

    function Size(): nat {
      |powers|
    }

    function TotalPower(): nat {
      SumTo(powers, |powers|)
    }

    /** The least power of a two-thirds majority. */
    function MinimumMaj23(): nat {
      2 * TotalPower() / 3 + 1
    }

    function Power(signers: set<nat>): nat {
      PowerTo(powers, signers, |powers|)
    }

    /** A set of signers that an aggregate signature check accepts as a full quorum. */
    predicate IsQuorum(signers: set<nat>) {
      MinimumMaj23() <= Power(signers)
    }

    /** At most one third of the voting power is faulty. */
    predicate Tolerates(faulty: set<nat>) {
      3 * Power(faulty) <= TotalPower()
    }
  }

  /** A full quorum is the least power that is more than two thirds of the total. */
  lemma MajorityIsLeast(c: Committee, power: nat)
    ensures c.MinimumMaj23() <= power <==> 2 * c.TotalPower() < 3 * power
  {
  }

  function SumTo(powers: seq<nat>, n: nat): nat
    requires n <= |powers|
  {
    if n == 0 then 0 else SumTo(powers, n - 1) + powers[n - 1]
  }

  function PowerTo(powers: seq<nat>, signers: set<nat>, n: nat): nat
    requires n <= |powers|
  {
    if n == 0 then 0
    else PowerTo(powers, signers, n - 1) + if n - 1 in signers then powers[n - 1] else 0
  }

  /** Building a committee fails exactly when nobody holds any power. */
  method NewValidatorSet(powers: seq<nat>) returns (r: Option<(Committee, nat, nat)>)
    ensures r.None? <==> SumTo(powers, |powers|) == 0
    ensures r.Some? ==> r.value == (Committee(powers), Committee(powers).TotalPower(), Committee(powers).MinimumMaj23())
  {
    var total := 0;
    for i := 0 to |powers|
      invariant total == SumTo(powers, i)
    {
      total := total + powers[i];
    }
    if total == 0 {
      return None;
    }
    return Some((Committee(powers), total, 2 * total / 3 + 1));
  }

  /** The power and the list of those who signed, read off the bitmap. */
  method GetSigners(c: Committee, bitmap: set<nat>) returns (signers: seq<nat>, power: nat)
    ensures power == c.Power(bitmap)
    ensures forall i :: i in signers <==> i < c.Size() && i in bitmap
    ensures forall j, k :: 0 <= j < k < |signers| ==> signers[j] < signers[k]
  {
    signers, power := [], 0;
    for i := 0 to c.Size()
      invariant power == PowerTo(c.powers, bitmap, i)
      invariant forall j :: j in signers <==> j < i && j in bitmap
      invariant forall j :: 0 <= j < |signers| ==> signers[j] < i
      invariant forall j, k :: 0 <= j < k < |signers| ==> signers[j] < signers[k]
    {
      if i in bitmap {
        signers, power := signers + [i], power + c.powers[i];
      }
    }
  }

  /** The validators present in both bitmaps, in committee order. */
  method GetDoubleSigners(c: Committee, x: set<nat>, y: set<nat>) returns (doubles: seq<nat>)
    ensures forall i :: i in doubles <==> i < c.Size() && i in x && i in y
    ensures forall j, k :: 0 <= j < k < |doubles| ==> doubles[j] < doubles[k]
  {
    doubles := [];
    for i := 0 to c.Size()
      invariant forall j :: j in doubles <==> j < i && j in x && j in y
      invariant forall j :: 0 <= j < |doubles| ==> doubles[j] < i
      invariant forall j, k :: 0 <= j < k < |doubles| ==> doubles[j] < doubles[k]
    {
      if i in x {
        if i in y {
          doubles := doubles + [i];
        }
      }
    }
  }

  lemma {:induction false} PowerOfNobody(powers: seq<nat>, n: nat)
    requires n <= |powers|
    ensures PowerTo(powers, {}, n) == 0
  {
    if n != 0 {
      PowerOfNobody(powers, n - 1);
    }
  }

  lemma {:induction false} PowerMonotone(powers: seq<nat>, a: set<nat>, b: set<nat>, n: nat)
    requires n <= |powers|
    requires forall i :: i < n && i in a ==> i in b
    ensures PowerTo(powers, a, n) <= PowerTo(powers, b, n)
  {
    if n != 0 {
      PowerMonotone(powers, a, b, n - 1);
    }
  }

  lemma {:induction false} PowerOfOverlap(powers: seq<nat>, a: set<nat>, b: set<nat>, n: nat)
    requires n <= |powers|
    ensures PowerTo(powers, a, n) + PowerTo(powers, b, n) <= PowerTo(powers, a * b, n) + SumTo(powers, n)
  {
    if n != 0 {
      PowerOfOverlap(powers, a, b, n - 1);
    }
  }

  lemma {:induction false} PowerOfAdded(powers: seq<nat>, a: set<nat>, i: nat, n: nat)
    requires n <= |powers|
    requires i !in a
    ensures PowerTo(powers, a + {i}, n) == PowerTo(powers, a, n) + if i < n then powers[i] else 0
  {
    if n != 0 {
      PowerOfAdded(powers, a, i, n - 1);
    }
  }

  /** Two full quorums share signers of power at least 2 * MinimumMaj23 - TotalPower. */
  lemma OverlapOfQuorums(c: Committee, a: set<nat>, b: set<nat>)
    requires c.IsQuorum(a) && c.IsQuorum(b)
    ensures 2 * c.MinimumMaj23() - c.TotalPower() <= c.Power(a * b)
    ensures c.TotalPower() < 3 * c.Power(a * b)
  {
    PowerOfOverlap(c.powers, a, b, c.Size());
  }

  /** With at most a third of the power faulty, two full quorums share an honest signer. */
  lemma HonestOverlap(c: Committee, faulty: set<nat>, a: set<nat>, b: set<nat>) returns (i: nat)
    requires c.Tolerates(faulty)
    requires c.IsQuorum(a) && c.IsQuorum(b)
    ensures i < c.Size() && i in a && i in b && i !in faulty
  {
    OverlapOfQuorums(c, a, b);
    if forall j :: j < c.Size() && j in a * b ==> j in faulty {
      PowerMonotone(c.powers, a * b, faulty, c.Size());
      assert false;
    }
    i :| i < c.Size() && i in a * b && i !in faulty;
  }
}
