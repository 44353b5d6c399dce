/** Liquidity points: the ledger of who owns which part of a pool. */
module PoolPoints {
  import opened Options
  import opened Ledger

  const MAX_LIQUIDITY_PROVIDERS: nat := 50_000

  datatype Holder = Holder(address: Address, points: nat)

  function SumOf(holders: seq<Holder>): nat {
    if holders == [] then 0 else holders[0].points + SumOf(holders[1..])
  }

  /** The position of an address in the list. */
  function IndexOf(holders: seq<Holder>, a: Address): (r: Option<nat>)
    ensures r.Some? ==> r.value < |holders| && holders[r.value].address == a
    ensures r.Some? ==> forall j :: 0 <= j < r.value ==> holders[j].address != a
    ensures r.None? <==> forall j :: 0 <= j < |holders| ==> holders[j].address != a
  {
    if holders == [] then None
    else if holders[0].address == a then Some(0)
    else
      match IndexOf(holders[1..], a)
      case None => None
      case Some(i) => Some(i + 1)
  }

  datatype Points = Points(holders: seq<Holder>, total: nat) {

    /** The holders together own no more than there is. */
    ghost predicate Covers() {
      SumOf(holders) <= total <= MAX_UINT64
    }

    /** The holders are distinct, each owns something, and together they own everything. */
    ghost predicate Valid() {
      && (forall j, k :: 0 <= j < k < |holders| ==> holders[j].address != holders[k].address)
      && (forall j :: 0 <= j < |holders| ==> holders[j].points > 0)
      && SumOf(holders) == total
      && total <= MAX_UINT64
      && |holders| <= MAX_LIQUIDITY_PROVIDERS
    }

    function GetPointsFor(a: Address): Option<nat> {
      match IndexOf(holders, a)
      case None => None
      case Some(i) => Some(holders[i].points)
    }

    function AddPoints(a: Address, n: nat): Option<Points> {
      if n == 0 then Some(this)
      else
        match IndexOf(holders, a)
        case Some(i) =>
          if total + n > MAX_UINT64 || holders[i].points + n > MAX_UINT64 then None
          else Some(Points(holders[i := Holder(a, holders[i].points + n)], total + n))
        case None =>
          if total + n > MAX_UINT64 || |holders| >= MAX_LIQUIDITY_PROVIDERS then None
          else Some(Points(holders + [Holder(a, n)], total + n))
    }

    /** Removing the last points of a holder evicts it; removing the last points of the pool is an error. */
    function RemovePoints(a: Address, n: nat): Option<Points> {
      match IndexOf(holders, a)
      case None => None
      case Some(i) =>
        if Wrap(total - n) == 0 then None else Some(Points(Take(holders, i, n), Wrap(total - n)))
    }
  }

  /** The list after n points are taken from holder i, who leaves the list when nothing is left. */
  function Take(holders: seq<Holder>, i: nat, n: nat): seq<Holder>
    requires i < |holders|
  {
    var left := Wrap(holders[i].points - n);
    if left == 0 then holders[..i] + holders[i + 1..] else holders[i := Holder(holders[i].address, left)]
  }

  lemma {:induction false} PartOfTotal(holders: seq<Holder>, i: nat)
    requires i < |holders|
    ensures holders[i].points <= SumOf(holders)
  {
    if i > 0 {
      PartOfTotal(holders[1..], i - 1);
    }
  }

  lemma {:induction false} SumOfUpdate(holders: seq<Holder>, i: nat, h: Holder)
    requires i < |holders|
    ensures SumOf(holders[i := h]) + holders[i].points == SumOf(holders) + h.points
  {
    if i > 0 {
      assert holders[i := h][1..] == holders[1..][i - 1 := h];
      SumOfUpdate(holders[1..], i - 1, h);
    } else {
      assert holders[i := h][1..] == holders[1..];
    }
  }

  lemma {:induction false} SumOfConcat(a: seq<Holder>, b: seq<Holder>)
    ensures SumOf(a + b) == SumOf(a) + SumOf(b)
  {
    if a == [] {
      assert a + b == b;
    } else {
      assert (a + b)[1..] == a[1..] + b;
      SumOfConcat(a[1..], b);
    }
  }

  ghost predicate Distinct(holders: seq<Holder>) {
    forall j, k :: 0 <= j < k < |holders| ==> holders[j].address != holders[k].address
  }

  /** What an address owns; nothing if it is not listed. */
  function Owned(holders: seq<Holder>, a: Address): nat {
    if holders == [] then 0 else if holders[0].address == a then holders[0].points else Owned(holders[1..], a)
  }

  /** The points that the ledger reports for an address. */
  function PointsOf(p: Points, a: Address): nat {
    Owned(p.holders, a)
  }

  lemma {:induction false} OwnedIsReported(holders: seq<Holder>, a: Address)
    ensures Owned(holders, a) == match IndexOf(holders, a) case None => 0 case Some(i) => holders[i].points
  {
    if holders != [] {
      OwnedIsReported(holders[1..], a);
    }
  }

  lemma {:induction false} OwnedAfterUpdate(holders: seq<Holder>, i: nat, n: nat, b: Address)
    requires Distinct(holders) && i < |holders|
    ensures Owned(holders[i := Holder(holders[i].address, n)], b) == if b == holders[i].address then n else Owned(holders, b)
  {
    if i > 0 {
      assert holders[i := Holder(holders[i].address, n)][1..] == holders[1..][i - 1 := Holder(holders[1..][i - 1].address, n)];
      OwnedAfterUpdate(holders[1..], i - 1, n, b);
    } else {
      assert holders[i := Holder(holders[i].address, n)][1..] == holders[1..];
    }
  }

  lemma {:induction false} OwnedByStranger(holders: seq<Holder>, b: Address)
    requires forall j :: 0 <= j < |holders| ==> holders[j].address != b
    ensures Owned(holders, b) == 0
  {
    if holders != [] {
      OwnedByStranger(holders[1..], b);
    }
  }

  lemma {:induction false} OwnedAfterEviction(holders: seq<Holder>, i: nat, b: Address)
    requires Distinct(holders) && i < |holders|
    ensures Owned(holders[..i] + holders[i + 1..], b) == if b == holders[i].address then 0 else Owned(holders, b)
  {
    var rest := holders[..i] + holders[i + 1..];
    if i > 0 {
      assert holders[1..][..i - 1] + holders[1..][i - 1 + 1..] == rest[1..];
      OwnedAfterEviction(holders[1..], i - 1, b);
    } else {
      assert rest == holders[1..];
      if b == holders[0].address {
        OwnedByStranger(rest, b);
      }
    }
  }

  lemma {:induction false} OwnedAfterAppend(holders: seq<Holder>, a: Address, n: nat, b: Address)
    requires forall j :: 0 <= j < |holders| ==> holders[j].address != a
    ensures Owned(holders + [Holder(a, n)], b) == if b == a then n else Owned(holders, b)
  {
    if holders != [] {
      assert (holders + [Holder(a, n)])[1..] == holders[1..] + [Holder(a, n)];
      OwnedAfterAppend(holders[1..], a, n, b);
    }
  }

  /** Without one holder the others own the rest, and are still distinct if they were. */
  lemma EvictHolder(holders: seq<Holder>, i: nat)
    requires i < |holders|
    ensures var rest := holders[..i] + holders[i + 1..];
      && (Distinct(holders) ==> Distinct(rest))
      && SumOf(rest) + holders[i].points == SumOf(holders)
      && forall j :: 0 <= j < |rest| ==> rest[j] == holders[if j < i then j else j + 1]
  {
    SumOfConcat(holders[..i], holders[i..]);
    SumOfConcat(holders[..i], holders[i + 1..]);
    assert holders[..i] + holders[i..] == holders;
    assert holders[i..][1..] == holders[i + 1..];
  }

  lemma AddedTotal(p: Points, a: Address, n: nat)
    requires p.Covers() && p.AddPoints(a, n).Some?
    ensures var q := p.AddPoints(a, n).value;
      && q.total == p.total + n
      && q.Covers() && (p.Valid() ==> q.Valid())
  {
    match IndexOf(p.holders, a) {
      case None =>
        SumOfConcat(p.holders, [Holder(a, n)]);
      case Some(i) =>
        SumOfUpdate(p.holders, i, Holder(a, p.holders[i].points + n));
    }
  }

  /** Adding points keeps the ledger sound, adds exactly n to the address and to the total, and touches nobody else. */
  lemma AddPointsKeepsValid(p: Points, a: Address, n: nat)
    requires p.Valid()
    requires p.AddPoints(a, n).Some?
    ensures var q := p.AddPoints(a, n).value;
      && q.Valid()
      && q.total == p.total + n
      && forall b :: PointsOf(q, b) == PointsOf(p, b) + if b == a then n else 0
  {
    AddedTotal(p, a, n);
    forall b
      ensures PointsOf(p.AddPoints(a, n).value, b) == PointsOf(p, b) + if b == a then n else 0
    {
      AddedPoints(p, a, n, b);
    }
  }

  lemma AddedPoints(p: Points, a: Address, n: nat, b: Address)
    requires p.Valid()
    requires p.AddPoints(a, n).Some?
    ensures PointsOf(p.AddPoints(a, n).value, b) == PointsOf(p, b) + if b == a then n else 0
  {
    OwnedIsReported(p.holders, a);
    match IndexOf(p.holders, a) {
      case None =>
        OwnedAfterAppend(p.holders, a, n, b);
      case Some(i) =>
        OwnedAfterUpdate(p.holders, i, p.holders[i].points + n, b);
    }
  }

  /** Taking points from a holder keeps the ledger sound. */
  lemma TakeKeepsValid(p: Points, i: nat, n: nat)
    requires p.Covers()
    requires i < |p.holders| && n <= p.holders[i].points
    ensures n <= p.total && Points(Take(p.holders, i, n), p.total - n).Covers()
    ensures p.Valid() ==> Points(Take(p.holders, i, n), p.total - n).Valid()
  {
    PartOfTotal(p.holders, i);
    assert Wrap(p.holders[i].points - n) == p.holders[i].points - n;
    if n == p.holders[i].points {
      EvictHolder(p.holders, i);
    } else {
      SumOfUpdate(p.holders, i, Holder(p.holders[i].address, p.holders[i].points - n));
    }
  }

  /** Removing points from a ledger that covers its holders cannot underflow, and is refused exactly if nothing would be left. */
  lemma RemovedTotal(p: Points, a: Address, n: nat)
    requires p.Covers()
    requires p.GetPointsFor(a).Some? && n <= p.GetPointsFor(a).value
    ensures n <= p.total
    ensures p.RemovePoints(a, n).None? <==> n == p.total
    ensures p.RemovePoints(a, n).Some? ==>
      var q := p.RemovePoints(a, n).value;
      && q.total == p.total - n && 0 < q.total
      && q.Covers() && (p.Valid() ==> q.Valid())
  {
    TakeKeepsValid(p, IndexOf(p.holders, a).value, n);
  }

  lemma OwnedAfterTaking(p: Points, i: nat, n: nat, b: Address)
    requires p.Valid()
    requires i < |p.holders| && n <= p.holders[i].points
    ensures Owned(Take(p.holders, i, n), b) + (if b == p.holders[i].address then n else 0) == Owned(p.holders, b)
  {
    PartOfTotal(p.holders, i);
    OwnedAfterUpdate(p.holders, i, p.holders[i].points, b);
    assert p.holders[i := Holder(p.holders[i].address, p.holders[i].points)] == p.holders;
    assert Wrap(p.holders[i].points - n) == p.holders[i].points - n;
    if n == p.holders[i].points {
      OwnedAfterEviction(p.holders, i, b);
    } else {
      OwnedAfterUpdate(p.holders, i, p.holders[i].points - n, b);
    }
  }

  /** Removing points keeps the ledger sound, takes exactly n from the address and the total, and touches nobody else. */
  lemma RemovePointsKeepsValid(p: Points, a: Address, n: nat)
    requires p.Valid()
    requires p.GetPointsFor(a).Some? && n <= p.GetPointsFor(a).value
    ensures n <= p.total
    ensures p.RemovePoints(a, n).None? <==> n == p.total
    ensures p.RemovePoints(a, n).Some? ==>
      var q := p.RemovePoints(a, n).value;
      && q.Valid()
      && q.total == p.total - n && 0 < q.total
      && forall b :: PointsOf(q, b) + (if b == a then n else 0) == PointsOf(p, b)
  {
    var i := IndexOf(p.holders, a).value;
    RemovedTotal(p, a, n);
    if n != p.total {
      forall b
        ensures PointsOf(Points(Take(p.holders, i, n), p.total - n), b) + (if b == a then n else 0) == PointsOf(p, b)
      {
        OwnedAfterTaking(p, i, n, b);
      }
    }
  }
}
