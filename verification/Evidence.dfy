/**
 Double-sign evidence: which pairs of certificates implicate whom, that nobody honest is ever
 implicated, and that a real conflict always implicates more than a third of the power.
 */
module Evidence {
  import opened Options
  import opened Quorum
  import opened Certificates
  import opened Replica
  import opened Agreement

  datatype DoubleSignEvidence = DoubleSignEvidence(voteA: QC, voteB: QC) {

    predicate CheckBasic() {
      voteA.view == voteB.view
    }

    /** Acceptable evidence: recent, without bulk content, for a phase after PROPOSE, and equivocating. */
    predicate Check(c: Committee, log: seq<Signed>, minimumEvidenceHeight: nat) {
      && minimumEvidenceHeight <= voteA.view.rootHeight
      && voteA.block.None? && voteB.block.None?
      && voteA.results.None? && voteB.results.None?
      && Certificates.Check(c, log, voteA) != Invalid
      && Certificates.Check(c, log, voteB) != Invalid
      && voteA.view == voteB.view
      && voteA.SignBytes() != voteB.SignBytes()
      && Propose.Ord() < voteA.view.phase.Ord()
    }
  }

  datatype DoubleSigner = DoubleSigner(id: nat, heights: seq<nat>)

  /** The list names a signer for a root height. */
  ghost predicate Names(signers: seq<DoubleSigner>, id: nat, height: nat) {
    exists k :: 0 <= k < |signers| && signers[k].id == id && height in signers[k].heights
  }

  ghost predicate DistinctIds(signers: seq<DoubleSigner>) {
    forall j, k :: 0 <= j < k < |signers| ==> signers[j].id != signers[k].id
  }

  /** A piece of evidence implicates a committee member who is in both bitmaps and may be slashed at that height. */
  predicate Implicates(c: Committee, slashable: set<(nat, nat)>, e: DoubleSignEvidence, id: nat, height: nat) {
    && id < c.Size() && id in e.voteA.signers && id in e.voteB.signers
    && height == e.voteA.view.rootHeight
    && (height, id) in slashable
  }

  /** Two different payloads of one view, after PROPOSE and recent, each signed by everybody in its bitmap, sent without content. */
  lemma AcceptedExactlyWhen(c: Committee, log: seq<Signed>, e: DoubleSignEvidence, minimumEvidenceHeight: nat)
    ensures e.CheckBasic() && e.Check(c, log, minimumEvidenceHeight) <==>
      var a, b := e.voteA, e.voteB;
      && a.view == b.view && a.SignBytes() != b.SignBytes()
      && a.view.phase !in {Election, ElectionVote, Propose} && minimumEvidenceHeight <= a.view.rootHeight
      && a.block.None? && b.block.None? && a.results.None? && b.results.None?
      && (a.resultsHash == NoDigest ==> a.blockHash == NoDigest) && (b.resultsHash == NoDigest ==> b.blockHash == NoDigest)
      && (forall i :: i in a.signers ==> i < c.Size() && Signed(i, a.SignBytes()) in log)
      && (forall i :: i in b.signers ==> i < c.Size() && Signed(i, b.SignBytes()) in log)
  {
  }

  /** Accepted evidence implicates exactly who is in both bitmaps and may still be slashed at its height; all of them have signed both payloads. */
  lemma ImplicatedExactlyWhen(c: Committee, log: seq<Signed>, slashable: set<(nat, nat)>, e: DoubleSignEvidence, minimumEvidenceHeight: nat, id: nat, height: nat)
    requires e.Check(c, log, minimumEvidenceHeight)
    ensures Implicates(c, slashable, e, id, height) <==>
      id in e.voteA.signers * e.voteB.signers && height == e.voteA.view.rootHeight && (height, id) in slashable
    ensures Implicates(c, slashable, e, id, height) ==>
      id < c.Size() && Signed(id, e.voteA.SignBytes()) in log && Signed(id, e.voteB.SignBytes()) in log
  {
  }

  /** Adds a height to the signer's entry, or a new entry; heights and entries are never repeated. */
  method AddSigner(signers: seq<DoubleSigner>, id: nat, height: nat) returns (r: seq<DoubleSigner>)
    requires DistinctIds(signers)
    ensures DistinctIds(r)
    ensures forall i, h :: Names(r, i, h) <==> Names(signers, i, h) || (i == id && h == height)
  {
    for k := 0 to |signers|
      invariant forall j :: 0 <= j < k ==> signers[j].id != id
    {
      if signers[k].id == id {
        if height in signers[k].heights {
          return signers;
        }
        r := signers[k := DoubleSigner(id, signers[k].heights + [height])];
        forall i, h
          ensures Names(r, i, h) <==> Names(signers, i, h) || (i == id && h == height)
        {
          if Names(signers, i, h) {
            var j :| 0 <= j < |signers| && signers[j].id == i && h in signers[j].heights;
            assert r[j].id == i && h in r[j].heights;
          }
          if i == id && h == height {
            assert r[k].id == i && h in r[k].heights;
          }
        }
        return r;
      }
    }
    r := signers + [DoubleSigner(id, [height])];
    forall i, h
      ensures Names(r, i, h) <==> Names(signers, i, h) || (i == id && h == height)
    {
      if Names(signers, i, h) {
        var j :| 0 <= j < |signers| && signers[j].id == i && h in signers[j].heights;
        assert r[j].id == i && h in r[j].heights;
      }
      if i == id && h == height {
        assert r[|signers|].id == i && h in r[|signers|].heights;
      }
    }
  }

  /**
   Turns evidence into double signers. One bad piece rejects the whole list; otherwise the result
   names exactly the signers, at the heights, that some piece implicates.
   */
  method ProcessDSE(c: Committee, log: seq<Signed>, slashable: set<(nat, nat)>, minimumEvidenceHeight: nat, dse: seq<DoubleSignEvidence>)
    returns (r: Option<seq<DoubleSigner>>)
    ensures r.Some? <==> forall k :: 0 <= k < |dse| ==> dse[k].CheckBasic() && dse[k].Check(c, log, minimumEvidenceHeight)
    ensures r.Some? ==> DistinctIds(r.value)
    ensures r.Some? ==> forall i, h :: Names(r.value, i, h) <==> exists k :: 0 <= k < |dse| && Implicates(c, slashable, dse[k], i, h)
  {
    var results: seq<DoubleSigner> := [];
    for k := 0 to |dse|
      invariant forall j :: 0 <= j < k ==> dse[j].CheckBasic() && dse[j].Check(c, log, minimumEvidenceHeight)
      invariant DistinctIds(results)
      invariant forall i, h :: Names(results, i, h) <==> exists j :: 0 <= j < k && Implicates(c, slashable, dse[j], i, h)
    {
      if !dse[k].CheckBasic() {
        return None;
      }
      if !dse[k].Check(c, log, minimumEvidenceHeight) {
        return None;
      }
      var doubles := GetDoubleSigners(c, dse[k].voteA.signers, dse[k].voteB.signers);
      var height := dse[k].voteA.view.rootHeight;
      ghost var before := results;
      for l := 0 to |doubles|
        invariant DistinctIds(results)
        invariant forall i: nat, h: nat :: Names(results, i, h) <==>
          Names(before, i, h) || (h == height && i in doubles[..l] && (h, i) in slashable)
      {
        assert doubles[..l + 1] == doubles[..l] + [doubles[l]];
        if (height, doubles[l]) in slashable {
          results := AddSigner(results, doubles[l], height);
        }
      }
      assert doubles[..|doubles|] == doubles;
      forall i, h
        ensures Names(results, i, h) <==> exists j :: 0 <= j < k + 1 && Implicates(c, slashable, dse[j], i, h)
      {
        assert Names(results, i, h) <==> Names(before, i, h) || Implicates(c, slashable, dse[k], i, h);
      }
    }
    return Some(results);
  }

  /** The double signers listed in a proposal are all backed by the attached evidence. */
  method ValidateByzantineEvidence(c: Committee, log: seq<Signed>, slashable: set<(nat, nat)>, minimumEvidenceHeight: nat,
                                   slashed: seq<DoubleSigner>, dse: seq<DoubleSignEvidence>) returns (ok: bool)
    ensures ok && slashed != [] ==> forall k :: 0 <= k < |dse| ==> dse[k].Check(c, log, minimumEvidenceHeight)
    ensures ok ==> forall i, h :: Names(slashed, i, h) ==> exists k :: 0 <= k < |dse| && Implicates(c, slashable, dse[k], i, h)
  {
    if |slashed| == 0 {
      return true;
    }
    var justified := ProcessDSE(c, log, slashable, minimumEvidenceHeight, dse);
    if justified.None? {
      return false;
    }
    for k := 0 to |slashed|
      invariant forall j, h :: 0 <= j < k && h in slashed[j].heights ==> Names(justified.value, slashed[j].id, h)
    {
      var found := false;
      for l := 0 to |justified.value|
        invariant found ==> forall h :: h in slashed[k].heights ==> Names(justified.value, slashed[k].id, h)
      {
        var signer := justified.value[l];
        if signer.id == slashed[k].id {
          if forall h | h in slashed[k].heights :: h in signer.heights {
            found := true;
          }
        }
      }
      if !found {
        return false;
      }
    }
    return true;
  }

  /** Accountability protects the honest: in every run, acceptable evidence implicates only faulty replicas. */
  lemma HonestIsNeverImplicated(cfg: Config, worlds: seq<World>, steps: seq<Step>, k: nat,
                                e: DoubleSignEvidence, slashable: set<(nat, nat)>, minimumEvidenceHeight: nat, id: nat, height: nat)
    requires Run(cfg, worlds, steps) && k <= |steps|
    requires e.Check(cfg.committee, worlds[k].log, minimumEvidenceHeight)
    requires Implicates(cfg.committee, slashable, e, id, height)
    ensures id in cfg.faulty
  {
    if cfg.Honest(id) {
      HonestNeverEquivocates(cfg, worlds, steps, k, id, e.voteA.SignBytes(), e.voteB.SignBytes());
      assert false;
    }
  }

  /** Two full certificates of one view for different payloads implicate signers of more than a third of the power. */
  lemma ConflictImplicatesAThird(c: Committee, log: seq<Signed>, a: QC, b: QC)
    requires Check(c, log, a) == Full && Check(c, log, b) == Full
    requires a.view == b.view && a.SignBytes() != b.SignBytes() && Propose.Ord() < a.view.phase.Ord()
    ensures var e := DoubleSignEvidence(a.(block := None, results := None), b.(block := None, results := None));
      && e.CheckBasic() && e.Check(c, log, 0)
      && 2 * c.MinimumMaj23() - c.TotalPower() <= c.Power(e.voteA.signers * e.voteB.signers)
      && c.TotalPower() < 3 * c.Power(e.voteA.signers * e.voteB.signers)
  {
    OverlapOfQuorums(c, a.signers, b.signers);
    assert a.SignBytes() == a.(block := None, results := None).SignBytes();
    assert b.SignBytes() == b.(block := None, results := None).SignBytes();
  }
}
