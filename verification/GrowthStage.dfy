/** The candidate loop of the Growth stage: associate, judge, mature, and record exactly one
    disposition per candidate. */
module GrowthStage {
  import opened Bytes
  import opened Candidates
  import opened Association
  import opened AssociationStage
  import opened Reconciliation

  datatype RelevanceStatus = RelevanceRejected | RelevanceUnresolved | ContractEligible | DosRelevantPartial

  datatype Relevance = Relevance(status: RelevanceStatus, reasons: set<Code>, amplification: string)

  /** Called code, arbitrary but for its result types. None stands for a raised error. */
  datatype Callees = Callees(
    relevance: (Option<Entry>, Candidate, set<Link>) -> Relevance,
    negativeKind: (Candidate, set<Code>) -> Option<ProofKind>,
    reach: Entry -> Option<(bool, set<Code>)>,
    classify: (Entry, Candidate) -> Option<string>)

  // ---- Shapes of outcomes ----------------------------------------------------------------

  /** What every outcome satisfies: one link exactly when the association is complete or
      partial, and then they agree; known entries; the candidate's own links; some reason. */
  ghost predicate WellShaped(o: Outcome, c: Candidate, ids: set<EntryId>)
  {
    o.Associated? ==>
      && (forall l | l in o.links :: l.growth == c.growth && l.entry in ids && ValidLink(l))
      && ValidReasons(o.reasons) && (o.association.Missing? ==> o.links == {})
      && (o.association.Ambiguous? ==> |o.links| != 1)
      && (o.association.AssociationComplete? || o.association.AssociationPartial? ==>
            |o.links| == 1 && forall l | l in o.links :: StatusOf(l.status) == o.association)
  }

  function Ids(entries: set<Entry>): set<EntryId>
  {
    set e | e in entries :: e.id
  }

  lemma CanonicalIn(s: set<Entry>, c: Candidate, r: Option<Entry>)
    requires IsCanonical(s, c, r) && r.Some?
    ensures r.value in s
  {
  }

  lemma CanonicalizedShaped(c: Candidate, entry: EntryId, status: LinkStatus, reasons: set<Code>, ids: set<EntryId>)
    requires entry in ids && ValidReasons(reasons)
    ensures WellShaped(Canonicalized(c, entry, status, reasons), c, ids)
  {
    assert AssociationQueryEvidence in {AssociationQueryEvidence} + reasons;
  }

  lemma JoinedReasons(links: set<Link>, more: set<Code>)
    requires (forall l | l in links :: ValidLink(l)) && ValidReasons(more)
    ensures ValidReasons(more + AllReasons(links))
  {
    var r :| r in more;
    assert r in more + AllReasons(links);
    forall l | l in links ensures Note("") !in l.reasons { assert ValidLink(l); }
  }

  lemma MoreReasons(reasons: set<Code>, code: Code)
    requires Note("") !in reasons && code != Note("")
    ensures ValidReasons(reasons + {code}) && ValidReasons({code} + reasons)
  {
    assert code in reasons + {code};
  }

  lemma BaseShaped(h: Helpers, entries: set<Entry>, c: Candidate, links: set<Link>, o: Outcome)
    requires Aliases(links, entries) && FromLinks(h, entries, c, links, o) && |BaseLinks(h, links, entries)| == 1
    requires forall l | l in links :: l.entry in Ids(entries) && ValidLink(l)
    ensures WellShaped(o, c, Ids(entries))
  {
    var b :| b in BaseLinks(h, links, entries)
        && o == Canonicalized(c, b.entry, b.status, b.reasons + {HandlerBaseCanonicalized});
    assert b in links;
    MoreReasons(b.reasons, HandlerBaseCanonicalized);
    CanonicalizedShaped(c, b.entry, b.status, b.reasons + {HandlerBaseCanonicalized}, Ids(entries));
  }

  lemma AliasesShaped(h: Helpers, entries: set<Entry>, c: Candidate, links: set<Link>, o: Outcome)
    requires Aliases(links, entries) && FromLinks(h, entries, c, links, o) && |BaseLinks(h, links, entries)| != 1
    requires forall l | l in links :: l.entry in Ids(entries) && ValidLink(l)
    ensures WellShaped(o, c, Ids(entries))
  {
    var es := EntriesOf(links, entries);
    var r: Option<Entry>, k :| IsCanonical(es, c, r) && k in links &&
      o == if r.None? then Raised
           else Canonicalized(c, r.value.id, k.status, {DuplicateRegistrationCanonicalized} + AllReasons(links));
    if r.Some? {
      CanonicalIn(es, c, r);
      JoinedReasons(links, {DuplicateRegistrationCanonicalized});
      CanonicalizedShaped(c, r.value.id, k.status, {DuplicateRegistrationCanonicalized} + AllReasons(links),
          Ids(entries));
    }
  }

  lemma LinksShaped(h: Helpers, entries: set<Entry>, c: Candidate, links: set<Link>, o: Outcome)
    requires links != {} && FromLinks(h, entries, c, links, o)
    requires forall l | l in links :: l.growth == c.growth && l.entry in Ids(entries) && ValidLink(l)
    ensures WellShaped(o, c, Ids(entries))
  {
    if Aliases(links, entries) {
      if |BaseLinks(h, links, entries)| == 1 { BaseShaped(h, entries, c, links, o); }
      else { AliasesShaped(h, entries, c, links, o); }
    } else if |links| > 64 {
      assert FanoutPartitionAmbiguous in o.reasons;
    } else {
      JoinedReasons(links, {AssociationQueryEvidence});
      if |links| == 1 {
        var k :| k in links && o.association == StatusOf(k.status);
        forall l | l in links ensures l == k { Singleton(links, l, k); }
      }
    }
  }

  lemma PartialShaped(h: Helpers, e: Entry, c: Candidate, flows: set<Row>, ids: set<EntryId>)
    requires e.id in ids
    ensures WellShaped(PartialLink(h, e, c, flows), c, ids)
  {
    assert LegacySourceOrderPartial in SourceOrderLink(h, e, c, flows).reasons;
    assert CallGraphUnavailable in PartialLink(h, e, c, flows).reasons;
  }

  lemma SourceShaped(h: Helpers, entries: set<Entry>, c: Candidate, flows: set<Row>, o: Outcome)
    requires FromSourceOrder(h, entries, c, flows, o)
    ensures WellShaped(o, c, Ids(entries))
  {
    var matches := SourceOrder(entries, c);
    if matches == {} {
      assert EntryCoverageUnproven in o.reasons;
    } else {
      var anchors := if SameSemantics(matches) then matches else Nearest(matches);
      var r: Option<Entry> :| IsCanonical(anchors, c, r) &&
        o == if r.None? then Associated({}, Ambiguous, {FanoutPartitionAmbiguous})
            else PartialLink(h, r.value, c, flows);
      if r.Some? {
        CanonicalIn(anchors, c, r);
        assert r.value in entries;
        PartialShaped(h, r.value, c, flows, Ids(entries));
      } else {
        assert FanoutPartitionAmbiguous in o.reasons;
      }
    }
  }

  lemma LinkedShaped(h: Helpers, entries: set<Entry>, c: Candidate, rows: set<Row>, flows: set<Row>, l: Link)
    requires !BlankRow(h, entries, c, rows) && l in LinkedSet(h, entries, c, rows, flows)
    ensures l.growth == c.growth && l.entry in Ids(entries) && ValidLink(l)
  {
    var e, a :| e in entries && a in rows && Applies(h, e, c, a) && l == LinkOf(h, e, c, a, flows);
    assert a.note in l.reasons && a.note != Note("") && c.growth in l.evidence;
  }

  lemma OutcomeShaped(h: Helpers, entries: set<Entry>, c: Candidate, rows: set<Row>, flows: set<Row>, o: Outcome)
    requires IsOutcome(h, entries, c, rows, flows, o)
    ensures WellShaped(o, c, Ids(entries))
  {
    var links := LinkedSet(h, entries, c, rows, flows);
    if BlankRow(h, entries, c, rows) {
      assert o.Raised?;
    } else if links != {} {
      forall l | l in links ensures l.growth == c.growth && l.entry in Ids(entries) && ValidLink(l) {
        LinkedShaped(h, entries, c, rows, flows, l);
      }
      LinksShaped(h, entries, c, links, o);
    } else {
      SourceShaped(h, entries, c, flows, o);
    }
  }

  // ---- Dispositions ----------------------------------------------------------------------

  function Facts(c: Candidate): set<EvidenceId>
  {
    set f | f in c.evidence :: FactEvidence(f)
  }

  function LinkRefs(links: seq<Link>): set<EvidenceId>
  {
    set i | 0 <= i < |links| :: LinkEvidence(links[i])
  }

  function AssociationEvidence(c: Candidate, links: seq<Link>): set<EvidenceId>
  {
    Facts(c) + LinkRefs(links) + (if |links| == 1 then {EntryEvidence(links[0].entry)} else {})
  }

  function AssociationRecord(
      c: Candidate, links: seq<Link>, association: AssociationStatus, reasons: set<Code>): Disposition
  {
    var canonical := if |links| == 1 then Some(links[0].entry) else None;
    var status :=
      if canonical.Some? && (association.AssociationComplete? || association.AssociationPartial?) then
        if c.complete && association.AssociationComplete? then FormalEligible else GapEligible
      else InventoryUnresolved;
    Disposition(
      c.growth, status, canonical, if c.complete then LocalComplete else LocalPartial, association, links,
      AssociationEvidence(c, links), {}, reasons)
  }

  /** `_association_disposition`. */
  function AssociationDisposition(
      c: Candidate, links: seq<Link>, association: AssociationStatus, reasons: set<Code>): Option<Disposition>
  {
    CreateDisposition(AssociationRecord(c, links, association, reasons))
  }

  /** `_mature_disposition`. */
  function MatureDisposition(
      c: Candidate, a: Disposition, status: DispositionStatus, relevance: Option<RelevanceStatus>, reasons: set<Code>,
      evidence: set<EvidenceId>, proofs: set<NegativeProof>): Option<Disposition>
  {
    var local :=
      if status.Rejected? && proofs != {} then LocalRejected
      else if status.GapEligible? && relevance == Some(DosRelevantPartial) then LocalPartial
      else a.local;
    CreateDisposition(Disposition(
      c.growth, status, a.canonical, local, a.association, a.linkIds,
      a.evidence + evidence + (set p | p in proofs :: ProofEvidence(p)), proofs, a.reasons + reasons))
  }

  /** A disposition that carries an association on: same candidate, entry, status and links. */
  predicate Carries(
      d: Disposition, growth: GrowthId, canonical: Option<EntryId>, association: AssociationStatus, links: seq<Link>)
  {
    d.growth == growth && d.canonical == canonical && d.association == association && d.linkIds == links
  }

  /** A disposition whose links and shape are in order before any other is looked at. */
  ghost predicate Sound(d: Disposition, ids: set<EntryId>)
  {
    && ValidDisposition(d) && GoodShape(d, ids)
    && forall i | 0 <= i < |d.linkIds| :: d.linkIds[i].growth == d.growth && d.linkIds[i].entry in ids
        && ValidLink(d.linkIds[i])
  }

  lemma AssociationSound(c: Candidate, o: Outcome, links: seq<Link>, ids: set<EntryId>, d: Disposition)
    requires o.Associated? && WellShaped(o, c, ids) && Lists(links, o)
    requires AssociationDisposition(c, links, o.association, o.reasons) == Some(d)
    ensures Sound(d, ids) && !d.status.Rejected? && d.linkIds == links && d.growth == c.growth
  {
    DistinctSize(links);
    forall i | 0 <= i < |links| ensures links[i] in o.links { assert links[i] in Elements(links); }
  }

  lemma MatureSound(c: Candidate, a: Disposition, ids: set<EntryId>, d: Disposition)
    requires Sound(a, ids) && a.growth == c.growth && ValidDisposition(d)
    requires Carries(d, c.growth, a.canonical, a.association, a.linkIds)
    ensures Sound(d, ids)
  {
  }

  lemma EvidenceInOrder(c: Candidate, links: seq<Link>)
    requires c.evidence != {}
    ensures AssociationEvidence(c, links) != {} && CitedProofs(AssociationEvidence(c, links)) == {}
  {
    var f :| f in c.evidence;
    assert FactEvidence(f) in AssociationEvidence(c, links);
    assert forall e | e in AssociationEvidence(c, links) :: !e.ProofEvidence?;
  }

  /** Creating the association disposition never raises when the candidate has evidence. */
  lemma AssociationCreated(c: Candidate, o: Outcome, links: seq<Link>, ids: set<EntryId>)
    requires c.evidence != {} && o.Associated? && WellShaped(o, c, ids) && Lists(links, o)
    ensures AssociationDisposition(c, links, o.association, o.reasons).Some?
  {
    DistinctSize(links);
    EvidenceInOrder(c, links);
  }

  // ---- Maturation never produces an invalid record -----------------------------------------

  lemma CitedAfter(a: set<EvidenceId>, more: set<EvidenceId>, proofs: set<NegativeProof>)
    requires CitedProofs(a) == {} && forall e | e in more :: !e.ProofEvidence?
    ensures CitedProofs(a + more + (set p | p in proofs :: ProofEvidence(p))) == proofs
  {
    var all := a + more + (set p | p in proofs :: ProofEvidence(p));
    forall p ensures p in CitedProofs(all) <==> p in proofs {
      assert ProofEvidence(p) in a ==> p in CitedProofs(a);
      if p in proofs { assert ProofEvidence(p) in all; }
    }
  }

  lemma RejectionCreated(c: Candidate, a: Disposition, reasons: set<Code>, proof: NegativeProof)
    requires ValidDisposition(a) && !a.status.Rejected? && Note("") !in reasons
    ensures MatureDisposition(c, a, Rejected, None, reasons, {}, {proof}).Some?
  {
    CitedAfter(a.evidence, {}, {proof});
    assert ProofEvidence(proof) in a.evidence + {} + (set p | p in {proof} :: ProofEvidence(p));
    var r :| r in a.reasons;
    assert r in a.reasons + reasons;
  }

  lemma UnresolvedCreated(c: Candidate, a: Disposition, reasons: set<Code>)
    requires ValidDisposition(a) && !a.status.Rejected? && Note("") !in reasons
    ensures MatureDisposition(c, a, InventoryUnresolved, None, reasons, {}, {}).Some?
  {
    CitedAfter(a.evidence, {}, {});
    var e :| e in a.evidence;
    assert e in a.evidence + {};
    var r :| r in a.reasons;
    assert r in a.reasons + reasons;
  }

  /** The status of an eligible candidate. */
  function MaturedStatus(relevance: RelevanceStatus, a: DispositionStatus): DispositionStatus
  {
    if relevance.ContractEligible? && a.FormalEligible? then FormalEligible else GapEligible
  }

  lemma EligibleCreated(c: Candidate, a: Disposition, relevance: RelevanceStatus, reasons: set<Code>, verified: string)
    requires ValidDisposition(a) && Eligible(a.status) && (relevance.ContractEligible? || relevance.DosRelevantPartial?)
    requires Note("") !in reasons
    ensures MatureDisposition(c, a, MaturedStatus(relevance, a.status), Some(relevance), reasons,
        {VerifiedEvidence(verified)}, {}).Some?
  {
    CitedAfter(a.evidence, {VerifiedEvidence(verified)}, {});
    assert VerifiedEvidence(verified) in a.evidence + {VerifiedEvidence(verified)};
    var r :| r in a.reasons;
    assert r in a.reasons + reasons;
  }

  // ---- One candidate -----------------------------------------------------------------------

  datatype Matured = Matured(links: seq<Link>, disposition: Disposition, proof: Option<NegativeProof>, retained: bool)

  /** What one pass through the loop body leaves. */
  ghost predicate MaturedWell(m: Matured, c: Candidate, ids: set<EntryId>)
  {
    && Sound(m.disposition, ids) && m.disposition.growth == c.growth && m.disposition.linkIds == m.links
    && (m.retained <==> Eligible(m.disposition.status))
    && m.disposition.proofs == (if m.proof.Some? then {m.proof.value} else {})
    && (m.proof.Some? ==> m.proof.value.growth == c.growth && ValidProof(m.proof.value))
  }

  // ---- What a candidate's record says ------------------------------------------------------

  /** The entry of the only link, if there is only one. */
  ghost predicate SoleEntry(entry: Option<Entry>, o: Outcome, entries: set<Entry>)
    requires o.Associated?
  {
    match entry
    case None => |o.links| != 1
    case Some(e) => |o.links| == 1 && e in entries && forall l | l in o.links :: l.entry == e.id
  }

  function Judgement(k: Callees, c: Candidate, o: Outcome, entry: Option<Entry>): Relevance
    requires o.Associated?
  {
    k.relevance(entry, c, o.links)
  }

  /** The candidate matters and has one associated entry. */
  ghost predicate Qualifies(relevance: RelevanceStatus, association: AssociationStatus)
  {
    && (relevance.ContractEligible? || relevance.DosRelevantPartial?)
    && (association.AssociationComplete? || association.AssociationPartial?)
  }

  ghost predicate Reachable(k: Callees, entry: Option<Entry>)
  {
    entry.Some? && k.reach(entry.value).Some? && k.reach(entry.value).value.0
  }

  /** The status, from the relevance, the association and the reachability. */
  ghost predicate StatusIs(k: Callees, c: Candidate, o: Outcome, entry: Option<Entry>, status: DispositionStatus)
    requires o.Associated?
  {
    var relevance := Judgement(k, c, o, entry).status;
    var formal := relevance.ContractEligible? && c.complete && o.association.AssociationComplete?;
    && (status.FormalEligible? <==> formal && Reachable(k, entry))
    && (status.GapEligible? <==> Qualifies(relevance, o.association) && !formal && Reachable(k, entry))
    && (status.Rejected? <==>
        relevance.RelevanceRejected? || (Qualifies(relevance, o.association) && !Reachable(k, entry)))
    && (status.InventoryUnresolved? <==>
        && !relevance.RelevanceRejected?
        && (relevance.RelevanceUnresolved? || o.association.Missing? || o.association.Ambiguous?))
  }

  /** Why a rejected candidate is rejected. */
  function Refutation(k: Callees, c: Candidate, relevance: Relevance): Option<NegativeProof>
  {
    var kind :=
      if relevance.status.RelevanceRejected? then k.negativeKind(c, relevance.reasons) else Some(NotEntryReachable);
    if kind.None? then None else Some(NegativeProof(c.growth, kind.value, c.evidence, {NegativeReason(kind.value)}))
  }

  /** The reasons a status adds to those of the association and the relevance. */
  function AddedReasons(k: Callees, relevance: Relevance, entry: Option<Entry>, status: DispositionStatus): set<Code>
  {
    match status
    case Rejected =>
      if relevance.status.RelevanceRejected? then {MaturationNegative}
      else if entry.Some? && k.reach(entry.value).Some? then k.reach(entry.value).value.1 + {MaturationUnreachable}
      else {MaturationUnreachable}
    case InventoryUnresolved => {MaturationUnresolved}
    case FormalEligible => {MaturationFormal}
    case GapEligible => {MaturationGap}
  }

  /** The evidence of the association. */
  function AssociatedEvidence(c: Candidate, o: Outcome, entry: Option<Entry>): set<EvidenceId>
    requires o.Associated?
  {
    Facts(c) + (set l | l in o.links :: LinkEvidence(l))
    + (if entry.Some? then {EntryEvidence(entry.value.id)} else {})
  }

  /** Everything about the record but its status and what that brings with it. */
  ghost predicate Identified(c: Candidate, o: Outcome, entry: Option<Entry>, d: Disposition)
    requires o.Associated?
  {
    && d.growth == c.growth && d.association == o.association && Elements(d.linkIds) == o.links
    && d.canonical == (if entry.Some? then Some(entry.value.id) else None)
  }

  /** What the status brings with it. */
  ghost predicate Justified(k: Callees, c: Candidate, o: Outcome, entry: Option<Entry>, d: Disposition)
    requires o.Associated?
  {
    var relevance := Judgement(k, c, o, entry);
    var base := AssociatedEvidence(c, o, entry);
    && d.reasons == o.reasons + relevance.reasons + {RelevanceAmplification(relevance.amplification)}
                    + AddedReasons(k, relevance, entry, d.status)
    && match d.status
       case Rejected =>
         var proof := Refutation(k, c, relevance);
         && proof.Some? && d.local.LocalRejected? && d.proofs == {proof.value}
         && d.evidence == base + {ProofEvidence(proof.value)}
       case InventoryUnresolved =>
         d.local == (if c.complete then LocalComplete else LocalPartial) && d.proofs == {} && d.evidence == base
       case FormalEligible => d.local.LocalComplete? && d.proofs == {} && Verified(k, c, entry, d.evidence, base)
       case GapEligible =>
         && d.local == (if c.complete && relevance.status.ContractEligible? then LocalComplete else LocalPartial)
         && d.proofs == {} && Verified(k, c, entry, d.evidence, base)
  }

  /** The evidence names the verified result of the entry's growth contract. */
  ghost predicate Verified(
      k: Callees, c: Candidate, entry: Option<Entry>, evidence: set<EvidenceId>, base: set<EvidenceId>)
  {
    && entry.Some? && k.classify(entry.value, c).Some?
    && evidence == base + {VerifiedEvidence(k.classify(entry.value, c).value)}
  }

  /** The disposition an association with this outcome has to get. */
  ghost predicate RecordIs(k: Callees, c: Candidate, o: Outcome, entry: Option<Entry>, d: Disposition)
    requires o.Associated?
  {
    Identified(c, o, entry, d) && StatusIs(k, c, o, entry, d.status) && Justified(k, c, o, entry, d)
  }

  // ---- The loop body -------------------------------------------------------------------------

  /** The called code answers: it does not raise, nor give an empty reason code. */
  ghost predicate Answers(k: Callees)
  {
    && (forall e, c, links :: Note("") !in k.relevance(e, c, links).reasons)
    && (forall e :: k.reach(e).Some? ==> Note("") !in k.reach(e).value.1)
    && (forall c, reasons :: k.negativeKind(c, reasons).Some?)
    && (forall e :: k.reach(e).Some?)
    && (forall e, c :: k.classify(e, c).Some?)
  }

  /** The association record says what the association found. */
  ghost predicate AssociationIs(c: Candidate, o: Outcome, entry: Option<Entry>, a: Disposition)
    requires o.Associated?
  {
    && Identified(c, o, entry, a) && a.reasons == o.reasons && a.evidence == AssociatedEvidence(c, o, entry)
    && a.local == (if c.complete then LocalComplete else LocalPartial)
    && (a.status.FormalEligible? <==> c.complete && o.association.AssociationComplete?)
    && (a.status.InventoryUnresolved? <==> o.association.Missing? || o.association.Ambiguous?)
    && !a.status.Rejected?
    && (entry.Some? <== o.association.AssociationComplete? || o.association.AssociationPartial?)
  }

  lemma AssociationSays(
      c: Candidate, o: Outcome, links: seq<Link>, ids: set<EntryId>, entry: Option<Entry>, entries: set<Entry>)
    requires o.Associated? && WellShaped(o, c, ids) && Lists(links, o) && SoleEntry(entry, o, entries)
    ensures AssociationIs(c, o, entry, AssociationRecord(c, links, o.association, o.reasons))
  {
    DistinctSize(links);
    assert LinkRefs(links) == set l | l in o.links :: LinkEvidence(l);
    if |links| == 1 { assert links[0] in Elements(links); }
  }

  lemma SoleOf(byId: map<EntryId, Entry>, links: seq<Link>, o: Outcome, entries: set<Entry>, c: Candidate)
    returns (entry: Option<Entry>)
    requires Indexes(byId, entries) && o.Associated? && WellShaped(o, c, byId.Keys) && Lists(links, o)
    ensures forall i | 0 <= i < |links| :: links[i].entry in byId
    ensures entry == (if |links| == 1 then Some(byId[links[0].entry]) else None) && SoleEntry(entry, o, entries)
  {
    DistinctSize(links);
    forall i | 0 <= i < |links| ensures links[i].entry in byId { assert links[i] in Elements(links); }
    entry := if |links| == 1 then Some(byId[links[0].entry]) else None;
  }

  method Reject(
      c: Candidate, a: Disposition, kind: ProofKind, reasons: set<Code>, ghost ids: set<EntryId>)
    returns (r: Option<Matured>)
    requires Sound(a, ids) && a.growth == c.growth && !a.status.Rejected?
    ensures r.Some? ==> MaturedWell(r.value, c, ids) && r.value.links == a.linkIds
    ensures r.Some? ==>
        var proof := NegativeProof(c.growth, kind, c.evidence, {NegativeReason(kind)});
        r.value.disposition == a.(status := Rejected, local := LocalRejected, proofs := {proof},
            evidence := a.evidence + {ProofEvidence(proof)}, reasons := a.reasons + reasons)
    ensures r.Some? <==> SourceBackedAll(c.evidence) && Note("") !in reasons
  {
    var proof := NegativeProof(c.growth, kind, c.evidence, {NegativeReason(kind)});
    if !ValidProof(proof) { return None; }
    if Note("") !in reasons { RejectionCreated(c, a, reasons, proof); }
    var d := MatureDisposition(c, a, Rejected, None, reasons, {}, {proof});
    if d.None? { return None; }
    assert (set p | p in {proof} :: ProofEvidence(p)) == {ProofEvidence(proof)};
    MatureSound(c, a, ids, d.value);
    r := Some(Matured(a.linkIds, d.value, Some(proof), false));
  }

  /** An eligible candidate: reachability, then the growth contract. */
  method Qualify(
      k: Callees, c: Candidate, a: Disposition, entry: Entry, relevance: RelevanceStatus, reasons: set<Code>,
      ghost ids: set<EntryId>)
    returns (r: Option<Matured>)
    requires Sound(a, ids) && a.growth == c.growth && Eligible(a.status)
        && (relevance.ContractEligible? || relevance.DosRelevantPartial?)
    ensures r.Some? ==> MaturedWell(r.value, c, ids) && r.value.links == a.linkIds
    ensures r.Some? ==>
        var d := r.value.disposition;
        && k.reach(entry).Some?
        && if k.reach(entry).value.0 then
             && k.classify(entry, c).Some?
             && d.status == MaturedStatus(relevance, a.status)
             && d == a.(status := d.status,
                 local := if d.status.GapEligible? && relevance.DosRelevantPartial? then LocalPartial else a.local,
                 proofs := {}, evidence := a.evidence + {VerifiedEvidence(k.classify(entry, c).value)},
                 reasons := a.reasons +
                   (reasons + {if d.status.FormalEligible? then MaturationFormal else MaturationGap}))
           else
             var proof := NegativeProof(c.growth, NotEntryReachable, c.evidence, {NegativeReason(NotEntryReachable)});
             d == a.(status := Rejected, local := LocalRejected, proofs := {proof},
                 evidence := a.evidence + {ProofEvidence(proof)},
                 reasons := a.reasons + (reasons + k.reach(entry).value.1 + {MaturationUnreachable}))
    ensures SourceBackedAll(c.evidence) && Answers(k) && Note("") !in reasons ==> r.Some?
  {
    var reach := k.reach(entry);
    if reach.None? { return None; }
    if !reach.value.0 {
      r := Reject(c, a, NotEntryReachable, reasons + reach.value.1 + {MaturationUnreachable}, ids);
      return;
    }
    var verified := k.classify(entry, c);
    if verified.None? { return None; }
    var status := MaturedStatus(relevance, a.status);
    var why := reasons + {if status.FormalEligible? then MaturationFormal else MaturationGap};
    if Note("") !in reasons { EligibleCreated(c, a, relevance, why, verified.value); }
    var d := MatureDisposition(c, a, status, Some(relevance), why, {VerifiedEvidence(verified.value)}, {});
    if d.None? { return None; }
    MatureSound(c, a, ids, d.value);
    r := Some(Matured(a.linkIds, d.value, None, true));
  }

  lemma UnresolvedRecord(
      k: Callees, c: Candidate, a: Disposition, o: Outcome, entry: Option<Entry>, d: Disposition, reasons: set<Code>)
    requires o.Associated? && AssociationIs(c, o, entry, a)
    requires var relevance := Judgement(k, c, o, entry);
             && !relevance.status.RelevanceRejected?
             && (relevance.status.RelevanceUnresolved? || o.association.Missing? || o.association.Ambiguous?)
             && reasons == a.reasons + relevance.reasons + {RelevanceAmplification(relevance.amplification)}
    requires d == a.(status := InventoryUnresolved, local := a.local, proofs := {}, evidence := a.evidence,
                     reasons := a.reasons + (reasons + {MaturationUnresolved}))
    ensures RecordIs(k, c, o, entry, d)
  {
  }

  lemma RejectedRecord(
      k: Callees, c: Candidate, a: Disposition, o: Outcome, entry: Option<Entry>, d: Disposition, reasons: set<Code>)
    requires o.Associated? && AssociationIs(c, o, entry, a)
    requires var relevance := Judgement(k, c, o, entry);
             && relevance.status.RelevanceRejected? && Refutation(k, c, relevance).Some?
             && reasons == a.reasons + relevance.reasons + {RelevanceAmplification(relevance.amplification)}
             && d == a.(status := Rejected, local := LocalRejected, proofs := {Refutation(k, c, relevance).value},
                        evidence := a.evidence + {ProofEvidence(Refutation(k, c, relevance).value)},
                        reasons := a.reasons + (reasons + {MaturationNegative}))
    ensures RecordIs(k, c, o, entry, d)
  {
  }

  /** What follows the association of one candidate: its record has the status, the proof and
      the reasons that the association, the relevance and the reachability call for. */
  method Mature(
      k: Callees, c: Candidate, a: Disposition, byId: map<EntryId, Entry>, ghost ids: set<EntryId>, ghost o: Outcome,
      ghost entry: Option<Entry>)
    returns (r: Option<Matured>)
    requires Sound(a, ids) && a.growth == c.growth && !a.status.Rejected? && ids == byId.Keys
    requires o.Associated? && AssociationIs(c, o, entry, a)
    requires entry == if |a.linkIds| == 1 then Some(byId[a.linkIds[0].entry]) else None
    ensures r.Some? ==> MaturedWell(r.value, c, ids) && r.value.links == a.linkIds
    ensures r.Some? ==> RecordIs(k, c, o, entry, r.value.disposition)
    ensures SourceBackedAll(c.evidence) && Answers(k) ==> r.Some?
  {
    var links := a.linkIds;
    var relevance := k.relevance(if |links| == 1 then Some(byId[links[0].entry]) else None, c, Elements(links));
    var reasons := a.reasons + relevance.reasons + {RelevanceAmplification(relevance.amplification)};
    if relevance.status.RelevanceRejected? {
      var kind := k.negativeKind(c, relevance.reasons);
      if kind.None? { return None; }
      r := Reject(c, a, kind.value, reasons + {MaturationNegative}, ids);
      if r.Some? { RejectedRecord(k, c, a, o, entry, r.value.disposition, reasons); }
    } else if relevance.status.RelevanceUnresolved? || a.status.InventoryUnresolved? || |links| != 1 {
      if Note("") !in relevance.reasons { UnresolvedCreated(c, a, reasons + {MaturationUnresolved}); }
      var d := MatureDisposition(c, a, InventoryUnresolved, None, reasons + {MaturationUnresolved}, {}, {});
      if d.None? { return None; }
      MatureSound(c, a, ids, d.value);
      UnresolvedRecord(k, c, a, o, entry, d.value, reasons);
      r := Some(Matured(links, d.value, None, false));
    } else {
      r := Qualify(k, c, a, byId[links[0].entry], relevance.status, reasons, ids);
    }
  }

  /** One pass through the loop body: it raises only when an applicable row has no coverage
      note, no rule picks the canonical entry of some aliases, the candidate's evidence is not
      a set of fact identifiers, or called code raises or gives an empty reason. */
  method OneCandidate(
      h: Helpers, k: Callees, entries: seq<Entry>, byId: map<EntryId, Entry>, c: Candidate, rows: seq<Row>,
      flows: seq<Row>)
    returns (r: Option<Matured>, o: Outcome, ghost entry: Option<Entry>)
    requires UniqueIds(Elements(entries)) && byId.Keys == Ids(Elements(entries)) && Indexes(byId, Elements(entries))
    ensures IsOutcome(h, Elements(entries), c, Elements(rows), Elements(flows), o)
    ensures r.Some? ==> o.Associated? && MaturedWell(r.value, c, byId.Keys) && Elements(r.value.links) == o.links
    ensures o.Raised? <==> AssociationRaises(h, Elements(entries), c, Elements(rows), Elements(flows))
    ensures o.Associated? ==> SoleEntry(entry, o, Elements(entries))
    ensures r.Some? ==> RecordIs(k, c, o, entry, r.value.disposition)
    ensures o.Associated? && SourceBackedAll(c.evidence) && Answers(k) ==> r.Some?
  {
    var list;
    o, list := CandidateAssociation(h, entries, c, rows, flows);
    OutcomeShaped(h, Elements(entries), c, Elements(rows), Elements(flows), o);
    RaisedExactlyWhen(h, Elements(entries), c, Elements(rows), Elements(flows), o);
    r, entry := None, None;
    if o.Associated? {
      entry := SoleOf(byId, list, o, Elements(entries), c);
      AssociationSays(c, o, list, byId.Keys, entry, Elements(entries));
      var a := AssociationDisposition(c, list, o.association, o.reasons);
      if c.evidence != {} { AssociationCreated(c, o, list, byId.Keys); }
      if a.Some? {
        AssociationSound(c, o, list, byId.Keys, a.value);
        r := Mature(k, c, a.value, byId, byId.Keys, o, entry);
      }
    }
  }

  // ---- The whole stage ---------------------------------------------------------------------

  datatype GrowthOutput = GrowthOutput(
    links: seq<Link>, dispositions: seq<Disposition>, proofs: seq<NegativeProof>, retained: seq<GrowthId>)

  function GrowthIds(candidates: seq<Candidate>): seq<GrowthId>
  {
    seq(|candidates|, i requires 0 <= i < |candidates| => candidates[i].growth)
  }

  /** The links the dispositions cite, in order. */
  function Flat(dispositions: seq<Disposition>): seq<Link>
  {
    if dispositions == [] then [] else
      Flat(dispositions[..|dispositions| - 1]) + dispositions[|dispositions| - 1].linkIds
  }

  ghost predicate AllSound(dispositions: seq<Disposition>, ids: set<EntryId>)
  {
    && (forall i | 0 <= i < |dispositions| :: Sound(dispositions[i], ids))
    && (forall i, j | 0 <= i < j < |dispositions| :: dispositions[i].growth != dispositions[j].growth)
  }

  lemma CitesLast(rest: seq<Disposition>, d: Disposition, l: Link)
    ensures Cites(rest + [d], l) <==> Cites(rest, l) || l in d.linkIds
  {
    var all := rest + [d];
    if Cites(rest, l) {
      var i :| 0 <= i < |rest| && l in rest[i].linkIds;
      assert all[i] == rest[i];
    }
    if l in d.linkIds { assert all[|rest|] == d; }
  }

  lemma {:induction false} FlatHas(dispositions: seq<Disposition>, l: Link)
    ensures l in Flat(dispositions) <==> Cites(dispositions, l)
  {
    if dispositions != [] {
      var rest, d := dispositions[..|dispositions| - 1], dispositions[|dispositions| - 1];
      FlatHas(rest, l);
      assert dispositions == rest + [d];
      CitesLast(rest, d, l);
    }
  }

  lemma {:induction false} FlatDistinct(dispositions: seq<Disposition>, ids: set<EntryId>)
    requires AllSound(dispositions, ids)
    ensures NoRepeats(Flat(dispositions))
  {
    if dispositions != [] {
      var n := |dispositions| - 1;
      var rest, d := dispositions[..n], dispositions[n];
      FlatDistinct(rest, ids);
      assert Sound(d, ids);
      forall i, j | 0 <= i < |Flat(rest)| && 0 <= j < |d.linkIds| ensures Flat(rest)[i] != d.linkIds[j] {
        var l := Flat(rest)[i];
        FlatHas(rest, l);
        var k :| 0 <= k < |rest| && l in rest[k].linkIds;
        assert Sound(dispositions[k], ids) && l.growth == dispositions[k].growth;
      }
    }
  }

  /** Sound dispositions, one per candidate, with the links they cite, pass the Flow stage. */
  lemma SoundAccepted(dispositions: seq<Disposition>, ids: set<EntryId>, growths: seq<GrowthId>)
    requires AllSound(dispositions, ids) && Growths(dispositions) == growths
    ensures FlowAccepts(Elements(growths), ids, Flat(dispositions), dispositions)
  {
    var links := Flat(dispositions);
    FlatDistinct(dispositions, ids);
    assert NoRepeats(growths) by { assert forall i | 0 <= i < |growths| :: growths[i] == dispositions[i].growth; }
    OneEach(dispositions, Elements(growths));
    forall i | 0 <= i < |links| ensures links[i].growth in Elements(growths) && Cites(dispositions, links[i]) {
      FlatHas(dispositions, links[i]);
      var k :| 0 <= k < |dispositions| && links[i] in dispositions[k].linkIds;
      assert Sound(dispositions[k], ids) && growths[k] == dispositions[k].growth;
    }
    forall i | 0 <= i < |dispositions| ensures GoodDisposition(dispositions[i], Elements(links), ids) {
      assert Sound(dispositions[i], ids);
      forall j | 0 <= j < |dispositions[i].linkIds| ensures dispositions[i].linkIds[j] in Elements(links) {
        FlatHas(dispositions, dispositions[i].linkIds[j]);
      }
    }
  }

  /** Retained are exactly the candidates with an eligible disposition. */
  ghost predicate RetainedExactly(retained: set<GrowthId>, dispositions: seq<Disposition>)
  {
    forall g :: g in retained <==> exists i ::
        0 <= i < |dispositions| && dispositions[i].growth == g && Eligible(dispositions[i].status)
  }

  lemma RetainedAccepted(dispositions: seq<Disposition>, ids: set<EntryId>, retained: set<GrowthId>)
    requires AllSound(dispositions, ids) && RetainedExactly(retained, dispositions)
    ensures RetainedAgree(retained, dispositions)
  {
    forall g | g in retained
      ensures exists i :: 0 <= i < |dispositions| && dispositions[i].growth == g && RetainedDisposition(dispositions[i])
    {
      var i :| 0 <= i < |dispositions| && dispositions[i].growth == g && Eligible(dispositions[i].status);
      assert Sound(dispositions[i], ids);
      assert RetainedDisposition(dispositions[i]);
    }
  }

  lemma OneMoreRetained(retained: seq<GrowthId>, dispositions: seq<Disposition>, d: Disposition)
    requires RetainedExactly(Elements(retained), dispositions)
    ensures RetainedExactly(Elements(if Eligible(d.status) then retained + [d.growth] else retained),
        dispositions + [d])
  {
    var more, after := dispositions + [d], if Eligible(d.status) then retained + [d.growth] else retained;
    ElementsAppend(retained, d.growth);
    forall g
      ensures g in Elements(after) <==> exists i :: 0 <= i < |more| && more[i].growth == g && Eligible(more[i].status)
    {
      if g in Elements(retained) {
        var i :| 0 <= i < |dispositions| && dispositions[i].growth == g && Eligible(dispositions[i].status);
        assert more[i] == dispositions[i];
      }
      if Eligible(d.status) && g == d.growth { assert more[|dispositions|] == d; }
      if i :| 0 <= i < |more| && more[i].growth == g && Eligible(more[i].status) {
        if i < |dispositions| { assert dispositions[i] == more[i]; }
      }
    }
  }

  /** Every proof a disposition cites is published, valid, and for its own candidate. */
  ghost predicate ProofsOwned(out: GrowthOutput)
  {
    forall i, p | 0 <= i < |out.dispositions| && p in out.dispositions[i].proofs ::
      p in out.proofs && p.growth == out.dispositions[i].growth && ValidProof(p)
  }

  /** The loop's records so far, for the first `n` candidates. */
  ghost predicate Progress(out: GrowthOutput, candidates: seq<Candidate>, n: nat, ids: set<EntryId>)
  {
    && n <= |candidates| && |out.dispositions| == n
    && (forall i | 0 <= i < n :: out.dispositions[i].growth == candidates[i].growth)
    && AllSound(out.dispositions, ids) && out.links == Flat(out.dispositions)
    && RetainedExactly(Elements(out.retained), out.dispositions) && ProofsOwned(out)
  }

  lemma ProgressNext(out: GrowthOutput, candidates: seq<Candidate>, n: nat, ids: set<EntryId>, m: Matured)
    requires NoRepeats(GrowthIds(candidates)) && n < |candidates| && Progress(out, candidates, n, ids)
        && MaturedWell(m, candidates[n], ids)
    ensures var d := m.disposition;
            Progress(out.(links := out.links + m.links, dispositions := out.dispositions + [d],
                          proofs := if m.proof.Some? then out.proofs + [m.proof.value] else out.proofs,
                          retained := if m.retained then out.retained + [d.growth] else out.retained),
                     candidates, n + 1, ids)
  {
    var d := m.disposition;
    var more := out.dispositions + [d];
    assert more[..n] == out.dispositions;
    forall i | 0 <= i < n ensures more[i].growth != d.growth {
      assert GrowthIds(candidates)[i] != GrowthIds(candidates)[n];
    }
    OneMoreRetained(out.retained, out.dispositions, d);
  }

  /** No association raises for the first `n` candidates. */
  ghost predicate NoneRaises(
      h: Helpers, entries: set<Entry>, candidates: seq<Candidate>, n: nat, rows: set<Row>, flows: set<Row>)
  {
    forall i: nat | i < n && i < |candidates| :: !AssociationRaises(h, entries, candidates[i], rows, flows)
  }

  /** Candidate `i` has the outcome its rows and entries determine, and the record that calls for. */
  ghost predicate Recorded(
      h: Helpers, k: Callees, entries: set<Entry>, c: Candidate, rows: set<Row>, flows: set<Row>, o: Outcome,
      entry: Option<Entry>, d: Disposition)
  {
    && IsOutcome(h, entries, c, rows, flows, o) && o.Associated? && SoleEntry(entry, o, entries)
    && RecordIs(k, c, o, entry, d)
  }

  ghost predicate AllRecorded(
      h: Helpers, k: Callees, entries: set<Entry>, candidates: seq<Candidate>, rows: set<Row>, flows: set<Row>,
      outcomes: seq<Outcome>, soles: seq<Option<Entry>>, dispositions: seq<Disposition>)
  {
    && |outcomes| == |soles| == |dispositions| <= |candidates|
    && forall i | 0 <= i < |dispositions| ::
         Recorded(h, k, entries, candidates[i], rows, flows, outcomes[i], soles[i], dispositions[i])
  }

  lemma RecordedNext(
      h: Helpers, k: Callees, entries: set<Entry>, candidates: seq<Candidate>, rows: set<Row>, flows: set<Row>,
      outcomes: seq<Outcome>, soles: seq<Option<Entry>>, ds: seq<Disposition>, o: Outcome, sole: Option<Entry>,
      d: Disposition)
    requires AllRecorded(h, k, entries, candidates, rows, flows, outcomes, soles, ds) && |ds| < |candidates|
    requires Recorded(h, k, entries, candidates[|ds|], rows, flows, o, sole, d)
    ensures AllRecorded(h, k, entries, candidates, rows, flows, outcomes + [o], soles + [sole], ds + [d])
  {
  }

  /** What the constructor of a candidate demands of its evidence. */
  ghost predicate AllSourced(candidates: seq<Candidate>)
  {
    forall i | 0 <= i < |candidates| :: SourceBackedAll(candidates[i].evidence)
  }

  /** The Growth stage's candidate loop. Whenever it returns there is one disposition per
      candidate, the one its association, relevance and reachability call for, each meeting the
      schema, and both checkers accept the whole set. It returns
      only if no association raises; and then it does, when every candidate's evidence is a
      set of fact identifiers and called code answers. */
  method GrowthLoop(
      h: Helpers, k: Callees, entries: seq<Entry>, candidates: seq<Candidate>, rows: seq<Row>, flows: seq<Row>)
    returns (r: Option<GrowthOutput>, ghost outcomes: seq<Outcome>, ghost soles: seq<Option<Entry>>)
    requires UniqueIds(Elements(entries)) && NoRepeats(GrowthIds(candidates))
    ensures r.Some? ==> AllRecorded(
        h, k, Elements(entries), candidates, Elements(rows), Elements(flows), outcomes, soles, r.value.dispositions)
    ensures r.Some? ==>
              && Growths(r.value.dispositions) == GrowthIds(candidates)
              && (forall i | 0 <= i < |candidates| :: ValidDisposition(r.value.dispositions[i]))
              && (forall l | l in r.value.links :: ValidLink(l) && Citations(r.value.dispositions, l) == 1)
              && FlowAccepts(Elements(GrowthIds(candidates)), Ids(Elements(entries)), r.value.links,
                  r.value.dispositions)
              && RetainedAgree(Elements(r.value.retained), r.value.dispositions) && ProofsOwned(r.value)
              && AggregatorAccepts(GrowthIds(candidates), Ids(Elements(entries)), r.value.links, r.value.dispositions)
    ensures r.Some? ==> NoneRaises(h, Elements(entries), candidates, |candidates|, Elements(rows), Elements(flows))
    ensures AllSourced(candidates) && Answers(k) ==>
        (NoneRaises(h, Elements(entries), candidates, |candidates|, Elements(rows), Elements(flows)) ==> r.Some?)
  {
    ghost var ids := Ids(Elements(entries));
    var byId := map e | e in Elements(entries) :: e.id := e;
    assert byId.Keys == ids;
    var out := GrowthOutput([], [], [], []);
    r, outcomes, soles := None, [], [];
    for i := 0 to |candidates|
      invariant Progress(out, candidates, i, ids)
      invariant NoneRaises(h, Elements(entries), candidates, i, Elements(rows), Elements(flows))
      invariant AllRecorded(
          h, k, Elements(entries), candidates, Elements(rows), Elements(flows), outcomes, soles, out.dispositions)
    {
      var one, o;
      ghost var entry;
      one, o, entry := OneCandidate(h, k, entries, byId, candidates[i], rows, flows);
      if one.None? { return; }
      var m := one.value;
      RecordedNext(h, k, Elements(entries), candidates, Elements(rows), Elements(flows), outcomes, soles,
        out.dispositions, o, entry, m.disposition);
      outcomes, soles := outcomes + [o], soles + [entry];
      ProgressNext(out, candidates, i, ids, m);
      out := GrowthOutput(
        out.links + m.links, out.dispositions + [m.disposition],
        if m.proof.Some? then out.proofs + [m.proof.value] else out.proofs,
        if m.retained then out.retained + [m.disposition.growth] else out.retained);
    }
    LoopAccepted(out, candidates, ids);
    r := Some(out);
  }

  lemma LinksAccepted(links: seq<Link>, ds: seq<Disposition>, ids: set<EntryId>, growths: seq<GrowthId>)
    requires AllSound(ds, ids) && links == Flat(ds) && AggregatorAccepts(growths, ids, links, ds)
    ensures forall l | l in links :: ValidLink(l) && Citations(ds, l) == 1
  {
    forall l | l in links ensures ValidLink(l) && Citations(ds, l) == 1 {
      FlatHas(ds, l);
      var i :| 0 <= i < |ds| && l in ds[i].linkIds;
      assert Sound(ds[i], ids);
      var j :| 0 <= j < |links| && links[j] == l;
      assert Citations(ds, links[j]) == 1;
    }
  }

  lemma LoopAccepted(out: GrowthOutput, candidates: seq<Candidate>, ids: set<EntryId>)
    requires NoRepeats(GrowthIds(candidates)) && Progress(out, candidates, |candidates|, ids)
    ensures Growths(out.dispositions) == GrowthIds(candidates)
    ensures forall i | 0 <= i < |candidates| :: ValidDisposition(out.dispositions[i])
    ensures forall l | l in out.links :: ValidLink(l) && Citations(out.dispositions, l) == 1
    ensures FlowAccepts(Elements(GrowthIds(candidates)), ids, out.links, out.dispositions)
    ensures RetainedAgree(Elements(out.retained), out.dispositions)
    ensures AggregatorAccepts(GrowthIds(candidates), ids, out.links, out.dispositions)
  {
    var ds, growths := out.dispositions, GrowthIds(candidates);
    assert Growths(ds) == growths;
    forall i | 0 <= i < |ds| ensures ValidDisposition(ds[i]) { assert Sound(ds[i], ids); }
    SoundAccepted(ds, ids, growths);
    RetainedAccepted(ds, ids, Elements(out.retained));
    CheckersAgree(growths, ids, out.links, ds);
    LinksAccepted(out.links, ds, ids, growths);
  }
}
