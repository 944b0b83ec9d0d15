/** Growth candidates, their entry links, and the dispositions that record their fate. */
module Candidates {
  import opened Bytes

  type GrowthId = string
  type EntryId = string
  type FactId = string

  /** Reason codes: the constants the stage uses, and free text carried from rows and callees. */
  datatype Code =
    | Note(text: string)
    | AssociationQueryEvidence | RouteAliasMatched | FlowRowMissing | FlowProofIncomplete
    | HandlerBaseCanonicalized | DuplicateRegistrationCanonicalized | FanoutPartitionAmbiguous
    | EntryCoverageUnproven | LegacySourceOrderPartial | CallGraphUnavailable
    | RelevanceReason(text: string) | RelevanceAmplification(text: string) | ReachabilityReason(text: string)
    | MaturationNegative | MaturationUnresolved | MaturationFormal | MaturationGap | MaturationUnreachable
    | NegativeReason(kind: ProofKind)

  datatype LinkStatus = Complete | Partial

  /** A candidate-entry link. Its identifier is an injective hash of these fields, so a link
      stands for its own identifier. */
  datatype Link = Link(growth: GrowthId, entry: EntryId, status: LinkStatus, evidence: set<string>, reasons: set<Code>)

  datatype ProofKind =
    | ServerControlledSource | NonRetainedOwner | FiniteKeyspace | GeneratedOrTestOnly
    | GuaranteedSynchronousCleanup | EffectiveLocalBound | FalseEntryGrowthFlow | NotEntryReachable

  datatype NegativeProof = NegativeProof(growth: GrowthId, kind: ProofKind, evidence: set<FactId>, reasons: set<Code>)

  /** Evidence identifiers; the constructor is the identifier's prefix. */
  datatype EvidenceId =
    | FactEvidence(fact: FactId)
    | EntryEvidence(entry: EntryId)
    | LinkEvidence(link: Link)
    | ProofEvidence(proof: NegativeProof)
    | VerifiedEvidence(verified: string)

  datatype DispositionStatus = FormalEligible | GapEligible | Rejected | InventoryUnresolved
  datatype LocalStatus = LocalComplete | LocalPartial | LocalRejected | LocalUnknown
  datatype AssociationStatus = AssociationComplete | AssociationPartial | Missing | Ambiguous

  /** One disposition record. `canonical` is None for the empty entry identifier. */
  datatype Disposition = Disposition(
    growth: GrowthId, status: DispositionStatus, canonical: Option<EntryId>, local: LocalStatus,
    association: AssociationStatus, linkIds: seq<Link>, evidence: set<EvidenceId>,
    proofs: set<NegativeProof>, reasons: set<Code>)

  predicate Eligible(s: DispositionStatus)
  {
    s.FormalEligible? || s.GapEligible?
  }

  predicate NoRepeats<T(==)>(s: seq<T>)
  {
    forall i, j | 0 <= i < j < |s| :: s[i] != s[j]
  }

  function Elements<T>(s: seq<T>): set<T>
  {
    set i | 0 <= i < |s| :: s[i]
  }

  lemma ElementsNext<T>(s: seq<T>, i: nat)
    requires i < |s|
    ensures Elements(s[..i + 1]) == Elements(s[..i]) + {s[i]}
  {
    assert s[..i + 1][i] == s[i];
    assert forall k | 0 <= k < i :: s[..i + 1][k] == s[..i][k];
  }

  lemma ElementsOne<T>(x: T)
    ensures Elements([x]) == {x} && NoRepeats([x])
  {
    assert [x][0] == x;
  }

  lemma ElementsAppend<T>(s: seq<T>, x: T)
    ensures Elements(s + [x]) == Elements(s) + {x}
  {
    assert (s + [x])[|s|] == x;
    assert forall k | 0 <= k < |s| :: (s + [x])[k] == s[k];
  }

  lemma {:induction false} DistinctSize<T>(s: seq<T>)
    ensures |Elements(s)| <= |s|
    ensures |Elements(s)| == |s| <==> NoRepeats(s)
  {
    if s != [] {
      var rest, y := s[..|s| - 1], s[|s| - 1];
      DistinctSize(rest);
      assert s == rest + [y];
      assert Elements(s) == Elements(rest) + {y};
      if NoRepeats(rest) && y !in Elements(rest) {
        forall i, j | 0 <= i < j < |s| ensures s[i] != s[j] {
          assert s[i] == rest[i];
          if j < |rest| { assert s[j] == rest[j]; } else { assert rest[i] in Elements(rest); }
        }
      }
      if NoRepeats(s) {
        assert NoRepeats(rest) by { assert forall i | 0 <= i < |rest| :: rest[i] == s[i]; }
        assert y !in Elements(rest) by { assert forall i | 0 <= i < |rest| :: rest[i] == s[i] && s[i] != s[|s| - 1]; }
      }
    }
  }

  /** The negative proofs among some evidence. */
  function CitedProofs(evidence: set<EvidenceId>): set<NegativeProof>
  {
    set e | e in evidence && e.ProofEvidence? :: e.proof
  }

  /** Reason codes are never missing or empty. */
  predicate ValidReasons(reasons: set<Code>)
  {
    reasons != {} && Note("") !in reasons
  }

  /** The rules of a disposition; `DispositionRules` ties them to the written record. */
  predicate ValidDisposition(d: Disposition)
  {
    && NoRepeats(d.linkIds) && d.evidence != {} && ValidReasons(d.reasons)
    && (Eligible(d.status) ==> |d.linkIds| == 1 && d.canonical.Some?)
    && (d.status.FormalEligible? ==> d.local.LocalComplete? && d.association.AssociationComplete? && d.proofs == {})
    && (d.status.GapEligible? ==>
          && (d.local.LocalComplete? || d.local.LocalPartial?)
          && (d.association.AssociationComplete? || d.association.AssociationPartial?)
          && !(d.local.LocalComplete? && d.association.AssociationComplete?) && d.proofs == {})
    && (d.status.Rejected? ==> d.proofs != {} && d.proofs == CitedProofs(d.evidence))
    && (!d.status.Rejected? ==> d.proofs == {} && CitedProofs(d.evidence) == {})
  }

  predicate ValidLink(l: Link)
  {
    l.evidence != {} && ValidReasons(l.reasons)
  }

  predicate IdChar(c: char)
  {
    'A' <= c <= 'Z' || 'a' <= c <= 'z' || '0' <= c <= '9' || c == '.' || c == '_' || c == '-'
  }

  /** `_source_backed_fact_id`. */
  predicate SourceBacked(f: FactId)
  {
    |f| > 5 && f[..5] == "fact:" && forall i | 5 <= i < |f| :: IdChar(f[i])
  }

  predicate SourceBackedAll(facts: set<FactId>)
  {
    facts != {} && forall f | f in facts :: SourceBacked(f)
  }

  /** The rules of the negative proof record. */
  predicate ValidProof(p: NegativeProof)
  {
    SourceBackedAll(p.evidence) && ValidReasons(p.reasons)
  }

  /** Creating an invalid record raises. */
  function CreateDisposition(d: Disposition): (r: Option<Disposition>)
    ensures r.Some? ==> ValidDisposition(d) && r.value == d
  {
    if ValidDisposition(d) then Some(d) else None
  }

  function StatusOf(s: LinkStatus): AssociationStatus
  {
    match s
    case Complete => AssociationComplete
    case Partial => AssociationPartial
  }
}
