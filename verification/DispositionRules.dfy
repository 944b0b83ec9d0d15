/** The disposition record as it is written, with the two sets of rules it must meet: those of
    its constructor and those of the artifact schema. */
module DispositionRules {
  import opened Bytes
  import opened Candidates
  import T = Text

  type Name = T.Name

  /** A record with its identifiers as texts; an empty `canonical` is no entry. */
  datatype Raw = Raw(
    growth: string, status: DispositionStatus, canonical: string, local: LocalStatus, association: AssociationStatus,
    links: seq<Name>, evidence: seq<Name>, proofs: seq<Name>, reasons: seq<Name>)

  const GROWTH_PREFIX := "growth:"
  const ENTRY_PREFIX := "entry:"
  const PROOF_PREFIX := "negative_proof:"

  predicate StartsWith(s: string, prefix: string)
  {
    |prefix| <= |s| && s[..|prefix|] == prefix
  }

  predicate AllProofs(values: seq<Name>)
  {
    forall i | 0 <= i < |values| :: StartsWith(values[i].text, PROOF_PREFIX)
  }

  function CitedIds(evidence: seq<Name>): set<Name>
  {
    set i | 0 <= i < |evidence| && StartsWith(evidence[i].text, PROOF_PREFIX) :: evidence[i]
  }

  // ---- The constructor -----------------------------------------------------------------

  /** `_strings`: the values are what sorting them without repetition gives. */
  ghost predicate Strings(values: seq<Name>, allowEmpty: bool)
  {
    && (values == [] ==> allowEmpty) && (forall i | 0 <= i < |values| :: values[i].text != "")
    && T.Sorted(Elements(values)) == values
  }

  ghost predicate ConstructorAccepts(d: Raw)
  {
    && StartsWith(d.growth, GROWTH_PREFIX) && (d.canonical != "" ==> StartsWith(d.canonical, ENTRY_PREFIX))
    && Strings(d.links, true) && Strings(d.evidence, false) && Strings(d.proofs, true) && Strings(d.reasons, false)
    && AllProofs(d.proofs)
    && !((d.status.FormalEligible? || d.status.GapEligible?) && (|d.links| != 1 || d.canonical == ""))
    && !(d.status.FormalEligible? && (!d.local.LocalComplete? || !d.association.AssociationComplete? || d.proofs != []))
    && !(d.status.GapEligible? &&
         (|| !(d.local.LocalComplete? || d.local.LocalPartial?)
          || !(d.association.AssociationComplete? || d.association.AssociationPartial?)
          || (d.local.LocalComplete? && d.association.AssociationComplete?) || d.proofs != []))
    && !(d.status.Rejected? && (d.proofs == [] || Elements(d.proofs) != CitedIds(d.evidence)))
    && !(!d.status.Rejected? && (d.proofs != [] || CitedIds(d.evidence) != {}))
  }

  // ---- The schema ----------------------------------------------------------------------

  /** Nonempty strings in ascending order, each once. */
  ghost predicate Collection(values: seq<Name>)
  {
    T.Ascending(values) && forall i | 0 <= i < |values| :: values[i].text != ""
  }

  ghost predicate SchemaAccepts(d: Raw)
  {
    && d.growth != "" && Collection(d.links) && Collection(d.evidence) && Collection(d.proofs) && Collection(d.reasons)
    && d.evidence != [] && d.reasons != [] && AllProofs(d.proofs)
    && (Eligible(d.status) ==> |d.links| == 1 && StartsWith(d.canonical, ENTRY_PREFIX))
    && match d.status
       case FormalEligible => d.local.LocalComplete? && d.association.AssociationComplete? && d.proofs == []
           && CitedIds(d.evidence) == {}
       case GapEligible =>
         && (d.local.LocalComplete? || d.local.LocalPartial?)
         && (d.association.AssociationComplete? || d.association.AssociationPartial?)
         && (d.local.LocalPartial? || d.association.AssociationPartial?) && d.proofs == [] && CitedIds(d.evidence) == {}
       case Rejected => d.proofs != [] && Elements(d.proofs) == CitedIds(d.evidence)
       case InventoryUnresolved => d.proofs == [] && CitedIds(d.evidence) == {}
  }

  // ---- The two agree -------------------------------------------------------------------

  lemma SortedHas(s: set<Name>)
    ensures Elements(T.Sorted(s)) == s && T.Ascending(T.Sorted(s)) && |T.Sorted(s)| == |s|
  {
    T.SortedElements(s);
    forall x ensures x in Elements(T.Sorted(s)) <==> x in s { assert x in T.Sorted(s) <==> x in s; }
  }

  /** Ascending lists with the same elements are the same. */
  lemma {:induction false} AscendingUnique(a: seq<Name>, b: seq<Name>)
    requires T.Ascending(a) && T.Ascending(b) && Elements(a) == Elements(b)
    ensures a == b
  {
    assert forall i | 0 <= i < |b| :: b[i] in Elements(b);
    if a != [] {
      assert a[0] in Elements(b);
      assert b[0] in Elements(a);
      var i :| 0 <= i < |b| && b[i] == a[0];
      var j :| 0 <= j < |a| && a[j] == b[0];
      T.LeqReflexive(a[0].text);
      T.LeqAntisymmetric(a[0].text, b[0].text);
      RestElements(a);
      RestElements(b);
      AscendingUnique(a[1..], b[1..]);
      assert a == [a[0]] + a[1..] && b == [b[0]] + b[1..];
    }
  }

  lemma RestElements(a: seq<Name>)
    requires a != [] && T.Ascending(a)
    ensures T.Ascending(a[1..]) && Elements(a[1..]) == Elements(a) - {a[0]}
  {
    forall x ensures x in Elements(a[1..]) <==> x in Elements(a) - {a[0]} {
      if x in Elements(a[1..]) {
        var i :| 0 <= i < |a| - 1 && a[1..][i] == x;
        assert a[i + 1] == x;
      }
      if x in Elements(a) - {a[0]} {
        var i :| 0 <= i < |a| && a[i] == x;
        assert a[1..][i - 1] == x;
      }
    }
  }

  lemma StringsAreCollections(values: seq<Name>, allowEmpty: bool)
    ensures Strings(values, allowEmpty) <==> Collection(values) && (values == [] ==> allowEmpty)
  {
    SortedHas(Elements(values));
    if T.Ascending(values) { AscendingUnique(values, T.Sorted(Elements(values))); }
  }

  /** The constructor's rules are the schema's and two prefixes the schema leaves to the check
      of references. */
  lemma RulesAgree(d: Raw)
    ensures ConstructorAccepts(d) <==>
            && SchemaAccepts(d) && StartsWith(d.growth, GROWTH_PREFIX)
            && (d.canonical != "" ==> StartsWith(d.canonical, ENTRY_PREFIX))
  {
    StringsAreCollections(d.links, true);
    StringsAreCollections(d.evidence, false);
    StringsAreCollections(d.proofs, true);
    StringsAreCollections(d.reasons, false);
  }

  // ---- Dispositions as records -----------------------------------------------------------

  /** The texts of identifiers and codes. */
  datatype Naming = Naming(
    link: Link -> string, proof: NegativeProof -> string, evidence: EvidenceId -> string, code: Code -> string)

  /** Identifiers differ, are not empty, and show a negative proof by its prefix. */
  ghost predicate Sensible(n: Naming)
  {
    && (forall l :: n.link(l) != "") && (forall l, m | n.link(l) == n.link(m) :: l == m)
    && (forall p, q | n.proof(p) == n.proof(q) :: p == q)
    && (forall p :: StartsWith(n.proof(p), PROOF_PREFIX) && n.evidence(ProofEvidence(p)) == n.proof(p))
    && (forall e: EvidenceId | !e.ProofEvidence? :: n.evidence(e) != "" && !StartsWith(n.evidence(e), PROOF_PREFIX))
    && (forall c :: n.code(c) == "" <==> c == Note(""))
  }

  function LinkNames(n: Naming, links: set<Link>): set<Name>
  {
    set l | l in links :: T.Name(n.link(l))
  }

  function ProofNames(n: Naming, proofs: set<NegativeProof>): set<Name>
  {
    set p | p in proofs :: T.Name(n.proof(p))
  }

  function EvidenceNames(n: Naming, evidence: set<EvidenceId>): set<Name>
  {
    set e | e in evidence :: T.Name(n.evidence(e))
  }

  function CodeNames(n: Naming, codes: set<Code>): set<Name>
  {
    set c | c in codes :: T.Name(n.code(c))
  }

  /** The record `create` builds: every collection sorted, repetitions dropped. */
  function Written(n: Naming, d: Disposition): Raw
  {
    Raw(d.growth, d.status, if d.canonical.Some? then d.canonical.value else "", d.local, d.association,
        T.Sorted(LinkNames(n, Elements(d.linkIds))), T.Sorted(EvidenceNames(n, d.evidence)),
        T.Sorted(ProofNames(n, d.proofs)), T.Sorted(CodeNames(n, d.reasons)))
  }

  lemma {:induction false} LinkNamesSize(n: Naming, links: set<Link>)
    requires Sensible(n)
    ensures |LinkNames(n, links)| == |links|
    decreases |links|
  {
    if links != {} {
      var l :| l in links;
      LinkNamesSize(n, links - {l});
      assert LinkNames(n, links) == LinkNames(n, links - {l}) + {T.Name(n.link(l))};
    }
  }

  lemma NonEmptyTexts(s: set<Name>)
    ensures Collection(T.Sorted(s)) <==> T.Name("") !in s
    ensures T.Sorted(s) == [] <==> s == {}
  {
    SortedHas(s);
    if T.Name("") in s {
      assert T.Name("") in Elements(T.Sorted(s));
      var i :| 0 <= i < |T.Sorted(s)| && T.Sorted(s)[i] == T.Name("");
    }
    if T.Name("") !in s {
      forall i | 0 <= i < |T.Sorted(s)| ensures T.Sorted(s)[i].text != "" {
        assert T.Sorted(s)[i] in Elements(T.Sorted(s));
      }
    }
  }

  lemma CitedNames(n: Naming, d: Disposition)
    requires Sensible(n)
    ensures CitedIds(Written(n, d).evidence) == ProofNames(n, CitedProofs(d.evidence))
  {
    var ids := EvidenceNames(n, d.evidence);
    var listed := T.Sorted(ids);
    SortedHas(ids);
    forall x ensures x in CitedIds(listed) <==> x in ProofNames(n, CitedProofs(d.evidence)) {
      if x in CitedIds(listed) {
        assert x in Elements(listed);
        var e :| e in d.evidence && x == T.Name(n.evidence(e));
        assert e.ProofEvidence? && e.proof in CitedProofs(d.evidence);
      }
      if x in ProofNames(n, CitedProofs(d.evidence)) {
        var p :| p in CitedProofs(d.evidence) && x == T.Name(n.proof(p));
        assert ProofEvidence(p) in d.evidence && x in Elements(listed);
      }
    }
  }

  lemma ProofNamesInjective(n: Naming, a: set<NegativeProof>, b: set<NegativeProof>)
    requires Sensible(n)
    ensures ProofNames(n, a) == ProofNames(n, b) <==> a == b
    ensures ProofNames(n, a) == {} <==> a == {}
  {
    if ProofNames(n, a) == ProofNames(n, b) {
      forall p ensures p in a <==> p in b {
        assert p in a ==> T.Name(n.proof(p)) in ProofNames(n, a);
        assert p in b ==> T.Name(n.proof(p)) in ProofNames(n, b);
      }
    }
    if p :| p in a { assert T.Name(n.proof(p)) in ProofNames(n, a); }
  }

  lemma WrittenCollections(n: Naming, d: Disposition)
    requires Sensible(n)
    ensures var w := Written(n, d);
            && Collection(w.links) && Collection(w.evidence) && Collection(w.proofs) && AllProofs(w.proofs)
            && (w.evidence == [] <==> d.evidence == {}) && (w.reasons == [] <==> d.reasons == {})
            && (Collection(w.reasons) <==> Note("") !in d.reasons)
  {
    var links, ids, proofs := LinkNames(n, Elements(d.linkIds)), EvidenceNames(n, d.evidence), ProofNames(n, d.proofs);
    NonEmptyTexts(links);
    NonEmptyTexts(ids);
    NonEmptyTexts(proofs);
    NonEmptyTexts(CodeNames(n, d.reasons));
    SortedHas(proofs);
    forall i | 0 <= i < |T.Sorted(proofs)| ensures StartsWith(T.Sorted(proofs)[i].text, PROOF_PREFIX) {
      assert T.Sorted(proofs)[i] in Elements(T.Sorted(proofs));
    }
    if e :| e in d.evidence { assert T.Name(n.evidence(e)) in ids; }
    if c :| c in d.reasons { assert T.Name(n.code(c)) in CodeNames(n, d.reasons); }
    if Note("") in d.reasons { assert T.Name(n.code(Note(""))) in CodeNames(n, d.reasons); }
  }

  lemma WrittenCounts(n: Naming, d: Disposition)
    requires Sensible(n) && NoRepeats(d.linkIds)
    ensures var w := Written(n, d);
            && |w.links| == |d.linkIds| && (w.proofs == [] <==> d.proofs == {})
            && (Elements(w.proofs) == CitedIds(w.evidence) <==> d.proofs == CitedProofs(d.evidence))
            && (CitedIds(w.evidence) == {} <==> CitedProofs(d.evidence) == {})
  {
    CitedNames(n, d);
    SortedHas(ProofNames(n, d.proofs));
    ProofNamesInjective(n, d.proofs, CitedProofs(d.evidence));
    ProofNamesInjective(n, CitedProofs(d.evidence), d.proofs);
    SortedHas(LinkNames(n, Elements(d.linkIds)));
    LinkNamesSize(n, Elements(d.linkIds));
    DistinctSize(d.linkIds);
    if d.proofs == {} { assert ProofNames(n, d.proofs) == {}; }
  }

  lemma ValidAsWritten(n: Naming, d: Disposition, w: Raw)
    requires Sensible(n) && NoRepeats(d.linkIds) && StartsWith(d.growth, GROWTH_PREFIX)
    requires w == Written(n, d) && (d.canonical.Some? <==> StartsWith(w.canonical, ENTRY_PREFIX))
    ensures ValidDisposition(d) <==> SchemaAccepts(w)
  {
    WrittenCollections(n, d);
    WrittenCounts(n, d);
  }

  /** A disposition meets the rules of this project's model exactly when the record written for
      it passes the schema, and exactly when the constructor returns it. */
  lemma ValidIsWritten(n: Naming, d: Disposition)
    requires Sensible(n) && NoRepeats(d.linkIds) && StartsWith(d.growth, GROWTH_PREFIX)
    requires d.canonical.Some? ==> StartsWith(d.canonical.value, ENTRY_PREFIX)
    ensures ValidDisposition(d) <==> SchemaAccepts(Written(n, d))
    ensures ValidDisposition(d) <==> ConstructorAccepts(Written(n, d))
  {
    ValidAsWritten(n, d, Written(n, d));
    RulesAgree(Written(n, d));
  }
}
