/** Two separately written checkers of the Growth records: the Flow stage, which stops at the
    first error, and the aggregator, which collects errors; and when they agree. */
module Reconciliation {
  import opened Bytes
  import opened Candidates

  // ---- What each checker accepts -----------------------------------------------------

  /** A cited link exists, belongs to the same candidate and to a known entry. */
  predicate GoodCitation(d: Disposition, links: set<Link>, entries: set<EntryId>, l: Link)
  {
    l in links && l.growth == d.growth && l.entry in entries
  }

  /** The association of a disposition agrees with the links it cites. */
  predicate GoodShape(d: Disposition, entries: set<EntryId>)
  {
    match d.association
    case AssociationComplete | AssociationPartial =>
      && |d.linkIds| == 1 && d.canonical.Some? && d.canonical.value in entries
      && d.linkIds[0].entry == d.canonical.value && StatusOf(d.linkIds[0].status) == d.association
    case Missing => d.linkIds == [] && d.canonical.None?
    case Ambiguous => d.canonical.None? && |d.linkIds| != 1
  }

  predicate GoodDisposition(d: Disposition, links: set<Link>, entries: set<EntryId>)
  {
    GoodShape(d, entries) && forall i | 0 <= i < |d.linkIds| :: GoodCitation(d, links, entries, d.linkIds[i])
  }

  predicate Cites(dispositions: seq<Disposition>, l: Link)
  {
    exists i | 0 <= i < |dispositions| :: l in dispositions[i].linkIds
  }

  /** One disposition for every candidate and none for anything else. */
  ghost predicate OnePerCandidate(dispositions: seq<Disposition>, candidates: set<GrowthId>)
  {
    && (forall i, j | 0 <= i < j < |dispositions| :: dispositions[i].growth != dispositions[j].growth)
    && (forall i | 0 <= i < |dispositions| :: dispositions[i].growth in candidates)
    && (forall g | g in candidates :: exists i :: 0 <= i < |dispositions| && dispositions[i].growth == g)
  }

  /** The link and disposition checks of the Flow stage. */
  ghost predicate FlowAccepts(
      candidates: set<GrowthId>, entries: set<EntryId>, links: seq<Link>, dispositions: seq<Disposition>)
  {
    && NoRepeats(links) && OnePerCandidate(dispositions, candidates)
    && (forall i | 0 <= i < |links| :: links[i].growth in candidates && Cites(dispositions, links[i]))
    && (forall i | 0 <= i < |dispositions| :: GoodDisposition(dispositions[i], Elements(links), entries))
  }

  /** A retained result has one eligible disposition with its canonical link. */
  predicate RetainedDisposition(d: Disposition)
  {
    && Eligible(d.status) && |d.linkIds| == 1 && d.canonical == Some(d.linkIds[0].entry)
    && StatusOf(d.linkIds[0].status) == d.association && d.linkIds[0].growth == d.growth
  }

  /** The Flow stage's conditions on the retained results: retained exactly when eligible. */
  ghost predicate RetainedAgree(retained: set<GrowthId>, dispositions: seq<Disposition>)
  {
    && (forall i | 0 <= i < |dispositions| && Eligible(dispositions[i].status) :: dispositions[i].growth in retained)
    && (forall g | g in retained :: exists i ::
        0 <= i < |dispositions| && dispositions[i].growth == g && RetainedDisposition(dispositions[i]))
  }

  function Count<T(==)>(s: seq<T>, x: T): nat
  {
    if s == [] then 0 else Count(s[..|s| - 1], x) + if s[|s| - 1] == x then 1 else 0
  }

  /** How often the dispositions cite a link. */
  function Citations(dispositions: seq<Disposition>, l: Link): nat
  {
    if dispositions == [] then 0 else
      Citations(dispositions[..|dispositions| - 1], l) + Count(dispositions[|dispositions| - 1].linkIds, l)
  }

  function Growths(dispositions: seq<Disposition>): seq<GrowthId>
  {
    seq(|dispositions|, i requires 0 <= i < |dispositions| => dispositions[i].growth)
  }

  /** The aggregator's bijection check. */
  ghost predicate Bijection(growthRows: seq<GrowthId>, dispositions: seq<Disposition>)
  {
    && Elements(growthRows) == Elements(Growths(dispositions))
    && (forall g | g in growthRows :: Count(growthRows, g) == 1)
    && (forall g | g in Growths(dispositions) :: Count(Growths(dispositions), g) == 1)
  }

  predicate OwnsCited(d: Disposition, links: set<Link>)
  {
    forall i | 0 <= i < |d.linkIds| :: d.linkIds[i] in links && d.linkIds[i].growth == d.growth
  }

  /** The aggregator finds no reconciliation error. */
  ghost predicate Reconciled(
      growths: set<GrowthId>, entries: set<EntryId>, links: seq<Link>, dispositions: seq<Disposition>)
  {
    && NoRepeats(links)
    && (forall i | 0 <= i < |links| :: links[i].growth in growths && links[i].entry in entries)
    && (forall i | 0 <= i < |dispositions| ::
        GoodShape(dispositions[i], entries) && OwnsCited(dispositions[i], Elements(links)))
    && (forall i | 0 <= i < |links| :: Citations(dispositions, links[i]) == 1)
  }

  ghost predicate AggregatorAccepts(
      growthRows: seq<GrowthId>, entries: set<EntryId>, links: seq<Link>, dispositions: seq<Disposition>)
  {
    Bijection(growthRows, dispositions) && Reconciled(Elements(growthRows), entries, links, dispositions)
  }

  // ---- Counting ----------------------------------------------------------------------

  lemma {:induction false} CountZero<T>(s: seq<T>, x: T)
    ensures Count(s, x) == 0 <==> x !in s
  {
    if s != [] {
      CountZero(s[..|s| - 1], x);
      assert s == s[..|s| - 1] + [s[|s| - 1]];
    }
  }

  lemma {:induction false} CountOnce<T>(s: seq<T>)
    requires NoRepeats(s)
    ensures forall x | x in s :: Count(s, x) == 1
  {
    if s != [] {
      var rest, y := s[..|s| - 1], s[|s| - 1];
      CountOnce(rest);
      CountZero(rest, y);
      assert s == rest + [y];
    }
  }

  lemma {:induction false} OnceNoRepeats<T>(s: seq<T>)
    requires forall x | x in s :: Count(s, x) == 1
    ensures NoRepeats(s)
  {
    if s != [] {
      var rest, y := s[..|s| - 1], s[|s| - 1];
      assert s == rest + [y];
      assert y in s && Count(s, y) == Count(rest, y) + 1;
      CountZero(rest, y);
      forall x | x in rest ensures Count(rest, x) == 1 {
        assert x in s && x != y;
        assert Count(s, x) == Count(rest, x) + 0;
      }
      OnceNoRepeats(rest);
      forall i, j | 0 <= i < j < |s| ensures s[i] != s[j] {
        assert s[i] == rest[i];
        if j < |rest| { assert s[j] == rest[j]; }
      }
    }
  }

  lemma {:induction false} CitedOnce(dispositions: seq<Disposition>, l: Link)
    requires forall i, j | 0 <= i < j < |dispositions| :: dispositions[i].growth != dispositions[j].growth
    requires forall i | 0 <= i < |dispositions| :: NoRepeats(dispositions[i].linkIds)
    requires forall i | 0 <= i < |dispositions| && l in dispositions[i].linkIds :: l.growth == dispositions[i].growth
    ensures Citations(dispositions, l) == if Cites(dispositions, l) then 1 else 0
  {
    if dispositions != [] {
      var rest, d := dispositions[..|dispositions| - 1], dispositions[|dispositions| - 1];
      CitedOnce(rest, l);
      CountZero(d.linkIds, l);
      CountOnce(d.linkIds);
      if Cites(rest, l) {
        var i :| 0 <= i < |rest| && l in rest[i].linkIds;
        assert l in dispositions[i].linkIds;
      }
    }
  }

  // ---- Agreement -----------------------------------------------------------------------

  lemma OnePerCandidateCounts(growthRows: seq<GrowthId>, dispositions: seq<Disposition>)
    requires NoRepeats(growthRows)
    ensures OnePerCandidate(dispositions, Elements(growthRows)) <==>
              Elements(growthRows) == Elements(Growths(dispositions))
              && (forall g | g in Growths(dispositions) :: Count(Growths(dispositions), g) == 1)
  {
    var gs := Growths(dispositions);
    if OnePerCandidate(dispositions, Elements(growthRows)) {
      assert NoRepeats(gs);
      CountOnce(gs);
      forall g ensures g in Elements(growthRows) <==> g in Elements(gs) {
        if g in Elements(growthRows) {
          var i :| 0 <= i < |dispositions| && dispositions[i].growth == g;
          assert gs[i] == g;
        }
      }
    }
    if Elements(growthRows) == Elements(gs) && forall g | g in gs :: Count(gs, g) == 1 {
      OnceNoRepeats(gs);
      forall i, j | 0 <= i < j < |dispositions| ensures dispositions[i].growth != dispositions[j].growth {
        assert gs[i] != gs[j];
      }
      forall i | 0 <= i < |dispositions| ensures dispositions[i].growth in Elements(growthRows) {
        assert gs[i] in Elements(gs);
      }
      forall g | g in Elements(growthRows) ensures exists i :: 0 <= i < |dispositions| && dispositions[i].growth == g {
        assert g in Elements(gs);
        var i :| 0 <= i < |gs| && gs[i] == g;
        assert dispositions[i].growth == g;
      }
    }
  }

  lemma FlowImpliesAggregator(
      growthRows: seq<GrowthId>, entries: set<EntryId>, links: seq<Link>, dispositions: seq<Disposition>)
    requires NoRepeats(growthRows) && forall i | 0 <= i < |dispositions| :: NoRepeats(dispositions[i].linkIds)
    requires FlowAccepts(Elements(growthRows), entries, links, dispositions)
    ensures AggregatorAccepts(growthRows, entries, links, dispositions)
  {
    CountOnce(growthRows);
    OnePerCandidateCounts(growthRows, dispositions);
    forall i | 0 <= i < |dispositions|
      ensures GoodShape(dispositions[i], entries) && OwnsCited(dispositions[i], Elements(links))
    {
      assert GoodDisposition(dispositions[i], Elements(links), entries);
    }
    forall k | 0 <= k < |links|
      ensures links[k].growth in Elements(growthRows) && links[k].entry in entries
          && Citations(dispositions, links[k]) == 1
    {
      CitedOnce(dispositions, links[k]);
      var i :| 0 <= i < |dispositions| && links[k] in dispositions[i].linkIds;
      assert GoodDisposition(dispositions[i], Elements(links), entries);
    }
  }

  lemma AggregatorImpliesFlow(
      growthRows: seq<GrowthId>, entries: set<EntryId>, links: seq<Link>, dispositions: seq<Disposition>)
    requires NoRepeats(growthRows) && AggregatorAccepts(growthRows, entries, links, dispositions)
    ensures FlowAccepts(Elements(growthRows), entries, links, dispositions)
  {
    OnePerCandidateCounts(growthRows, dispositions);
    forall k | 0 <= k < |links| ensures links[k].growth in Elements(growthRows) && Cites(dispositions, links[k]) {
      CitedSomewhere(dispositions, links[k]);
    }
    forall i | 0 <= i < |dispositions| ensures GoodDisposition(dispositions[i], Elements(links), entries) {
      forall j | 0 <= j < |dispositions[i].linkIds|
        ensures GoodCitation(dispositions[i], Elements(links), entries, dispositions[i].linkIds[j])
      {
        assert OwnsCited(dispositions[i], Elements(links));
      }
    }
  }

  lemma {:induction false} CitedSomewhere(dispositions: seq<Disposition>, l: Link)
    requires Citations(dispositions, l) > 0
    ensures Cites(dispositions, l)
  {
    var rest, d := dispositions[..|dispositions| - 1], dispositions[|dispositions| - 1];
    CountZero(d.linkIds, l);
    if l !in d.linkIds {
      CitedSomewhere(rest, l);
      var i :| 0 <= i < |rest| && l in rest[i].linkIds;
      assert l in dispositions[i].linkIds;
    }
  }

  /** Each disposition contributes its own citations. */
  lemma {:induction false} CountWithin(dispositions: seq<Disposition>, k: nat, l: Link)
    requires k < |dispositions|
    ensures Count(dispositions[k].linkIds, l) <= Citations(dispositions, l)
  {
    if k < |dispositions| - 1 {
      CountWithin(dispositions[..|dispositions| - 1], k, l);
    }
  }

  /** The aggregator rejects a disposition that lists a link twice. */
  lemma AggregatorCountsOnce(
      growthRows: seq<GrowthId>, entries: set<EntryId>, links: seq<Link>, dispositions: seq<Disposition>, k: nat)
    requires AggregatorAccepts(growthRows, entries, links, dispositions) && k < |dispositions|
    ensures NoRepeats(dispositions[k].linkIds)
  {
    var ids := dispositions[k].linkIds;
    assert OwnsCited(dispositions[k], Elements(links));
    forall l | l in ids ensures Count(ids, l) == 1 {
      var j :| 0 <= j < |ids| && ids[j] == l;
      var i :| 0 <= i < |links| && links[i] == ids[j];
      assert Citations(dispositions, links[i]) == 1;
      CountWithin(dispositions, k, l);
      CountZero(ids, l);
    }
    OnceNoRepeats(ids);
  }

  /** On any records with distinct candidates the aggregator accepts exactly what the Flow stage
      accepts with no link listed twice by one disposition. */
  lemma AggregatorExactly(
      growthRows: seq<GrowthId>, entries: set<EntryId>, links: seq<Link>, dispositions: seq<Disposition>)
    requires NoRepeats(growthRows)
    ensures AggregatorAccepts(growthRows, entries, links, dispositions) <==>
            && FlowAccepts(Elements(growthRows), entries, links, dispositions)
            && forall k | 0 <= k < |dispositions| :: NoRepeats(dispositions[k].linkIds)
  {
    if AggregatorAccepts(growthRows, entries, links, dispositions) {
      AggregatorImpliesFlow(growthRows, entries, links, dispositions);
      forall k | 0 <= k < |dispositions| ensures NoRepeats(dispositions[k].linkIds) {
        AggregatorCountsOnce(growthRows, entries, links, dispositions, k);
      }
    } else if FlowAccepts(Elements(growthRows), entries, links, dispositions)
           && forall k | 0 <= k < |dispositions| :: NoRepeats(dispositions[k].linkIds) {
      FlowImpliesAggregator(growthRows, entries, links, dispositions);
    }
  }

  /** The record constructor demands distinct links, so on valid records the two agree. */
  lemma CheckersAgree(
      growthRows: seq<GrowthId>, entries: set<EntryId>, links: seq<Link>, dispositions: seq<Disposition>)
    requires NoRepeats(growthRows) && forall i | 0 <= i < |dispositions| :: ValidDisposition(dispositions[i])
    ensures FlowAccepts(Elements(growthRows), entries, links, dispositions) <==>
            AggregatorAccepts(growthRows, entries, links, dispositions)
  {
    AggregatorExactly(growthRows, entries, links, dispositions);
  }

  /** What acceptance says of one disposition: a complete or partial association cites one link
      of its own, to its canonical known entry and of that status; a missing one cites none, an
      ambiguous one several or none, and neither has a canonical entry. */
  lemma AcceptedDisposition(
      candidates: set<GrowthId>, entries: set<EntryId>, links: seq<Link>, dispositions: seq<Disposition>, i: nat)
    requires FlowAccepts(candidates, entries, links, dispositions) && i < |dispositions|
    ensures var d := dispositions[i];
            && d.growth in candidates
            && (forall l | l in d.linkIds :: l in links && l.growth == d.growth && l.entry in entries)
            && match d.association
               case AssociationComplete =>
                 |d.linkIds| == 1 && d.linkIds[0].status.Complete? && d.canonical == Some(d.linkIds[0].entry)
               case AssociationPartial =>
                 |d.linkIds| == 1 && d.linkIds[0].status.Partial? && d.canonical == Some(d.linkIds[0].entry)
               case Missing => d.linkIds == [] && d.canonical.None?
               case Ambiguous => |d.linkIds| != 1 && d.canonical.None?
  {
    var d := dispositions[i];
    assert GoodDisposition(d, Elements(links), entries);
    forall l | l in d.linkIds ensures l in links && l.growth == d.growth && l.entry in entries {
      var k :| 0 <= k < |d.linkIds| && d.linkIds[k] == l;
      assert GoodCitation(d, Elements(links), entries, d.linkIds[k]);
    }
  }

  /** And of one link: exactly one disposition cites it, the one of its own candidate. */
  lemma AcceptedLink(
      candidates: set<GrowthId>, entries: set<EntryId>, links: seq<Link>, dispositions: seq<Disposition>, l: Link)
    returns (i: nat)
    requires FlowAccepts(candidates, entries, links, dispositions) && l in links
    ensures i < |dispositions| && dispositions[i].growth == l.growth && l in dispositions[i].linkIds
    ensures forall j | 0 <= j < |dispositions| && j != i ::
              l !in dispositions[j].linkIds && dispositions[j].growth != l.growth
  {
    var k :| 0 <= k < |links| && links[k] == l;
    assert Cites(dispositions, links[k]);
    i :| 0 <= i < |dispositions| && l in dispositions[i].linkIds;
    AcceptedDisposition(candidates, entries, links, dispositions, i);
    forall j: nat | j < |dispositions| && j != i
      ensures l !in dispositions[j].linkIds && dispositions[j].growth != l.growth
    {
      AcceptedDisposition(candidates, entries, links, dispositions, j);
    }
  }

  // ---- The Flow stage ------------------------------------------------------------------

  lemma OneEach(dispositions: seq<Disposition>, candidates: set<GrowthId>)
    ensures OnePerCandidate(dispositions, candidates) <==>
            NoRepeats(Growths(dispositions)) && Elements(Growths(dispositions)) == candidates
  {
    var gs := Growths(dispositions);
    if OnePerCandidate(dispositions, candidates) {
      forall g ensures g in Elements(gs) <==> g in candidates {
        if g in candidates {
          var i :| 0 <= i < |dispositions| && dispositions[i].growth == g;
          assert gs[i] == g;
        }
      }
    }
    if NoRepeats(gs) && Elements(gs) == candidates {
      forall i, j | 0 <= i < j < |dispositions| ensures dispositions[i].growth != dispositions[j].growth {
        assert gs[i] != gs[j];
      }
      forall i | 0 <= i < |dispositions| ensures dispositions[i].growth in candidates { assert gs[i] in Elements(gs); }
      forall g | g in candidates ensures exists i :: 0 <= i < |dispositions| && dispositions[i].growth == g {
        assert g in Elements(gs);
        var i :| 0 <= i < |gs| && gs[i] == g;
        assert dispositions[i].growth == g;
      }
    }
  }

  /** The checks on one disposition, link by link, then its association. */
  method CheckDisposition(d: Disposition, links: set<Link>, entries: set<EntryId>) returns (ok: bool)
    ensures ok <==> GoodDisposition(d, links, entries)
  {
    for i := 0 to |d.linkIds|
      invariant forall j | 0 <= j < i :: GoodCitation(d, links, entries, d.linkIds[j])
    {
      var l := d.linkIds[i];
      if l !in links || l.growth != d.growth { return false; }
      if l.entry !in entries { return false; }
    }
    match d.association
    case AssociationComplete | AssociationPartial =>
      ok := !(|d.linkIds| != 1 || d.canonical.None? || d.canonical.value !in entries
              || d.linkIds[0].entry != d.canonical.value || StatusOf(d.linkIds[0].status) != d.association);
    case Missing => ok := !(d.linkIds != [] || d.canonical.Some?);
    case Ambiguous => ok := !(d.canonical.Some? || |d.linkIds| == 1);
  }

  /** The duplicate and domain checks; the dispositions by candidate. */
  method CheckDomain(candidates: set<GrowthId>, links: seq<Link>, dispositions: seq<Disposition>)
    returns (ok: bool, linksById: set<Link>, byGrowth: map<GrowthId, Disposition>)
    ensures linksById == Elements(links)
    ensures ok <==> NoRepeats(links) && OnePerCandidate(dispositions, candidates)
    ensures ok ==> forall i | 0 <= i < |dispositions| ::
        dispositions[i].growth in byGrowth && byGrowth[dispositions[i].growth] == dispositions[i]
    ensures ok ==> byGrowth.Keys == candidates
  {
    linksById, byGrowth := {}, map[];
    for i := 0 to |links|
      invariant linksById == Elements(links[..i])
    {
      ElementsNext(links, i);
      linksById := linksById + {links[i]};
    }
    assert links[..|links|] == links;
    var gs := Growths(dispositions);
    for i := 0 to |dispositions|
      invariant byGrowth.Keys == Elements(gs[..i])
      invariant NoRepeats(gs) ==> forall k | 0 <= k < i :: gs[k] in byGrowth && byGrowth[gs[k]] == dispositions[k]
    {
      ElementsNext(gs, i);
      byGrowth := byGrowth[dispositions[i].growth := dispositions[i]];
    }
    assert gs[..|gs|] == gs;
    DistinctSize(links);
    DistinctSize(gs);
    OneEach(dispositions, candidates);
    ok := |linksById| == |links| && |byGrowth.Keys| == |dispositions| && byGrowth.Keys == candidates;
    if ok {
      forall i | 0 <= i < |dispositions|
        ensures dispositions[i].growth in byGrowth
            && byGrowth[dispositions[i].growth] == dispositions[i] { assert gs[i] in byGrowth; }
    }
  }
}
