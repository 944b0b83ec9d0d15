/** The gap supplement of the Flow stage and the admission check of the conclusion stage. */
module GapFlow {
  import opened Bytes
  import opened Candidates
  import opened Association
  import opened Reconciliation

  /** The endpoints of a flow. */
  datatype Pair = Pair(entry: EntryId, growth: GrowthId)

  function PairOf(l: Link): Pair
  {
    Pair(l.entry, l.growth)
  }

  /** A supplemental row and the pair its endpoints normalize to. */
  datatype GapRow = GapRow(pair: Pair, row: Row)

  /** The records reconcile: both checkers' rules, retained results included. */
  ghost predicate Reconciles(
      entries: set<EntryId>, retained: set<GrowthId>, links: seq<Link>, dispositions: seq<Disposition>)
  {
    && NoRepeats(links)
    && (forall i, j | 0 <= i < j < |dispositions| :: dispositions[i].growth != dispositions[j].growth)
    && (forall i | 0 <= i < |dispositions| ::
          ValidDisposition(dispositions[i]) && GoodDisposition(dispositions[i], Elements(links), entries))
    && (forall i | 0 <= i < |dispositions| && Eligible(dispositions[i].status) :: dispositions[i].growth in retained)
  }

  /** What both checkers accept reconciles. */
  lemma AcceptedReconciles(
      candidates: set<GrowthId>, entries: set<EntryId>, retained: set<GrowthId>, links: seq<Link>,
      dispositions: seq<Disposition>)
    requires FlowAccepts(candidates, entries, links, dispositions) && RetainedAgree(retained, dispositions)
    requires forall i | 0 <= i < |dispositions| :: ValidDisposition(dispositions[i])
    ensures Reconciles(entries, retained, links, dispositions)
  {
  }

  // ---- The supplement ----------------------------------------------------------------------

  /** A gap-eligible disposition with a partial link whose pair has no flow yet. */
  predicate NeedsGap(d: Disposition, existing: set<Pair>)
  {
    d.status.GapEligible? && |d.linkIds| == 1 && d.linkIds[0].status.Partial? && PairOf(d.linkIds[0]) !in existing
  }

  /** The demands a gap path can stand for. */
  function Demands(c: Candidate, allowed: set<string>): set<Demand>
  {
    set d | d in c.demands && d.role in allowed :: d
  }

  predicate Representable(e: Entry, c: Candidate, allowed: set<string>)
  {
    Demands(c, allowed) != {} && e.inputs != []
  }

  lemma RepresentableMeans(e: Entry, c: Candidate, allowed: set<string>)
    ensures Representable(e, c, allowed) <==> |e.inputs| > 0 && exists d :: d in c.demands && d.role in allowed
  {
    if d :| d in c.demands && d.role in allowed { assert d in Demands(c, allowed); }
  }

  /** A disposition that needs a gap row can have one. */
  predicate GapPossible(
      d: Disposition, entries: map<EntryId, Entry>, retained: map<GrowthId, Candidate>, existing: set<Pair>,
      allowed: set<string>)
  {
    NeedsGap(d, existing) ==>
      var l := d.linkIds[0];
      l.entry in entries && l.growth in retained && Representable(entries[l.entry], retained[l.growth], allowed)
  }

  ghost predicate AllRepresentable(
      entries: map<EntryId, Entry>, retained: map<GrowthId, Candidate>, dispositions: seq<Disposition>,
      existing: set<Pair>, allowed: set<string>)
  {
    forall i | 0 <= i < |dispositions| :: GapPossible(dispositions[i], entries, retained, existing, allowed)
  }

  /** The row carries the endpoints, one allowed demand and one input, and proves nothing. */
  predicate IsGapRow(g: GapRow, e: Entry, c: Candidate, allowed: set<string>)
  {
    && g.row.sourceFile == e.handler.file && g.row.sourceLine == e.handler.line
    && g.row.sinkFile == c.file && g.row.sinkLine == c.line && g.row.callPath == e.handler.callable
    && Demand(g.row.target, g.row.sink) in Demands(c, allowed) && g.row.source in InputNames(e)
    && g.row.kind.OtherFlow? && !g.row.proven && !g.row.complete
  }

  /** A gap row proves no link and supports none: it is never mistaken for a flow. */
  lemma GapRowProvesNothing(h: Helpers, g: GapRow, e: Entry, c: Candidate, allowed: set<string>, x: Entry, a: Row)
    requires IsGapRow(g, e, c, allowed)
    ensures g.row.target in allowed && Demand(g.row.target, g.row.sink) in c.demands
    ensures !Proves(x, g.row, a) && !RowMatches(h, c, a, {g.row}) && !Witnessed(h, x, c, a, {g.row})
    ensures forall flows :: RowMatches(h, c, a, flows + {g.row}) <==> RowMatches(h, c, a, flows)
  {
    forall flows ensures RowMatches(h, c, a, flows + {g.row}) <==> RowMatches(h, c, a, flows) {
      assert flows <= flows + {g.row};
    }
  }

  method MakeGapRow(e: Entry, c: Candidate, allowed: set<string>) returns (g: GapRow)
    requires Representable(e, c, allowed)
    ensures g.pair == Pair(e.id, c.growth) && IsGapRow(g, e, c, allowed)
  {
    var d: Demand :| d in Demands(c, allowed);
    var i: nat :| i < |e.inputs|;
    g := GapRow(Pair(e.id, c.growth), Row(
      e.handler.file, e.handler.line, c.file, c.line, d.role, d.name, e.handler.callable,
      "entry>candidate_relevant_partial>growth", e.inputs[i].name, OtherFlow, false, false,
          Note("candidate_relevant_partial_flow_gap")));
  }

  function Pairs(rows: seq<GapRow>): seq<Pair>
  {
    seq(|rows|, i requires 0 <= i < |rows| => rows[i].pair)
  }

  /** The pairs the first `n` dispositions need a gap row for. */
  ghost predicate GapPairs(pairs: set<Pair>, dispositions: seq<Disposition>, n: nat, existing: set<Pair>)
  {
    forall p :: p in pairs <==>
      exists i: nat :: i < n && i < |dispositions| && NeedsGap(dispositions[i], existing)
          && PairOf(dispositions[i].linkIds[0]) == p
  }

  lemma GapPairsNext(pairs: set<Pair>, dispositions: seq<Disposition>, n: nat, existing: set<Pair>)
    requires n < |dispositions| && GapPairs(pairs, dispositions, n, existing)
    ensures var d := dispositions[n];
            GapPairs(
              if NeedsGap(d, existing) then pairs + {PairOf(d.linkIds[0])} else pairs, dispositions, n + 1, existing)
  {
    var d := dispositions[n];
    var more := if NeedsGap(d, existing) then pairs + {PairOf(d.linkIds[0])} else pairs;
    forall p ensures p in more <==>
      exists i: nat :: i < n + 1 && i < |dispositions| && NeedsGap(dispositions[i], existing)
          && PairOf(dispositions[i].linkIds[0]) == p
    {
      if p in pairs {
        var i: nat :| i < n && i < |dispositions| && NeedsGap(dispositions[i], existing)
            && PairOf(dispositions[i].linkIds[0]) == p;
        assert i < n + 1;
      }
    }
  }

  /** A disposition in need of a flow for this pair: a gap with one partial link. */
  predicate GapOf(d: Disposition, p: Pair)
  {
    && d.status.GapEligible? && |d.linkIds| == 1 && d.linkIds[0].status.Partial?
    && d.linkIds[0].entry == p.entry && d.linkIds[0].growth == p.growth
  }

  lemma GapPairsMean(pairs: set<Pair>, dispositions: seq<Disposition>, existing: set<Pair>, p: Pair)
    requires GapPairs(pairs, dispositions, |dispositions|, existing)
    ensures p in pairs <==> p !in existing && exists i: nat :: i < |dispositions| && GapOf(dispositions[i], p)
  {
    if p in pairs {
      var i: nat :| i < |dispositions| && NeedsGap(dispositions[i], existing)
                 && PairOf(dispositions[i].linkIds[0]) == p;
      assert GapOf(dispositions[i], p);
    }
    if i: nat :| p !in existing && i < |dispositions| && GapOf(dispositions[i], p) {
      assert PairOf(dispositions[i].linkIds[0]) == p;
      assert NeedsGap(dispositions[i], existing);
    }
  }

  /** A retained result is for its own candidate, and an entry is under its own identifier. */
  ghost predicate Keyed(entries: map<EntryId, Entry>, retained: map<GrowthId, Candidate>)
  {
    (forall i | i in entries :: entries[i].id == i) && (forall g | g in retained :: retained[g].growth == g)
  }

  /** The rows so far: one for each pair, made from its entry and its candidate. */
  ghost predicate RowsFor(
      rows: seq<GapRow>, pairs: set<Pair>, entries: map<EntryId, Entry>, retained: map<GrowthId, Candidate>,
      allowed: set<string>)
  {
    && NoRepeats(Pairs(rows)) && Elements(Pairs(rows)) == pairs
    && forall k | 0 <= k < |rows| ::
         var p := rows[k].pair;
         p.entry in entries && p.growth in retained && IsGapRow(rows[k], entries[p.entry], retained[p.growth], allowed)
  }

  /** One disposition: no row, one row, or an error when the gap cannot be represented. */
  method GapStep(
      d: Disposition, entries: map<EntryId, Entry>, retained: map<GrowthId, Candidate>, rows: seq<GapRow>,
      emitted: set<Pair>, existing: set<Pair>, allowed: set<string>, ghost links: set<Link>)
    returns (ok: bool, rows': seq<GapRow>, emitted': set<Pair>)
    requires Keyed(entries, retained) && RowsFor(rows, emitted, entries, retained, allowed)
    requires ValidDisposition(d) && GoodDisposition(d, links, entries.Keys)
        && (Eligible(d.status) ==> d.growth in retained)
    requires NeedsGap(d, existing) ==> PairOf(d.linkIds[0]) !in emitted
    ensures ok <==> GapPossible(d, entries, retained, existing, allowed)
    ensures ok ==> emitted' == if NeedsGap(d, existing) then emitted + {PairOf(d.linkIds[0])} else emitted
    ensures ok ==> RowsFor(rows', emitted', entries, retained, allowed)
  {
    ok, rows', emitted' := true, rows, emitted;
    if !d.status.GapEligible? { return; }
    var l := d.linkIds[0];
    assert GoodCitation(d, links, entries.Keys, l);
    if PairOf(l) in existing || PairOf(l) in emitted || !l.status.Partial? { return; }
    var e, c := entries[l.entry], retained[l.growth];
    if Demands(c, allowed) == {} || e.inputs == [] { return false, rows, emitted; }
    var g := MakeGapRow(e, c, allowed);
    AppendPair(rows, g);
    rows', emitted' := rows + [g], emitted + {PairOf(l)};
  }

  /** `_candidate_relevant_partial_flow_rows`: on reconciled records it returns exactly when
      every gap is representable, and then with one row for every gap-eligible pair with a
      partial link and no flow, and with none for a complete link. */
  method CandidateRelevantPartialFlowRows(
      entries: map<EntryId, Entry>, retained: map<GrowthId, Candidate>, links: seq<Link>,
      dispositions: seq<Disposition>,
      existing: set<Pair>, allowed: set<string>) returns (r: Option<seq<GapRow>>, ghost gaps: set<Pair>)
    requires Keyed(entries, retained) && Reconciles(entries.Keys, retained.Keys, links, dispositions)
    ensures r.Some? <==> AllRepresentable(entries, retained, dispositions, existing, allowed)
    ensures r.Some? ==>
        RowsFor(r.value, gaps, entries, retained, allowed) && GapPairs(gaps, dispositions, |dispositions|, existing)
    ensures r.Some? ==> forall p :: p in Pairs(r.value) <==>
        p !in existing && exists i: nat :: i < |dispositions| && GapOf(dispositions[i], p)
  {
    var rows: seq<GapRow>, emitted: set<Pair> := [], {};
    for i := 0 to |dispositions|
      invariant AllRepresentable(entries, retained, dispositions[..i], existing, allowed)
      invariant GapPairs(emitted, dispositions, i, existing) && RowsFor(rows, emitted, entries, retained, allowed)
    {
      var d := dispositions[i];
      assert dispositions[..i + 1] == dispositions[..i] + [d];
      GapPairsNext(emitted, dispositions, i, existing);
      if NeedsGap(d, existing) { NotEmitted(emitted, dispositions, i, existing, Elements(links), entries.Keys); }
      var ok;
      ok, rows, emitted := GapStep(d, entries, retained, rows, emitted, existing, allowed, Elements(links));
      if !ok { return None, emitted; }
    }
    assert dispositions[..|dispositions|] == dispositions;
    r, gaps := Some(rows), emitted;
    forall p ensures p in Pairs(rows) <==>
        p !in existing && exists i: nat :: i < |dispositions| && GapOf(dispositions[i], p)
    {
      GapPairsMean(gaps, dispositions, existing, p);
      assert p in Pairs(rows) <==> p in Elements(Pairs(rows));
    }
  }

  lemma AppendPair(rows: seq<GapRow>, g: GapRow)
    ensures Elements(Pairs(rows + [g])) == Elements(Pairs(rows)) + {g.pair}
    ensures NoRepeats(Pairs(rows)) && g.pair !in Elements(Pairs(rows)) ==> NoRepeats(Pairs(rows + [g]))
  {
    assert Pairs(rows + [g]) == Pairs(rows) + [g.pair];
    ElementsAppend(Pairs(rows), g.pair);
    assert forall k | 0 <= k < |rows| :: Pairs(rows)[k] in Elements(Pairs(rows));
  }

  /** A disposition's sole pair is for its own candidate. */
  lemma OwnPair(d: Disposition, links: set<Link>, ids: set<EntryId>)
    requires GoodDisposition(d, links, ids) && |d.linkIds| == 1
    ensures PairOf(d.linkIds[0]).growth == d.growth
  {
    assert GoodCitation(d, links, ids, d.linkIds[0]);
  }

  /** The pair of a later disposition is never among those already emitted. */
  lemma NotEmitted(
      emitted: set<Pair>, dispositions: seq<Disposition>, i: nat, existing: set<Pair>, links: set<Link>,
      ids: set<EntryId>)
    requires i < |dispositions| && GapPairs(emitted, dispositions, i, existing)
    requires forall j, k | 0 <= j < k < |dispositions| :: dispositions[j].growth != dispositions[k].growth
    requires forall j | 0 <= j < |dispositions| :: GoodDisposition(dispositions[j], links, ids)
    requires |dispositions[i].linkIds| == 1
    ensures PairOf(dispositions[i].linkIds[0]) !in emitted
  {
    OwnPair(dispositions[i], links, ids);
    forall j: nat | j < i && NeedsGap(dispositions[j], existing)
      ensures PairOf(dispositions[j].linkIds[0]) != PairOf(dispositions[i].linkIds[0])
    {
      OwnPair(dispositions[j], links, ids);
    }
  }

  // ---- The conclusion stage ----------------------------------------------------------------

  /** An eligible disposition may conclude: its links exist, are its own, and have a flow. */
  predicate Admissible(d: Disposition, links: set<Link>, flows: set<Pair>)
  {
    d.linkIds != [] && forall k | 0 <= k < |d.linkIds| ::
      d.linkIds[k] in links && d.linkIds[k].growth == d.growth && PairOf(d.linkIds[k]) in flows
  }

  /** Admits the pairs of one eligible disposition; a pair admitted before under another
      status is an error. */
  method AdmitDisposition(d: Disposition, links: set<Link>, flows: set<Pair>, statuses: map<Pair, DispositionStatus>)
    returns (ok: bool, statuses': map<Pair, DispositionStatus>)
    ensures ok ==> Admissible(d, links, flows)
    ensures !ok ==> !Admissible(d, links, flows) || exists k | 0 <= k < |d.linkIds| ::
                      PairOf(d.linkIds[k]) in statuses && statuses[PairOf(d.linkIds[k])] != d.status
    ensures ok && |d.linkIds| == 1 ==> statuses' == statuses[PairOf(d.linkIds[0]) := d.status]
  {
    statuses' := statuses;
    if d.linkIds == [] { return false, statuses'; }
    for k := 0 to |d.linkIds|
      invariant forall j | 0 <= j < k ::
          && d.linkIds[j] in links && d.linkIds[j].growth == d.growth
          && PairOf(d.linkIds[j]) in flows
    {
      var l := d.linkIds[k];
      if l !in links || l.growth != d.growth || PairOf(l) !in flows { return false, statuses'; }
    }
    for k := 0 to |d.linkIds|
      invariant |d.linkIds| == 1 ==> statuses' == if k == 0 then statuses
          else statuses[PairOf(d.linkIds[0]) := d.status]
      invariant forall p | p in statuses' :: statuses'[p] == d.status || (p in statuses && statuses'[p] == statuses[p])
    {
      var p := PairOf(d.linkIds[k]);
      if p in statuses' && statuses'[p] != d.status { return false, statuses'; }
      statuses' := statuses'[p := d.status];
    }
    ok := true;
  }

  /** An eligible disposition among the first `n` cites this pair. */
  ghost predicate EligibleAt(dispositions: seq<Disposition>, n: nat, i: nat, p: Pair)
  {
    i < n && i < |dispositions| && Eligible(dispositions[i].status) && |dispositions[i].linkIds| == 1
    && PairOf(dispositions[i].linkIds[0]) == p
  }

  /** The statuses are those of the eligible dispositions among the first `n`, by pair. */
  ghost predicate Concluded(statuses: map<Pair, DispositionStatus>, dispositions: seq<Disposition>, n: nat)
  {
    && (forall p | p in statuses :: exists i: nat :: EligibleAt(dispositions, n, i, p))
    && (forall i: nat, p | EligibleAt(dispositions, n, i, p) :: p in statuses && statuses[p] == dispositions[i].status)
  }

  lemma ConcludedNext(
      statuses: map<Pair, DispositionStatus>, dispositions: seq<Disposition>, n: nat, links: set<Link>,
      ids: set<EntryId>)
    requires n < |dispositions| && Concluded(statuses, dispositions, n)
    requires forall j, k | 0 <= j < k < |dispositions| :: dispositions[j].growth != dispositions[k].growth
    requires forall j | 0 <= j < |dispositions| :: GoodDisposition(dispositions[j], links, ids)
    requires Eligible(dispositions[n].status) ==> |dispositions[n].linkIds| == 1
    ensures var d := dispositions[n];
            Concluded(
              if Eligible(d.status) then statuses[PairOf(d.linkIds[0]) := d.status] else statuses, dispositions, n + 1)
    ensures Eligible(dispositions[n].status) ==> PairOf(dispositions[n].linkIds[0]) !in statuses
  {
    var d := dispositions[n];
    if Eligible(d.status) {
      OwnPair(d, links, ids);
      forall i: nat, p | EligibleAt(dispositions, n, i, p) ensures p != PairOf(d.linkIds[0]) {
        OwnPair(dispositions[i], links, ids);
      }
      assert EligibleAt(dispositions, n + 1, n, PairOf(d.linkIds[0]));
    }
    var m := n + 1;
    forall p | p in statuses ensures exists i: nat :: EligibleAt(dispositions, m, i, p) {
      var i: nat :| EligibleAt(dispositions, n, i, p);
      assert EligibleAt(dispositions, m, i, p);
    }
    forall i: nat, p | EligibleAt(dispositions, n + 1, i, p) && i < n
        ensures p in statuses && statuses[p] == dispositions[i].status {
      assert EligibleAt(dispositions, n, i, p);
    }
  }

  /** Every eligible disposition's link has a flow. */
  ghost predicate AllFlow(dispositions: seq<Disposition>, flows: set<Pair>)
  {
    forall i | 0 <= i < |dispositions| && Eligible(dispositions[i].status) && |dispositions[i].linkIds| == 1 ::
      PairOf(dispositions[i].linkIds[0]) in flows
  }

  /** `_eligible_conclusion_pairs` on reconciled records: it returns exactly when every
      eligible disposition's link has a flow, with the pairs and their statuses. */
  method EligibleConclusionPairs(
      ghost entries: set<EntryId>, ghost retained: set<GrowthId>, links: seq<Link>, dispositions: seq<Disposition>,
      flows: set<Pair>)
    returns (r: Option<map<Pair, DispositionStatus>>)
    requires Reconciles(entries, retained, links, dispositions)
    ensures r.Some? <==> AllFlow(dispositions, flows)
    ensures r.Some? ==> Concluded(r.value, dispositions, |dispositions|)
  {
    var statuses: map<Pair, DispositionStatus> := map[];
    for i := 0 to |dispositions|
      invariant AllFlow(dispositions[..i], flows) && Concluded(statuses, dispositions, i)
    {
      var d := dispositions[i];
      assert dispositions[..i + 1] == dispositions[..i] + [d];
      assert GoodDisposition(d, Elements(links), entries) && ValidDisposition(d);
      ConcludedNext(statuses, dispositions, i, Elements(links), entries);
      if Eligible(d.status) {
        var ok;
        ok, statuses := AdmitDisposition(d, Elements(links), flows, statuses);
        if !ok {
          assert PairOf(d.linkIds[0]) !in flows by { assert GoodCitation(d, Elements(links), entries, d.linkIds[0]); }
          return None;
        }
      }
    }
    assert dispositions[..|dispositions|] == dispositions;
    r := Some(statuses);
  }

  // ---- Together ----------------------------------------------------------------------------

  /** Every eligible complete link has a formal flow. */
  ghost predicate CompleteFlow(dispositions: seq<Disposition>, existing: set<Pair>)
  {
    forall i | 0 <= i < |dispositions| && Eligible(dispositions[i].status) && |dispositions[i].linkIds| == 1
               && dispositions[i].linkIds[0].status.Complete? ::
      PairOf(dispositions[i].linkIds[0]) in existing
  }

  /** With one proof for each gap row, the conclusion check fails exactly when some eligible
      complete link has no formal flow: a gap is always carried, a lost proof never hidden. */
  lemma OnlyLostProofsFail(
      entries: set<EntryId>, retained: set<GrowthId>, links: seq<Link>, dispositions: seq<Disposition>,
      existing: set<Pair>, gaps: set<Pair>)
    requires Reconciles(entries, retained, links, dispositions)
        && GapPairs(gaps, dispositions, |dispositions|, existing)
    ensures AllFlow(dispositions, existing + gaps) <==> CompleteFlow(dispositions, existing)
  {
    forall i | 0 <= i < |dispositions| && Eligible(dispositions[i].status) && |dispositions[i].linkIds| == 1
      ensures dispositions[i].linkIds[0].status.Partial? ==> PairOf(dispositions[i].linkIds[0]) in existing + gaps
      ensures dispositions[i].linkIds[0].status.Complete? ==> PairOf(dispositions[i].linkIds[0]) !in gaps
    {
      var d := dispositions[i];
      assert ValidDisposition(d) && GoodDisposition(d, Elements(links), entries);
      OwnPair(d, Elements(links), entries);
      forall j: nat | j < |dispositions| && NeedsGap(dispositions[j], existing) && j != i
        ensures PairOf(dispositions[j].linkIds[0]) != PairOf(d.linkIds[0])
      {
        OwnPair(dispositions[j], Elements(links), entries);
      }
      if d.linkIds[0].status.Partial? && PairOf(d.linkIds[0]) !in existing { assert NeedsGap(d, existing); }
    }
  }

  /** The two stages in sequence, the normalizer giving one proof per gap row: the conclusion
      is admitted exactly when no eligible complete link lost its formal flow. */
  method SupplementThenConclude(
      entries: map<EntryId, Entry>, retained: map<GrowthId, Candidate>, links: seq<Link>,
      dispositions: seq<Disposition>, existing: set<Pair>, allowed: set<string>)
    returns (rows: Option<seq<GapRow>>, admitted: Option<map<Pair, DispositionStatus>>)
    requires Keyed(entries, retained) && Reconciles(entries.Keys, retained.Keys, links, dispositions)
    ensures rows.Some? <==> AllRepresentable(entries, retained, dispositions, existing, allowed)
    ensures rows.Some? ==> (admitted.Some? <==> CompleteFlow(dispositions, existing))
    ensures admitted.Some? ==> Concluded(admitted.value, dispositions, |dispositions|)
  {
    ghost var gaps;
    rows, gaps := CandidateRelevantPartialFlowRows(entries, retained, links, dispositions, existing, allowed);
    admitted := None;
    if rows.Some? {
      OnlyLostProofsFail(entries.Keys, retained.Keys, links, dispositions, existing, gaps);
      admitted := EligibleConclusionPairs(entries.Keys, retained.Keys, links, dispositions,
          existing + Elements(Pairs(rows.value)));
    }
  }
}
