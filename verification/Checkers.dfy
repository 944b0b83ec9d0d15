/** The checkers as they run: the Flow stage raises at the first error; the aggregator
    collects every error it finds. */
module Checkers {
  import opened Bytes
  import opened Candidates
  import opened Reconciliation

  // ---- The Flow stage ------------------------------------------------------------------

  lemma AllCited(dispositions: seq<Disposition>, links: seq<Link>, cited: set<Link>)
    requires forall l :: l in cited <==> Cites(dispositions, l)
    requires cited <= Elements(links)
    ensures cited == Elements(links) <==> forall i | 0 <= i < |links| :: Cites(dispositions, links[i])
  {
    if forall i | 0 <= i < |links| :: Cites(dispositions, links[i]) {
      forall l | l in Elements(links) ensures l in cited {
        var i :| 0 <= i < |links| && links[i] == l;
      }
    }
    if cited == Elements(links) {
      forall i | 0 <= i < |links| ensures Cites(dispositions, links[i]) { assert links[i] in Elements(links); }
    }
  }

  lemma CitesNext(dispositions: seq<Disposition>, i: nat, l: Link)
    requires i < |dispositions|
    ensures Cites(dispositions[..i + 1], l) <==> Cites(dispositions[..i], l) || l in dispositions[i].linkIds
  {
    var next := dispositions[..i + 1];
    assert next[i] == dispositions[i];
    if Cites(dispositions[..i], l) {
      var k :| 0 <= k < i && l in dispositions[..i][k].linkIds;
      assert l in next[k].linkIds;
    }
    if Cites(next, l) {
      var k :| 0 <= k < i + 1 && l in next[k].linkIds;
      if k < i { assert l in dispositions[..i][k].linkIds; }
    }
  }

  /** Every disposition in turn: its links, its shape, and its retained result if eligible. */
  method CheckDispositions(
      dispositions: seq<Disposition>, links: set<Link>, entries: set<EntryId>, retained: set<GrowthId>)
    returns (ok: bool, cited: set<Link>)
    ensures ok <==> forall i | 0 <= i < |dispositions| ::
                      GoodDisposition(dispositions[i], links, entries)
                      && (Eligible(dispositions[i].status) ==> dispositions[i].growth in retained)
    ensures ok ==> (forall l :: l in cited <==> Cites(dispositions, l)) && cited <= links
  {
    ok, cited := true, {};
    for i := 0 to |dispositions|
      invariant forall k | 0 <= k < i ::
                  GoodDisposition(dispositions[k], links, entries)
                  && (Eligible(dispositions[k].status) ==> dispositions[k].growth in retained)
      invariant (forall l :: l in cited <==> Cites(dispositions[..i], l)) && cited <= links
    {
      var d := dispositions[i];
      ok := CheckDisposition(d, links, entries);
      if !ok { return; }
      if Eligible(d.status) && d.growth !in retained { return false, cited; }
      cited := cited + set k | 0 <= k < |d.linkIds| :: d.linkIds[k];
      forall l ensures l in cited <==> Cites(dispositions[..i + 1], l) { CitesNext(dispositions, i, l); }
      ok := true;
    }
    assert dispositions[..|dispositions|] == dispositions;
  }

  /** The canonical entry of every retained result. */
  method CanonicalEntries(retained: seq<GrowthId>, byGrowth: map<GrowthId, Disposition>)
    returns (r: Option<map<GrowthId, EntryId>>)
    requires forall g | g in byGrowth :: byGrowth[g].growth == g
    ensures r.Some? <==> forall g | g in Elements(retained) :: g in byGrowth && RetainedDisposition(byGrowth[g])
    ensures r.Some? ==> r.value.Keys == Elements(retained)
    ensures r.Some? ==> forall g | g in r.value :: g in byGrowth && byGrowth[g].canonical == Some(r.value[g])
  {
    var canonical: map<GrowthId, EntryId> := map[];
    for i := 0 to |retained|
      invariant canonical.Keys == Elements(retained[..i])
      invariant forall g | g in canonical ::
          && g in byGrowth && RetainedDisposition(byGrowth[g])
          && byGrowth[g].canonical == Some(canonical[g])
    {
      var g := retained[i];
      ElementsNext(retained, i);
      assert g in Elements(retained);
      if g !in byGrowth { return None; }
      var d := byGrowth[g];
      if !Eligible(d.status) || |d.linkIds| != 1 { return None; }
      var l := d.linkIds[0];
      if l.growth != g || d.canonical != Some(l.entry) || StatusOf(l.status) != d.association { return None; }
      canonical := canonical[g := l.entry];
    }
    assert retained[..|retained|] == retained;
    r := Some(canonical);
  }

  lemma RetainedByGrowth(retained: set<GrowthId>, dispositions: seq<Disposition>, byGrowth: map<GrowthId, Disposition>)
    requires forall i | 0 <= i < |dispositions| ::
        dispositions[i].growth in byGrowth && byGrowth[dispositions[i].growth] == dispositions[i]
    requires forall g | g in byGrowth :: exists i :: 0 <= i < |dispositions| && dispositions[i].growth == g
    ensures (forall g | g in retained :: g in byGrowth && RetainedDisposition(byGrowth[g])) <==>
            (forall g | g in retained :: exists i ::
                0 <= i < |dispositions| && dispositions[i].growth == g && RetainedDisposition(dispositions[i]))
  {
    if forall g | g in retained :: g in byGrowth && RetainedDisposition(byGrowth[g]) {
      forall g | g in retained
        ensures exists i ::
            0 <= i < |dispositions| && dispositions[i].growth == g && RetainedDisposition(dispositions[i])
      {
        var i :| 0 <= i < |dispositions| && dispositions[i].growth == g;
        assert RetainedDisposition(dispositions[i]);
      }
    }
  }

  /** `_canonical_flow_entry_ids`: it returns exactly when the records reconcile and the
      retained results are the eligible ones, each mapped to its canonical entry. */
  method CanonicalFlowEntryIds(
      candidates: set<GrowthId>, retained: seq<GrowthId>, entries: set<EntryId>, links: seq<Link>,
      dispositions: seq<Disposition>)
    returns (r: Option<map<GrowthId, EntryId>>)
    ensures r.Some? <==>
        FlowAccepts(candidates, entries, links, dispositions) && RetainedAgree(Elements(retained), dispositions)
    ensures r.Some? ==> r.value.Keys == Elements(retained)
    ensures r.Some? ==> forall i | 0 <= i < |dispositions| && dispositions[i].growth in r.value ::
                          dispositions[i].canonical == Some(r.value[dispositions[i].growth])
  {
    var ok, linksById, byGrowth := CheckDomain(candidates, links, dispositions);
    if !ok { return None; }
    for i := 0 to |links|
      invariant forall k | 0 <= k < i :: links[k].growth in candidates
    {
      if links[i].growth !in candidates { return None; }
    }
    var cited;
    ok, cited := CheckDispositions(dispositions, linksById, entries, Elements(retained));
    if !ok { return None; }
    AllCited(dispositions, links, cited);
    if cited != linksById { return None; }
    assert FlowAccepts(candidates, entries, links, dispositions);
    RetainedByGrowth(Elements(retained), dispositions, byGrowth);
    forall g | g in byGrowth ensures byGrowth[g].growth == g {
      var i :| 0 <= i < |dispositions| && dispositions[i].growth == g;
    }
    r := CanonicalEntries(retained, byGrowth);
  }

  // ---- The aggregator --------------------------------------------------------------------

  /** The aggregator's messages. */
  datatype Finding =
    | LinkDuplicated | LinkGrowthMissing | LinkEntryMissing
    | CitationMissing | CitationForeign
    | CanonicalDisagrees | MissingOwnsLinks | AmbiguousHasCanonical
    | LinkMiscited

  function Get(counts: map<Link, nat>, l: Link): nat
  {
    if l in counts then counts[l] else 0
  }

  /** The links by identifier, with an error for each duplicate and each unknown reference. */
  method IndexLinks(growths: set<GrowthId>, entries: set<EntryId>, links: seq<Link>)
    returns (linksById: set<Link>, errors: seq<Finding>)
    ensures linksById == Elements(links)
    ensures errors == [] <==>
        NoRepeats(links) && forall i | 0 <= i < |links| :: links[i].growth in growths && links[i].entry in entries
  {
    linksById, errors := {}, [];
    for i := 0 to |links|
      invariant linksById == Elements(links[..i])
      invariant errors == [] <==>
          NoRepeats(links[..i]) && forall k | 0 <= k < i :: links[k].growth in growths && links[k].entry in entries
    {
      var l := links[i];
      ElementsNext(links, i);
      NoRepeatsNext(links, i);
      if l in linksById {
        errors := errors + [LinkDuplicated];
        continue;
      }
      linksById := linksById + {l};
      if l.growth !in growths {
        errors := errors + [LinkGrowthMissing];
      }
      if l.entry !in entries {
        errors := errors + [LinkEntryMissing];
      }
    }
    assert links[..|links|] == links;
  }

  lemma NoRepeatsNext<T>(s: seq<T>, i: nat)
    requires i < |s|
    ensures NoRepeats(s[..i + 1]) <==> NoRepeats(s[..i]) && s[i] !in Elements(s[..i])
  {
    var a, b := s[..i], s[..i + 1];
    assert b[i] == s[i] && forall k | 0 <= k < i :: b[k] == a[k];
    if NoRepeats(b) {
      forall j, k | 0 <= j < k < |a| ensures a[j] != a[k] { assert b[j] != b[k]; }
      assert s[i] !in Elements(a) by { assert forall k | 0 <= k < i :: b[k] != b[i]; }
    }
    if NoRepeats(a) && s[i] !in Elements(a) {
      forall j, k | 0 <= j < k < |b| ensures b[j] != b[k] {
        assert a[j] in Elements(a);
        if k < i { assert a[j] != a[k]; }
      }
    }
  }

  lemma CountNext<T>(s: seq<T>, i: nat, l: T)
    requires i < |s|
    ensures Count(s[..i + 1], l) == Count(s[..i], l) + if s[i] == l then 1 else 0
  {
    assert s[..i + 1][..i] == s[..i];
  }

  /** Counts the citations of one disposition and collects the links it owns. */
  method CiteLinks(d: Disposition, linksById: set<Link>, counts: map<Link, nat>)
    returns (errors: seq<Finding>, counts': map<Link, nat>, owned: seq<Link>)
    ensures errors == [] <==> OwnsCited(d, linksById)
    ensures errors == [] ==> owned == d.linkIds
    ensures forall l :: Get(counts', l) == Get(counts, l) + Count(d.linkIds, l)
  {
    errors, counts', owned := [], counts, [];
    for i := 0 to |d.linkIds|
      invariant errors == [] <==> forall k | 0 <= k < i :: d.linkIds[k] in linksById && d.linkIds[k].growth == d.growth
      invariant errors == [] ==> owned == d.linkIds[..i]
      invariant forall l :: Get(counts', l) == Get(counts, l) + Count(d.linkIds[..i], l)
    {
      var l := d.linkIds[i];
      forall x ensures Count(d.linkIds[..i + 1], x) == Count(d.linkIds[..i], x) + if l == x then 1 else 0 {
        CountNext(d.linkIds, i, x);
      }
      counts' := counts'[l := Get(counts', l) + 1];
      if l !in linksById {
        errors := errors + [CitationMissing];
        continue;
      }
      if l.growth != d.growth {
        errors := errors + [CitationForeign];
      }
      owned := owned + [l];
    }
    assert d.linkIds[..|d.linkIds|] == d.linkIds;
  }

  /** The citations and the errors of one disposition. */
  method ReconcileDisposition(d: Disposition, linksById: set<Link>, entries: set<EntryId>, counts: map<Link, nat>)
    returns (errors: seq<Finding>, counts': map<Link, nat>)
    ensures errors == [] <==> GoodShape(d, entries) && OwnsCited(d, linksById)
    ensures forall l :: Get(counts', l) == Get(counts, l) + Count(d.linkIds, l)
  {
    var owned;
    errors, counts', owned := CiteLinks(d, linksById, counts);
    match d.association
    case AssociationComplete | AssociationPartial =>
      if |d.linkIds| != 1 || |owned| != 1 || d.canonical.None? || d.canonical.value !in entries
         || owned[0].entry != d.canonical.value || StatusOf(owned[0].status) != d.association {
        errors := errors + [CanonicalDisagrees];
      }
    case Missing =>
      if d.linkIds != [] || d.canonical.Some? {
        errors := errors + [MissingOwnsLinks];
      }
    case Ambiguous =>
      if d.canonical.Some? || |d.linkIds| == 1 {
        errors := errors + [AmbiguousHasCanonical];
      }
  }

  /** `_candidate_link_reconciliation_errors`: empty exactly when the records reconcile. */
  method ReconciliationErrors(
      growths: set<GrowthId>, entries: set<EntryId>, links: seq<Link>, dispositions: seq<Disposition>)
    returns (errors: seq<Finding>)
    ensures errors == [] <==> Reconciled(growths, entries, links, dispositions)
  {
    var linksById, e := IndexLinks(growths, entries, links);
    errors := e;
    var counts: map<Link, nat> := map[];
    ghost var indexed := errors == [];
    for i := 0 to |dispositions|
      invariant errors == [] <==> indexed && forall k | 0 <= k < i ::
          GoodShape(dispositions[k], entries) && OwnsCited(dispositions[k], linksById)
      invariant forall l :: Get(counts, l) == Citations(dispositions[..i], l)
    {
      assert dispositions[..i + 1][..i] == dispositions[..i];
      e, counts := ReconcileDisposition(dispositions[i], linksById, entries, counts);
      errors := errors + e;
    }
    assert dispositions[..|dispositions|] == dispositions;
    var miscited := false;
    for i := 0 to |links|
      invariant !miscited <==> forall k | 0 <= k < i :: Citations(dispositions, links[k]) == 1
    {
      if Get(counts, links[i]) != 1 { miscited := true; }
    }
    if miscited {
      errors := errors + [LinkMiscited];
    }
  }

  /** How often each identifier occurs. */
  method Counter(s: seq<GrowthId>) returns (counts: map<GrowthId, nat>)
    ensures counts.Keys == Elements(s)
    ensures forall g | g in counts :: counts[g] == Count(s, g)
  {
    counts := map[];
    for i := 0 to |s|
      invariant counts.Keys == Elements(s[..i])
      invariant forall g | g in counts :: counts[g] == Count(s[..i], g)
    {
      ElementsNext(s, i);
      forall g ensures Count(s[..i + 1], g) == Count(s[..i], g) + if s[i] == g then 1 else 0 { CountNext(s, i, g); }
      CountZero(s[..i], s[i]);
      assert s[i] !in counts ==> s[i] !in s[..i];
      counts := counts[s[i] := (if s[i] in counts then counts[s[i]] else 0) + 1];
    }
    assert s[..|s|] == s;
  }

  /** The aggregator's verdict on the Growth records of one target. */
  method TargetReconciles(
      growthRows: seq<GrowthId>, entries: set<EntryId>, links: seq<Link>, dispositions: seq<Disposition>)
    returns (ok: bool)
    ensures ok <==> AggregatorAccepts(growthRows, entries, links, dispositions)
  {
    var raw := Counter(growthRows);
    var own := Counter(Growths(dispositions));
    var bijection := raw.Keys == own.Keys && (forall g | g in raw :: raw[g] == 1)
        && (forall g | g in own :: own[g] == 1);
    assert bijection <==> Bijection(growthRows, dispositions) by {
      assert forall g :: g in growthRows <==> g in Elements(growthRows);
      assert forall g :: g in Growths(dispositions) <==> g in Elements(Growths(dispositions));
    }
    var errors := ReconciliationErrors(Elements(growthRows), entries, links, dispositions);
    ok := bijection && errors == [];
  }
}
