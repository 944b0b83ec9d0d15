/** `_candidate_association` as it runs: it walks lists of rows and entries, collects links,
    drops repeated ones, and branches. */
module AssociationStage {
  import opened Bytes
  import opened Candidates
  import opened Association

  // ---- Collecting links ------------------------------------------------------------------

  /** The links of one association row, entry by entry. */
  function RowLinks(h: Helpers, entries: seq<Entry>, c: Candidate, a: Row, flows: set<Row>): seq<Link>
  {
    if entries == [] then [] else
      var e := entries[|entries| - 1];
      RowLinks(h, entries[..|entries| - 1], c, a, flows) +
          (if Applies(h, e, c, a) then [LinkOf(h, e, c, a, flows)] else [])
  }

  function AllLinks(h: Helpers, entries: seq<Entry>, c: Candidate, rows: seq<Row>, flows: set<Row>): seq<Link>
  {
    if rows == [] then [] else
      AllLinks(h, entries, c, rows[..|rows| - 1], flows) + RowLinks(h, entries, c, rows[|rows| - 1], flows)
  }

  lemma {:induction false} RowLinksHas(h: Helpers, entries: seq<Entry>, c: Candidate, a: Row, flows: set<Row>, l: Link)
    ensures l in RowLinks(h, entries, c, a, flows) <==>
        exists e | e in Elements(entries) :: Applies(h, e, c, a) && l == LinkOf(h, e, c, a, flows)
  {
    if entries != [] {
      var rest, e := entries[..|entries| - 1], entries[|entries| - 1];
      ElementsNext(entries, |rest|);
      assert entries[..|entries|] == entries;
      RowLinksHas(h, rest, c, a, flows, l);
    }
  }

  lemma {:induction false} AllLinksHas(
      h: Helpers, entries: seq<Entry>, c: Candidate, rows: seq<Row>, flows: set<Row>, l: Link)
    ensures l in AllLinks(h, entries, c, rows, flows) <==>
        l in LinkedSet(h, Elements(entries), c, Elements(rows), flows)
  {
    if rows != [] {
      var rest, a := rows[..|rows| - 1], rows[|rows| - 1];
      ElementsNext(rows, |rest|);
      assert rows[..|rows|] == rows;
      AllLinksHas(h, entries, c, rest, flows, l);
      RowLinksHas(h, entries, c, a, flows, l);
    }
  }

  /** The two nested loops over rows and entries; None is the error of a link without reason. */
  method CollectLinks(h: Helpers, entries: seq<Entry>, c: Candidate, rows: seq<Row>, flows: set<Row>)
    returns (linked: Option<seq<Link>>)
    ensures linked.None? <==> BlankRow(h, Elements(entries), c, Elements(rows))
    ensures linked.Some? ==> linked.value == AllLinks(h, entries, c, rows, flows)
  {
    var all: seq<Link> := [];
    for i := 0 to |rows|
      invariant all == AllLinks(h, entries, c, rows[..i], flows)
      invariant forall k, e | 0 <= k < i && e in Elements(entries) && Applies(h, e, c, rows[k]) ::
          rows[k].note != Note("")
    {
      assert rows[..i + 1][..i] == rows[..i];
      var some := CollectRow(h, entries, c, rows[i], flows);
      if some.None? { return None; }
      all := all + some.value;
    }
    assert rows[..|rows|] == rows;
    linked := Some(all);
  }

  method CollectRow(h: Helpers, entries: seq<Entry>, c: Candidate, a: Row, flows: set<Row>)
    returns (linked: Option<seq<Link>>)
    ensures linked.None? <==> exists e | e in Elements(entries) :: Applies(h, e, c, a) && a.note == Note("")
    ensures linked.Some? ==> linked.value == RowLinks(h, entries, c, a, flows)
  {
    var all: seq<Link> := [];
    for j := 0 to |entries|
      invariant all == RowLinks(h, entries[..j], c, a, flows)
      invariant forall k | 0 <= k < j && Applies(h, entries[k], c, a) :: a.note != Note("")
    {
      assert entries[..j + 1][..j] == entries[..j];
      var e := entries[j];
      if Applies(h, e, c, a) {
        assert e in Elements(entries);
        if a.note == Note("") { return None; }
        all := all + [LinkOf(h, e, c, a, flows)];
      }
    }
    assert entries[..|entries|] == entries;
    linked := Some(all);
  }

  /** Drops repeated links, keeping the first of each. */
  method Distinct(linked: seq<Link>) returns (links: seq<Link>)
    ensures NoRepeats(links) && Elements(links) == Elements(linked)
  {
    links := [];
    for i := 0 to |linked|
      invariant NoRepeats(links) && Elements(links) == Elements(linked[..i])
    {
      ElementsNext(linked, i);
      if linked[i] !in links {
        ElementsAppend(links, linked[i]);
        links := links + [linked[i]];
      } else {
        assert linked[i] in Elements(links);
      }
    }
    assert linked[..|linked|] == linked;
  }

  // ---- The canonical entry ---------------------------------------------------------------

  /** `_canonical_entry` on a list, which may repeat entries. */
  method CanonicalEntry(matches: seq<Entry>, c: Candidate) returns (r: Option<Entry>)
    requires matches != []
    ensures IsCanonical(Elements(matches), c, r)
  {
    var names := set d | d in c.demands :: d.name;
    var narrowed := matches;
    if names != {} {
      var demanded := Demanded(matches, names);
      assert demanded != [] ==> demanded[0] in Elements(demanded);
      if demanded != [] { narrowed := demanded; }
    }
    assert Elements(narrowed) == Narrowed(Elements(matches), c);
    if SameSemantics(Elements(narrowed)) {
      var e := Least(narrowed, true);
      r := Some(e);
    } else if SameRegistration(Elements(narrowed)) {
      var e := Least(narrowed, false);
      r := Some(e);
    } else {
      r := None;
    }
  }

  method Demanded(matches: seq<Entry>, names: set<string>) returns (demanded: seq<Entry>)
    ensures Elements(demanded) == set e | e in Elements(matches) && names * InputNames(e) != {} :: e
  {
    demanded := [];
    for i := 0 to |matches|
      invariant Elements(demanded) == set e | e in Elements(matches[..i]) && names * InputNames(e) != {} :: e
    {
      ElementsNext(matches, i);
      if names * InputNames(matches[i]) != {} {
        ElementsAppend(demanded, matches[i]);
        demanded := demanded + [matches[i]];
      }
    }
    assert matches[..|matches|] == matches;
  }

  // ---- The branches ----------------------------------------------------------------------

  /** The entries by identifier. */
  ghost predicate Indexes(byId: map<EntryId, Entry>, entries: set<Entry>)
  {
    && (forall e | e in entries :: e.id in byId && byId[e.id] == e)
    && (forall i | i in byId :: byId[i] in entries && byId[i].id == i)
  }

  method EntriesOfLinks(links: seq<Link>, byId: map<EntryId, Entry>, ghost entries: set<Entry>)
    returns (list: seq<Entry>)
    requires Indexes(byId, entries) && forall l | l in Elements(links) :: l.entry in byId
    ensures |list| == |links| && Elements(list) == EntriesOf(Elements(links), entries)
  {
    list := [];
    for i := 0 to |links|
      invariant |list| == i && Elements(list) == EntriesOf(Elements(links[..i]), entries)
    {
      assert links[i] in Elements(links);
      ElementsNext(links, i);
      ElementsAppend(list, byId[links[i].entry]);
      assert EntriesOf(Elements(links[..i + 1]), entries) == EntriesOf(Elements(links[..i]), entries) +
          {byId[links[i].entry]};
      list := list + [byId[links[i].entry]];
    }
    assert links[..|links|] == links;
  }

  method BasesOf(h: Helpers, links: seq<Link>, byId: map<EntryId, Entry>, ghost entries: set<Entry>)
    returns (bases: seq<Link>)
    requires Indexes(byId, entries) && NoRepeats(links) && forall l | l in Elements(links) :: l.entry in byId
    ensures NoRepeats(bases) && Elements(bases) == BaseLinks(h, Elements(links), entries)
  {
    bases := [];
    for i := 0 to |links|
      invariant NoRepeats(bases) && Elements(bases) == BaseLinks(h, Elements(links[..i]), entries)
      invariant forall b | b in bases :: b in links[..i]
    {
      assert links[i] in Elements(links);
      ElementsNext(links, i);
      assert links[i] !in bases;
      assert links[..i + 1] == links[..i] + [links[i]];
      if byId[links[i].entry].pattern == h.basePattern {
        ElementsAppend(bases, links[i]);
        assert BaseLinks(h, Elements(links[..i + 1]), entries) == BaseLinks(h, Elements(links[..i]), entries) +
            {links[i]};
        bases := bases + [links[i]];
      } else {
        assert BaseLinks(h, Elements(links[..i + 1]), entries) == BaseLinks(h, Elements(links[..i]), entries);
      }
    }
    assert links[..|links|] == links;
  }

  method ReasonsOf(links: seq<Link>) returns (reasons: set<Code>)
    ensures reasons == AllReasons(Elements(links))
  {
    reasons := {};
    for i := 0 to |links|
      invariant reasons == AllReasons(Elements(links[..i]))
    {
      ElementsNext(links, i);
      assert AllReasons(Elements(links[..i + 1])) == AllReasons(Elements(links[..i])) + links[i].reasons;
      reasons := reasons + links[i].reasons;
    }
    assert links[..|links|] == links;
  }

  /** The returned links, each once. */
  ghost predicate Lists(list: seq<Link>, o: Outcome)
  {
    NoRepeats(list) && (o.Associated? ==> Elements(list) == o.links)
  }

  /** Several links, all aliases of one installed handler: one canonical link. */
  method Canonicalize(
      h: Helpers, c: Candidate, links: seq<Link>, linked: seq<Entry>, byId: map<EntryId, Entry>,
      ghost entries: set<Entry>)
    returns (o: Outcome, list: seq<Link>)
    requires Indexes(byId, entries) && NoRepeats(links) && links != []
        && forall l | l in Elements(links) :: l.entry in byId
    requires |linked| == |links| && Elements(linked) == EntriesOf(Elements(links), entries)
        && Aliases(Elements(links), entries)
    ensures FromLinks(h, entries, c, Elements(links), o) && Lists(list, o)
  {
    var bases := BasesOf(h, links, byId, entries);
    DistinctSize(bases);
    if |bases| == 1 {
      var b := bases[0];
      assert b in Elements(bases);
      o := Canonicalized(c, b.entry, b.status, b.reasons + {HandlerBaseCanonicalized});
      list := [Link(c.growth, b.entry, b.status, {c.growth, b.entry}, b.reasons + {HandlerBaseCanonicalized})];
      ElementsOne(list[0]);
    } else {
      var r := CanonicalEntry(linked, c);
      assert links[0] in Elements(links);
      if r.None? {
        o, list := Raised, [];
      } else {
        var reasons := ReasonsOf(links);
        reasons := {DuplicateRegistrationCanonicalized} + reasons;
        o := Canonicalized(c, r.value.id, links[0].status, reasons);
        list := [Link(c.growth, r.value.id, links[0].status, {c.growth, r.value.id}, reasons)];
        ElementsOne(list[0]);
      }
    }
  }

  /** The outcome when association rows link the candidate. */
  method AssociateLinks(
      h: Helpers, c: Candidate, links: seq<Link>, byId: map<EntryId, Entry>, ghost entries: set<Entry>)
    returns (o: Outcome, list: seq<Link>)
    requires Indexes(byId, entries) && NoRepeats(links) && links != []
        && forall l | l in Elements(links) :: l.entry in byId
    ensures FromLinks(h, entries, c, Elements(links), o) && Lists(list, o)
  {
    DistinctSize(links);
    var linked := EntriesOfLinks(links, byId, entries);
    if |links| > 1 && SameSite(Elements(linked)) && SameStatus(Elements(links)) {
      o, list := Canonicalize(h, c, links, linked, byId, entries);
    } else if |links| > 64 {
      o, list := Associated({}, Ambiguous, {FanoutPartitionAmbiguous}), [];
    } else {
      var reasons := ReasonsOf(links);
      assert links[0] in Elements(links);
      list := links;
      var association := if |links| == 1 then StatusOf(links[0].status) else Ambiguous;
      o := Associated(Elements(links), association, {AssociationQueryEvidence} + reasons);
    }
  }

  /** Same-file entries at or before the candidate, and the last line among them. */
  method SourceOrderOf(entries: seq<Entry>, c: Candidate) returns (matches: seq<Entry>)
    ensures Elements(matches) == SourceOrder(Elements(entries), c)
  {
    matches := [];
    for i := 0 to |entries|
      invariant Elements(matches) == SourceOrder(Elements(entries[..i]), c)
    {
      ElementsNext(entries, i);
      var e := entries[i];
      if e.handler.file == c.file && e.handler.line <= c.line {
        ElementsAppend(matches, e);
        matches := matches + [e];
      }
    }
    assert entries[..|entries|] == entries;
  }

  method NearestOf(matches: seq<Entry>) returns (nearest: seq<Entry>)
    requires matches != []
    ensures nearest != [] && Elements(nearest) == Nearest(Elements(matches))
  {
    var line := matches[0].handler.line;
    ghost var last := matches[0];
    for i := 1 to |matches|
      invariant last in Elements(matches) && last.handler.line == line
      invariant forall k | 0 <= k < i :: matches[k].handler.line <= line
    {
      assert matches[i] in Elements(matches);
      if matches[i].handler.line > line { line, last := matches[i].handler.line, matches[i]; }
    }
    nearest := [];
    for i := 0 to |matches|
      invariant Elements(nearest) == set e | e in Elements(matches[..i]) && e.handler.line == line :: e
    {
      ElementsNext(matches, i);
      if matches[i].handler.line == line {
        ElementsAppend(nearest, matches[i]);
        nearest := nearest + [matches[i]];
      }
    }
    assert matches[..|matches|] == matches;
    assert last in Elements(nearest);
    assert Elements(nearest) == Nearest(Elements(matches));
  }

  /** The one entry source order suggests, or an ambiguity. */
  method Anchor(matches: seq<Entry>, c: Candidate) returns (r: Option<Entry>)
    requires matches != []
    ensures IsCanonical(
        if SameSemantics(Elements(matches)) then Elements(matches) else Nearest(Elements(matches)), c, r)
  {
    var anchors := matches;
    if !SameSemantics(Elements(matches)) { anchors := NearestOf(matches); }
    r := CanonicalEntry(anchors, c);
  }

  /** The outcome from source order alone. */
  method AssociateBySource(h: Helpers, entries: seq<Entry>, c: Candidate, flows: set<Row>)
    returns (o: Outcome, list: seq<Link>)
    ensures FromSourceOrder(h, Elements(entries), c, flows, o) && Lists(list, o)
  {
    var matches := SourceOrderOf(entries, c);
    if matches == [] {
      assert Elements(matches) == {};
      return Associated({}, Missing, {EntryCoverageUnproven}), [];
    }
    assert matches[0] in Elements(matches);
    var r := Anchor(matches, c);
    if r.None? {
      o, list := Associated({}, Ambiguous, {FanoutPartitionAmbiguous}), [];
    } else {
      o, list := PartialLink(h, r.value, c, flows), [SourceOrderLink(h, r.value, c, flows)];
      ElementsOne(list[0]);
    }
  }

  /** The association of one candidate. Lists that hold the same rows and entries, in any
      order and however often, give the same outcome: it is the one their sets determine. */
  method CandidateAssociation(h: Helpers, entries: seq<Entry>, c: Candidate, rows: seq<Row>, flows: seq<Row>)
    returns (o: Outcome, list: seq<Link>)
    requires UniqueIds(Elements(entries))
    ensures IsOutcome(h, Elements(entries), c, Elements(rows), Elements(flows), o) && Lists(list, o)
  {
    var flowSet := Elements(flows);
    var collected := CollectLinks(h, entries, c, rows, flowSet);
    if collected.None? { return Raised, []; }
    var linked := collected.value;
    ghost var expected := LinkedSet(h, Elements(entries), c, Elements(rows), flowSet);
    forall l ensures l in Elements(linked) <==> l in expected { AllLinksHas(h, entries, c, rows, flowSet, l); }
    assert Elements(linked) == expected;
    if linked == [] {
      assert expected == {};
      o, list := AssociateBySource(h, entries, c, flowSet);
    } else {
      assert linked[0] in Elements(linked);
      var links := Distinct(linked);
      var byId := map e | e in Elements(entries) :: e.id := e;
      o, list := AssociateLinks(h, c, links, byId, Elements(entries));
    }
  }
}
