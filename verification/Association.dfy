/** Associating a growth candidate with entries: what the result means, as a function of the
    sets of rows and entries, so that order and repetition cannot matter. */
module Association {
  import opened Bytes
  import opened Candidates
  import T = Text

  datatype Site = Site(callable: string, file: string, line: int)
  datatype Registration = Registration(kind: string, callable: string, file: string, line: int)
  datatype Input = Input(name: string, dataType: string, kind: string)

  datatype Entry = Entry(
    id: EntryId, framework: string, protocol: string, handler: Site, registration: Registration, pattern: string,
    route: string, auth: string, inputs: seq<Input>, phase: string)

  datatype Demand = Demand(role: string, name: string)

  datatype Candidate = Candidate(
    growth: GrowthId, file: string, line: int, complete: bool, evidence: set<FactId>, demands: set<Demand>)

  datatype FlowKind = DataFlow | LocalDataFlow | OtherFlow

  /** A query row, of the association or of the flow family. `note` is the coverage note, read
      as the reason code it spells. */
  datatype Row = Row(
    sourceFile: string, sourceLine: int, sinkFile: string, sinkLine: int, target: string, sink: string,
    callPath: string, phaseSequence: string, source: string, kind: FlowKind, proven: bool, complete: bool, note: Code)

  /** Called code: whether an expression binds a demand, the route a row's call path carries,
      and the coverage pattern of a Netty base registration. */
  datatype Helpers = Helpers(binds: (string, string) -> bool, route: Row -> Option<string>, basePattern: string)

  // ---- Keys and the least entry --------------------------------------------------------

  /** Everything about an entry but its identifier and its registration. */
  function SemanticKey(e: Entry): Entry
  {
    e.(id := "", registration := Registration("", "", "", 0))
  }

  function RegistrationKey(e: Entry): (Registration, string)
  {
    (e.registration, e.pattern)
  }

  /** One installed handler, route aliases and patterns aside. */
  function SiteKey(e: Entry): Entry
  {
    e.(id := "", route := "", pattern := "")
  }

  predicate SameSemantics(s: set<Entry>)
  {
    forall a, b | a in s && b in s :: SemanticKey(a) == SemanticKey(b)
  }

  predicate SameRegistration(s: set<Entry>)
  {
    forall a, b | a in s && b in s :: RegistrationKey(a) == RegistrationKey(b)
  }

  predicate SameSite(s: set<Entry>)
  {
    forall a, b | a in s && b in s :: SiteKey(a) == SiteKey(b)
  }

  ghost predicate UniqueIds(s: set<Entry>)
  {
    forall a, b | a in s && b in s && a.id == b.id :: a == b
  }

  datatype Part = Number(n: int) | Text(s: string)

  predicate PartLeq(a: Part, b: Part)
  {
    if a.Number? then b.Number? ==> a.n <= b.n else b.Text? && T.Leq(a.s, b.s)
  }

  /** Tuples compare part by part. */
  predicate KeyLeq(a: seq<Part>, b: seq<Part>)
  {
    a == [] || (b != [] && if a[0] == b[0] then KeyLeq(a[1..], b[1..]) else PartLeq(a[0], b[0]))
  }

  lemma {:induction false} KeyTotal(a: seq<Part>, b: seq<Part>)
    ensures KeyLeq(a, b) || KeyLeq(b, a)
  {
    if a != [] && b != [] {
      if a[0] == b[0] { KeyTotal(a[1..], b[1..]); }
      else if a[0].Text? && b[0].Text? { T.LeqTotal(a[0].s, b[0].s); }
    }
  }

  lemma {:induction false} KeyAntisymmetric(a: seq<Part>, b: seq<Part>)
    requires KeyLeq(a, b) && KeyLeq(b, a)
    ensures a == b
  {
    if a != [] {
      if a[0] == b[0] {
        KeyAntisymmetric(a[1..], b[1..]);
        assert a == [a[0]] + a[1..] && b == [b[0]] + b[1..];
      } else if a[0].Text? {
        T.LeqAntisymmetric(a[0].s, b[0].s);
      }
    }
  }

  lemma {:induction false} KeyTransitive(a: seq<Part>, b: seq<Part>, c: seq<Part>)
    requires KeyLeq(a, b) && KeyLeq(b, c)
    ensures KeyLeq(a, c)
  {
    if a != [] {
      if a[0] == b[0] == c[0] {
        KeyTransitive(a[1..], b[1..], c[1..]);
      } else if a[0] != b[0] && b[0] != c[0] && a[0].Text? {
        T.LeqTransitive(a[0].s, b[0].s, c[0].s);
        if a[0] == c[0] { T.LeqAntisymmetric(a[0].s, b[0].s); }
      }
    }
  }

  /** The sort key: the registration first when `registered`, the identifier last. */
  function Key(e: Entry, registered: bool): seq<Part>
  {
    if registered then
      [Text(e.registration.kind), Text(e.registration.callable), Text(e.registration.file), Number(e.registration.line),
       Text(e.pattern), Text(e.id)]
    else [Text(e.id)]
  }

  predicate IsLeast(e: Entry, s: set<Entry>, registered: bool)
  {
    e in s && forall x | x in s :: KeyLeq(Key(e, registered), Key(x, registered))
  }

  lemma LeastUnique(a: Entry, b: Entry, s: set<Entry>, registered: bool)
    requires UniqueIds(s) && IsLeast(a, s, registered) && IsLeast(b, s, registered)
    ensures a == b
  {
    var ka, kb := Key(a, registered), Key(b, registered);
    KeyAntisymmetric(ka, kb);
    assert ka[|ka| - 1] == kb[|kb| - 1];
  }

  /** `min` over the entries of a list. */
  method Least(list: seq<Entry>, registered: bool) returns (e: Entry)
    requires list != []
    ensures IsLeast(e, Elements(list), registered)
  {
    e := list[0];
    KeyTotal(Key(e, registered), Key(e, registered));
    for i := 1 to |list|
      invariant e in list && forall k | 0 <= k < i :: KeyLeq(Key(e, registered), Key(list[k], registered))
    {
      var x := list[i];
      KeyTotal(Key(e, registered), Key(x, registered));
      KeyTotal(Key(x, registered), Key(x, registered));
      if !KeyLeq(Key(e, registered), Key(x, registered)) {
        forall k | 0 <= k < i ensures KeyLeq(Key(x, registered), Key(list[k], registered)) {
          KeyTransitive(Key(x, registered), Key(e, registered), Key(list[k], registered));
        }
        e := x;
      }
    }
  }

  // ---- Witnesses -----------------------------------------------------------------------

  function InputNames(e: Entry): set<string>
  {
    set i | 0 <= i < |e.inputs| :: e.inputs[i].name
  }

  /** The fields a flow row and an association row must share. */
  predicate SameFlow(r: Row, a: Row)
  {
    && r.sourceFile == a.sourceFile && r.sourceLine == a.sourceLine && r.sinkFile == a.sinkFile
    && r.sinkLine == a.sinkLine
    && r.target == a.target && r.sink == a.sink && r.callPath == a.callPath && r.phaseSequence == a.phaseSequence
  }

  predicate DemandBound(h: Helpers, c: Candidate, a: Row)
  {
    exists d | d in c.demands :: d.role == a.target && h.binds(d.name, a.sink)
  }

  /** A data flow row supports the association, whatever its confidence. */
  predicate RowMatches(h: Helpers, c: Candidate, a: Row, flows: set<Row>)
  {
    DemandBound(h, c, a) && exists r | r in flows :: SameFlow(r, a) && !r.kind.OtherFlow?
  }

  /** The flow row is a formal proof for this entry. */
  predicate Proves(e: Entry, r: Row, a: Row)
  {
    SameFlow(r, a) && r.source in InputNames(e) && !r.kind.OtherFlow? && r.proven && r.complete
  }

  predicate Witnessed(h: Helpers, e: Entry, c: Candidate, a: Row, flows: set<Row>)
  {
    RowMatches(h, c, a, flows) && exists r | r in flows :: Proves(e, r, a)
  }

  /** The association row is for this candidate and this entry. */
  predicate Applies(h: Helpers, e: Entry, c: Candidate, a: Row)
  {
    && a.sinkFile == c.file && a.sinkLine == c.line
    && a.sourceFile == e.handler.file && a.sourceLine == e.handler.line
    && (h.route(a).None? || e.route == h.route(a).value)
  }

  function LinkOf(h: Helpers, e: Entry, c: Candidate, a: Row, flows: set<Row>): Link
  {
    var claimed := a.complete && a.proven;
    var witnessed := Witnessed(h, e, c, a, flows);
    Link(c.growth, e.id, if claimed && witnessed then Complete else Partial, {c.growth, e.id},
         {a.note}
         + (if h.route(a).Some? then {RouteAliasMatched} else {})
         + (if !RowMatches(h, c, a, flows) then {FlowRowMissing}
             else if claimed && !witnessed then {FlowProofIncomplete} else {}))
  }

  /** Some row of the candidate's own site is a formal flow from this entry. */
  predicate HasFormalFlow(h: Helpers, e: Entry, c: Candidate, flows: set<Row>)
  {
    exists r | r in flows ::
      && r.sourceFile == e.handler.file && r.sourceLine == e.handler.line && r.sinkFile == c.file
      && r.sinkLine == c.line
      && r.source in InputNames(e) && Witnessed(h, e, c, r, {r})
  }

  // ---- The result, from the sets --------------------------------------------------------

  /** Every link some association row supports. */
  function LinkedSet(h: Helpers, entries: set<Entry>, c: Candidate, rows: set<Row>, flows: set<Row>): set<Link>
  {
    set e, a | e in entries && a in rows && Applies(h, e, c, a) :: LinkOf(h, e, c, a, flows)
  }

  /** An applicable row without a coverage note: no link can be created from it. */
  predicate BlankRow(h: Helpers, entries: set<Entry>, c: Candidate, rows: set<Row>)
  {
    exists e, a | e in entries && a in rows :: Applies(h, e, c, a) && a.note == Note("")
  }

  function AllReasons(links: set<Link>): set<Code>
  {
    set l, r | l in links && r in l.reasons :: r
  }

  function EntriesOf(links: set<Link>, entries: set<Entry>): set<Entry>
  {
    set e, l | e in entries && l in links && e.id == l.entry :: e
  }

  predicate SameStatus(links: set<Link>)
  {
    forall a, b | a in links && b in links :: a.status == b.status
  }

  /** Entries that take one of the demanded inputs, if any does. */
  function Narrowed(s: set<Entry>, c: Candidate): set<Entry>
  {
    var names := set d | d in c.demands :: d.name;
    var demanded := set e | e in s && names * InputNames(e) != {} :: e;
    if names != {} && demanded != {} then demanded else s
  }

  /** The one entry a set of aliases stands for; None is the ambiguity error. */
  ghost predicate IsCanonical(s: set<Entry>, c: Candidate, r: Option<Entry>)
  {
    var narrowed := Narrowed(s, c);
    if SameSemantics(narrowed) then r.Some? && IsLeast(r.value, narrowed, true)
    else if SameRegistration(narrowed) then r.Some? && IsLeast(r.value, narrowed, false)
    else r.None?
  }

  lemma CanonicalUnique(s: set<Entry>, c: Candidate, a: Option<Entry>, b: Option<Entry>)
    requires UniqueIds(s) && IsCanonical(s, c, a) && IsCanonical(s, c, b)
    ensures a == b
  {
    var narrowed := Narrowed(s, c);
    assert UniqueIds(narrowed) by { assert narrowed <= s; }
    if SameSemantics(narrowed) { LeastUnique(a.value, b.value, narrowed, true); }
    else if SameRegistration(narrowed) { LeastUnique(a.value, b.value, narrowed, false); }
  }

  /** What an association returns: the links, and what the disposition records; or it raises. */
  datatype Outcome = Raised | Associated(links: set<Link>, association: AssociationStatus, reasons: set<Code>)

  /** Same-file entries that start at or before the candidate. */
  function SourceOrder(entries: set<Entry>, c: Candidate): set<Entry>
  {
    set e | e in entries && e.handler.file == c.file && e.handler.line <= c.line
  }

  function Nearest(s: set<Entry>): set<Entry>
  {
    set e | e in s && forall x | x in s :: x.handler.line <= e.handler.line
  }

  function BaseLinks(h: Helpers, links: set<Link>, entries: set<Entry>): set<Link>
  {
    set l, e | l in links && e in entries && e.id == l.entry && e.pattern == h.basePattern :: l
  }

  /** The aliases of one installed handler, all with the same status. */
  predicate Aliases(links: set<Link>, entries: set<Entry>)
  {
    |links| > 1 && SameSite(EntriesOf(links, entries)) && SameStatus(links)
  }

  function Canonicalized(c: Candidate, entry: EntryId, status: LinkStatus, reasons: set<Code>): Outcome
  {
    Associated({Link(c.growth, entry, status, {c.growth, entry}, reasons)}, StatusOf(status),
        {AssociationQueryEvidence} + reasons)
  }

  /** The outcome when association rows link the candidate. */
  ghost predicate FromLinks(h: Helpers, entries: set<Entry>, c: Candidate, links: set<Link>, o: Outcome)
  {
    if Aliases(links, entries) then
      var bases := BaseLinks(h, links, entries);
      if |bases| == 1 then
        exists b | b in bases :: o == Canonicalized(c, b.entry, b.status, b.reasons + {HandlerBaseCanonicalized})
      else
        exists r: Option<Entry>, l | IsCanonical(EntriesOf(links, entries), c, r) && l in links ::
          o == if r.None? then Raised
               else Canonicalized(c, r.value.id, l.status, {DuplicateRegistrationCanonicalized} + AllReasons(links))
    else if |links| > 64 then
      o == Associated({}, Ambiguous, {FanoutPartitionAmbiguous})
    else
      && o.Associated? && o.links == links && o.reasons == {AssociationQueryEvidence} + AllReasons(links)
      && (if |links| == 1 then exists l | l in links :: o.association == StatusOf(l.status)
          else o.association == Ambiguous)
  }

  function MissingFlow(h: Helpers, e: Entry, c: Candidate, flows: set<Row>): set<Code>
  {
    if HasFormalFlow(h, e, c, flows) then {} else {FlowRowMissing}
  }

  function SourceOrderLink(h: Helpers, e: Entry, c: Candidate, flows: set<Row>): Link
  {
    Link(c.growth, e.id, Partial, {c.growth, e.id}, {LegacySourceOrderPartial} + MissingFlow(h, e, c, flows))
  }

  function PartialLink(h: Helpers, e: Entry, c: Candidate, flows: set<Row>): Outcome
  {
    Associated({SourceOrderLink(h, e, c, flows)}, AssociationPartial,
        {CallGraphUnavailable} + MissingFlow(h, e, c, flows))
  }

  /** The outcome from source order alone: at most one partial link. */
  ghost predicate FromSourceOrder(h: Helpers, entries: set<Entry>, c: Candidate, flows: set<Row>, o: Outcome)
  {
    var matches := SourceOrder(entries, c);
    if matches == {} then
      o == Associated({}, Missing, {EntryCoverageUnproven})
    else
      var anchors := if SameSemantics(matches) then matches else Nearest(matches);
      exists r: Option<Entry> | IsCanonical(anchors, c, r) ::
        o == if r.None? then Associated({}, Ambiguous, {FanoutPartitionAmbiguous})
            else PartialLink(h, r.value, c, flows)
  }

  /** The outcome of `_candidate_association` in terms of sets of entries and rows. */
  ghost predicate IsOutcome(h: Helpers, entries: set<Entry>, c: Candidate, rows: set<Row>, flows: set<Row>, o: Outcome)
  {
    var links := LinkedSet(h, entries, c, rows, flows);
    if BlankRow(h, entries, c, rows) then o == Raised
    else if links != {} then FromLinks(h, entries, c, links, o)
    else FromSourceOrder(h, entries, c, flows, o)
  }

  /** The sets determine the outcome. */
  lemma OutcomeUnique(
      h: Helpers, entries: set<Entry>, c: Candidate, rows: set<Row>, flows: set<Row>, a: Outcome, b: Outcome)
    requires UniqueIds(entries) && IsOutcome(h, entries, c, rows, flows, a) && IsOutcome(h, entries, c, rows, flows, b)
    ensures a == b
  {
    var links := LinkedSet(h, entries, c, rows, flows);
    if !BlankRow(h, entries, c, rows) {
      if links != {} { LinksOutcomeUnique(h, entries, c, links, a, b); }
      else { SourceOutcomeUnique(h, entries, c, flows, a, b); }
    }
  }

  lemma Singleton<T>(s: set<T>, x: T, y: T)
    requires |s| == 1 && x in s && y in s
    ensures x == y
  {
    assert |s - {x}| == 0;
  }

  lemma LinksOutcomeUnique(h: Helpers, entries: set<Entry>, c: Candidate, links: set<Link>, a: Outcome, b: Outcome)
    requires UniqueIds(entries) && links != {} && FromLinks(h, entries, c, links, a)
        && FromLinks(h, entries, c, links, b)
    ensures a == b
  {
    if Aliases(links, entries) {
      var bases := BaseLinks(h, links, entries);
      if |bases| == 1 {
        var x :| x in bases && a == Canonicalized(c, x.entry, x.status, x.reasons + {HandlerBaseCanonicalized});
        var y :| y in bases && b == Canonicalized(c, y.entry, y.status, y.reasons + {HandlerBaseCanonicalized});
        Singleton(bases, x, y);
      } else {
        var es := EntriesOf(links, entries);
        var r: Option<Entry>, l :| IsCanonical(es, c, r) && l in links &&
          a == if r.None? then Raised else Canonicalized(c, r.value.id, l.status,
              {DuplicateRegistrationCanonicalized} + AllReasons(links));
        var r': Option<Entry>, l' :| IsCanonical(es, c, r') && l' in links &&
          b == if r'.None? then Raised else Canonicalized(c, r'.value.id, l'.status,
              {DuplicateRegistrationCanonicalized} + AllReasons(links));
        CanonicalUnique(es, c, r, r');
      }
    } else if |links| == 1 {
      var l :| l in links && a.association == StatusOf(l.status);
      var l' :| l' in links && b.association == StatusOf(l'.status);
      Singleton(links, l, l');
    }
  }

  lemma SourceOutcomeUnique(h: Helpers, entries: set<Entry>, c: Candidate, flows: set<Row>, a: Outcome, b: Outcome)
    requires UniqueIds(entries) && FromSourceOrder(h, entries, c, flows, a) && FromSourceOrder(h, entries, c, flows, b)
    ensures a == b
  {
    var matches := SourceOrder(entries, c);
    if matches != {} {
      var anchors := if SameSemantics(matches) then matches else Nearest(matches);
      assert UniqueIds(anchors) by { assert anchors <= entries; }
      var r: Option<Entry> :| IsCanonical(anchors, c, r) &&
        a == if r.None? then Associated({}, Ambiguous, {FanoutPartitionAmbiguous})
            else PartialLink(h, r.value, c, flows);
      var r': Option<Entry> :| IsCanonical(anchors, c, r') &&
        b == if r'.None? then Associated({}, Ambiguous, {FanoutPartitionAmbiguous})
            else PartialLink(h, r'.value, c, flows);
      CanonicalUnique(anchors, c, r, r');
    }
  }

  /** The one error besides a missing coverage note: aliases of one handler, none of them its
      base, that no rule reduces to one entry. */
  ghost predicate NoCanonical(h: Helpers, entries: set<Entry>, c: Candidate, links: set<Link>)
  {
    Aliases(links, entries) && |BaseLinks(h, links, entries)| != 1 && IsCanonical(EntriesOf(links, entries), c, None)
  }

  /** The rows and entries for which an association raises. */
  ghost predicate AssociationRaises(h: Helpers, entries: set<Entry>, c: Candidate, rows: set<Row>, flows: set<Row>)
  {
    BlankRow(h, entries, c, rows) || NoCanonical(h, entries, c, LinkedSet(h, entries, c, rows, flows))
  }

  lemma CanonicalNone(s: set<Entry>, c: Candidate, r: Option<Entry>)
    requires IsCanonical(s, c, r)
    ensures r.None? <==> IsCanonical(s, c, None)
  {
  }

  lemma AliasesRaise(h: Helpers, entries: set<Entry>, c: Candidate, links: set<Link>, o: Outcome)
    requires Aliases(links, entries) && FromLinks(h, entries, c, links, o)
    ensures o.Raised? <==> NoCanonical(h, entries, c, links)
  {
    if |BaseLinks(h, links, entries)| != 1 {
      var r: Option<Entry>, l :| IsCanonical(EntriesOf(links, entries), c, r) && l in links &&
        o == if r.None? then Raised
             else Canonicalized(c, r.value.id, l.status, {DuplicateRegistrationCanonicalized} + AllReasons(links));
      CanonicalNone(EntriesOf(links, entries), c, r);
    }
  }

  lemma SourceNeverRaises(h: Helpers, entries: set<Entry>, c: Candidate, flows: set<Row>, o: Outcome)
    requires FromSourceOrder(h, entries, c, flows, o)
    ensures o.Associated?
  {
  }

  /** When an association raises. */
  lemma RaisedExactlyWhen(h: Helpers, entries: set<Entry>, c: Candidate, rows: set<Row>, flows: set<Row>, o: Outcome)
    requires IsOutcome(h, entries, c, rows, flows, o)
    ensures o.Raised? <==> AssociationRaises(h, entries, c, rows, flows)
  {
    var links := LinkedSet(h, entries, c, rows, flows);
    if !BlankRow(h, entries, c, rows) {
      if links == {} {
        SourceNeverRaises(h, entries, c, flows, o);
      } else if Aliases(links, entries) {
        AliasesRaise(h, entries, c, links, o);
      }
    }
  }

  /** An association row and a flow row that prove a complete link. */
  predicate Proven(h: Helpers, e: Entry, c: Candidate, a: Row, f: Row)
  {
    Applies(h, e, c, a) && a.complete && a.proven && DemandBound(h, c, a) && Proves(e, f, a)
  }

  /** Every complete link, canonicalized or not, has for that same entry a proven and complete
      flow row that agrees with a complete association row. */
  lemma CompleteLinksAreProven(
      h: Helpers, entries: set<Entry>, c: Candidate, rows: set<Row>, flows: set<Row>, o: Outcome, l: Link)
    returns (e: Entry, a: Row, f: Row)
    requires UniqueIds(entries) && IsOutcome(h, entries, c, rows, flows, o)
    requires o.Associated? && l in o.links && l.status.Complete?
    ensures e in entries && e.id == l.entry && a in rows && f in flows && Proven(h, e, c, a, f)
  {
    var links := LinkedSet(h, entries, c, rows, flows);
    var source := SourceOf(h, entries, c, links, o, l);
    e, a :| e in entries && a in rows && Applies(h, e, c, a) && LinkOf(h, e, c, a, flows) == source;
    f :| f in flows && Proves(e, f, a);
  }

  /** The link a returned complete link came from: itself, or one with its entry and status. */
  lemma SourceOf(h: Helpers, entries: set<Entry>, c: Candidate, links: set<Link>, o: Outcome, l: Link)
    returns (source: Link)
    requires o.Associated? && l in o.links && l.status.Complete? && links != {} && FromLinks(h, entries, c, links, o)
    ensures source in links && source.entry == l.entry && source.status.Complete?
  {
    source := l;
    if Aliases(links, entries) {
      var bases := BaseLinks(h, links, entries);
      if |bases| == 1 {
        source :| source in bases && o == Canonicalized(c, source.entry, source.status,
            source.reasons + {HandlerBaseCanonicalized});
      } else {
        var es := EntriesOf(links, entries);
        var r: Option<Entry>, k :| IsCanonical(es, c, r) && k in links &&
          o == if r.None? then Raised else Canonicalized(c, r.value.id, k.status,
              {DuplicateRegistrationCanonicalized} + AllReasons(links));
        assert r.value in Narrowed(es, c) && Narrowed(es, c) <= es;
        source :| source in links && source.entry == r.value.id;
      }
    }
  }

  // ---- What the rules choose -------------------------------------------------------------

  /** An entry that takes an input the candidate demands. */
  predicate Demanded(e: Entry, c: Candidate)
  {
    exists d, i | d in c.demands && 0 <= i < |e.inputs| :: d.name == e.inputs[i].name
  }

  lemma DemandedMeans(e: Entry, c: Candidate)
    ensures Demanded(e, c) <==> (set d | d in c.demands :: d.name) * InputNames(e) != {}
  {
    var names := set d | d in c.demands :: d.name;
    if d, i :| d in c.demands && 0 <= i < |e.inputs| && d.name == e.inputs[i].name {
      assert d.name in names * InputNames(e);
    }
    if n :| n in names * InputNames(e) {
      var d :| d in c.demands && d.name == n;
      var i :| 0 <= i < |e.inputs| && e.inputs[i].name == n;
      assert d in c.demands && d.name == e.inputs[i].name;
    }
  }

  lemma NarrowedMeans(s: set<Entry>, c: Candidate, e: Entry)
    requires e in s
    ensures e in Narrowed(s, c) <==> Demanded(e, c) || forall x | x in s :: !Demanded(x, c)
  {
    var names := set d | d in c.demands :: d.name;
    forall x | x in s ensures Demanded(x, c) <==> names * InputNames(x) != {} { DemandedMeans(x, c); }
    var demanded := set x | x in s && names * InputNames(x) != {} :: x;
    if names == {} || demanded == {} {
      forall x | x in s ensures !Demanded(x, c) {
        assert names * InputNames(x) != {} ==> x in demanded && names != {};
      }
    } else {
      var y :| y in demanded;
      assert Demanded(y, c);
    }
  }

  /** The canonical entry of some aliases takes a demanded input if any of them does, and among
      those that do, all alike but for identifier and registration or all registered alike, it
      has the least key. */
  lemma CanonicalChosen(s: set<Entry>, c: Candidate, e: Entry, x: Entry)
    requires IsCanonical(s, c, Some(e)) && x in s && (Demanded(x, c) || forall y | y in s :: !Demanded(y, c))
    ensures e in s && (Demanded(e, c) || forall y | y in s :: !Demanded(y, c))
    ensures x == e.(id := x.id, registration := x.registration) ||
            (x.registration == e.registration && x.pattern == e.pattern && T.Leq(e.id, x.id))
  {
    NarrowedMeans(s, c, x);
    NarrowedMeans(s, c, e);
    var narrowed := Narrowed(s, c);
    if SameSemantics(narrowed) {
      assert SemanticKey(e) == SemanticKey(x);
    } else {
      assert RegistrationKey(e) == RegistrationKey(x);
      assert KeyLeq(Key(e, false), Key(x, false));
      T.LeqReflexive(e.id);
    }
  }

  /** Aliases of one installed handler become one link, with the status they share, for the
      entry of one of them: the handler base, if exactly one of them is. */
  lemma AliasesNameOne(h: Helpers, entries: set<Entry>, c: Candidate, links: set<Link>, o: Outcome)
    returns (l: Link, e: Entry)
    requires Aliases(links, entries) && FromLinks(h, entries, c, links, o) && o.Associated?
    ensures o.links == {l} && l.growth == c.growth && o.association == StatusOf(l.status)
    ensures forall x | x in links :: x.status == l.status
    ensures e in entries && e.id == l.entry && exists x | x in links :: x.entry == e.id
    ensures |BaseLinks(h, links, entries)| == 1 ==> e.pattern == h.basePattern
  {
    var bases := BaseLinks(h, links, entries);
    if |bases| == 1 {
      var b :| b in bases && o == Canonicalized(c, b.entry, b.status, b.reasons + {HandlerBaseCanonicalized});
      e :| e in entries && e.id == b.entry && e.pattern == h.basePattern;
      l := Link(c.growth, b.entry, b.status, {c.growth, b.entry}, b.reasons + {HandlerBaseCanonicalized});
    } else {
      var reasons := {DuplicateRegistrationCanonicalized} + AllReasons(links);
      var r: Option<Entry>, k :| IsCanonical(EntriesOf(links, entries), c, r) && k in links &&
        o == if r.None? then Raised else Canonicalized(c, r.value.id, k.status, reasons);
      e := r.value;
      assert e in EntriesOf(links, entries);
      l := Link(c.growth, e.id, k.status, {c.growth, e.id}, reasons);
    }
  }

  /** The linked entries differ at most in identifier, route and pattern, the links not in
      status: they are aliases of one installed handler. */
  ghost predicate Alike(links: set<Link>, entries: set<Entry>)
  {
    && (forall x, y, l, m | x in entries && y in entries && l in links && m in links
                         && x.id == l.entry && y.id == m.entry ::
          x == y.(id := x.id, route := x.route, pattern := x.pattern))
    && forall l, m | l in links && m in links :: l.status == m.status
  }

  lemma AlikeMeans(links: set<Link>, entries: set<Entry>)
    ensures Aliases(links, entries) <==> |links| > 1 && Alike(links, entries)
  {
    var es := EntriesOf(links, entries);
    if Alike(links, entries) {
      forall x, y | x in es && y in es ensures SiteKey(x) == SiteKey(y) {
        var l :| l in links && x.id == l.entry;
        var m :| m in links && y.id == m.entry;
        assert x == y.(id := x.id, route := x.route, pattern := x.pattern);
      }
    }
    if SameSite(es) {
      forall x, y, l, m | x in entries && y in entries && l in links && m in links && x.id == l.entry && y.id == m.entry
        ensures x == y.(id := x.id, route := x.route, pattern := x.pattern)
      {
        assert x in es && y in es && SiteKey(x) == SiteKey(y);
      }
    }
  }

  lemma LinksApart(h: Helpers, entries: set<Entry>, c: Candidate, links: set<Link>, o: Outcome)
    requires FromLinks(h, entries, c, links, o) && |links| > 1 && !Aliases(links, entries)
    ensures o.Associated? && o.association.Ambiguous? && o.links == if |links| > 64 then {} else links
  {
  }

  /** Several links: one when they are alike, none but an ambiguity beyond 64, and otherwise all
      of them, ambiguous. */
  lemma SeveralLinks(
      h: Helpers, entries: set<Entry>, c: Candidate, rows: set<Row>, flows: set<Row>, links: set<Link>, o: Outcome)
    requires IsOutcome(h, entries, c, rows, flows, o) && !BlankRow(h, entries, c, rows)
    requires links == LinkedSet(h, entries, c, rows, flows) && |links| > 1
    ensures Alike(links, entries) && o.Associated? ==>
              |o.links| == 1 && (o.association.AssociationComplete? || o.association.AssociationPartial?)
    ensures !Alike(links, entries) ==>
              o.Associated? && o.association.Ambiguous? && o.links == if |links| > 64 then {} else links
  {
    assert FromLinks(h, entries, c, links, o);
    AlikeMeans(links, entries);
    if !Alike(links, entries) {
      LinksApart(h, entries, c, links, o);
    } else if o.Associated? {
      AlikeOne(h, entries, c, links, o);
    }
  }

  lemma AlikeOne(h: Helpers, entries: set<Entry>, c: Candidate, links: set<Link>, o: Outcome)
    requires Aliases(links, entries) && FromLinks(h, entries, c, links, o) && o.Associated?
    ensures |o.links| == 1 && (o.association.AssociationComplete? || o.association.AssociationPartial?)
  {
    var l, e := AliasesNameOne(h, entries, c, links, o);
    assert |{l}| == 1;
  }

  /** No association row speaks of the candidate's site and an entry's handler and route. */
  ghost predicate NoRow(h: Helpers, entries: set<Entry>, c: Candidate, rows: set<Row>)
  {
    forall e, a | e in entries && a in rows && a.sinkFile == c.file && a.sinkLine == c.line
               && a.sourceFile == e.handler.file && a.sourceLine == e.handler.line ::
      h.route(a).Some? && e.route != h.route(a).value
  }

  lemma NoRowNoLink(h: Helpers, entries: set<Entry>, c: Candidate, rows: set<Row>, flows: set<Row>)
    requires NoRow(h, entries, c, rows)
    ensures !BlankRow(h, entries, c, rows) && LinkedSet(h, entries, c, rows, flows) == {}
  {
    forall e, a | e in entries && a in rows ensures !Applies(h, e, c, a) {
    }
  }

  /** Without an association row the only link is partial and names the nearest entry: no entry
      of the file starts between it and the candidate. There is none exactly when no entry of
      the file starts at or before the candidate, or the nearest ones cannot be told apart. */
  lemma SourceOrderNames(h: Helpers, entries: set<Entry>, c: Candidate, rows: set<Row>, flows: set<Row>, o: Outcome)
    returns (e: Option<Entry>)
    requires NoRow(h, entries, c, rows) && IsOutcome(h, entries, c, rows, flows, o)
    ensures o.Associated?
    ensures o.association.Missing? <==> forall x | x in entries && x.handler.file == c.file :: x.handler.line > c.line
    ensures e.None? ==> o.links == {} && (o.association.Missing? || o.association.Ambiguous?)
    ensures e.Some? ==>
        && e.value in entries && e.value.handler.file == c.file && e.value.handler.line <= c.line
        && o.association.AssociationPartial? && |o.links| == 1
        && (forall l | l in o.links :: l.growth == c.growth && l.entry == e.value.id && l.status.Partial?)
        && forall x | x in entries && x.handler.file == c.file && x.handler.line <= c.line ::
             x.handler.line <= e.value.handler.line
  {
    NoRowNoLink(h, entries, c, rows, flows);
    MissingMeans(h, entries, c, flows, o);
    e := NearestNamed(h, entries, c, flows, o);
  }

  lemma MissingMeans(h: Helpers, entries: set<Entry>, c: Candidate, flows: set<Row>, o: Outcome)
    requires FromSourceOrder(h, entries, c, flows, o)
    ensures o.Associated?
    ensures o.association.Missing? <==> forall x | x in entries && x.handler.file == c.file :: x.handler.line > c.line
  {
    var matches := SourceOrder(entries, c);
    if matches == {} {
      forall x | x in entries && x.handler.file == c.file ensures x.handler.line > c.line { assert x !in matches; }
    } else {
      var y :| y in matches;
    }
  }

  lemma NearestNamed(h: Helpers, entries: set<Entry>, c: Candidate, flows: set<Row>, o: Outcome)
    returns (e: Option<Entry>)
    requires FromSourceOrder(h, entries, c, flows, o) && o.Associated?
    ensures e.None? ==> o.links == {} && (o.association.Missing? || o.association.Ambiguous?)
    ensures e.Some? ==>
        && e.value in entries && e.value.handler.file == c.file && e.value.handler.line <= c.line
        && o.association.AssociationPartial? && |o.links| == 1
        && (forall l | l in o.links :: l.growth == c.growth && l.entry == e.value.id && l.status.Partial?)
        && forall x | x in entries && x.handler.file == c.file && x.handler.line <= c.line ::
             x.handler.line <= e.value.handler.line
  {
    var matches := SourceOrder(entries, c);
    e := None;
    if matches != {} {
      var anchors := if SameSemantics(matches) then matches else Nearest(matches);
      e :| IsCanonical(anchors, c, e) &&
        o == if e.None? then Associated({}, Ambiguous, {FanoutPartitionAmbiguous})
             else PartialLink(h, e.value, c, flows);
      if e.Some? { AnchorNearest(entries, c, anchors, e.value); }
    }
  }

  lemma AnchorNearest(entries: set<Entry>, c: Candidate, anchors: set<Entry>, e: Entry)
    requires IsCanonical(anchors, c, Some(e))
    requires var matches := SourceOrder(entries, c);
             anchors == if SameSemantics(matches) then matches else Nearest(matches)
    ensures e in entries && e.handler.file == c.file && e.handler.line <= c.line
    ensures forall x | x in entries && x.handler.file == c.file && x.handler.line <= c.line ::
              x.handler.line <= e.handler.line
  {
    var matches := SourceOrder(entries, c);
    assert e in anchors;
    forall x | x in entries && x.handler.file == c.file && x.handler.line <= c.line
      ensures x.handler.line <= e.handler.line
    {
      assert x in matches;
      if SameSemantics(matches) { assert SemanticKey(x) == SemanticKey(e); }
    }
  }

  /** One association row speaks of the candidate's site and one entry's handler and route. */
  ghost predicate SoleRow(h: Helpers, entries: set<Entry>, c: Candidate, rows: set<Row>, e: Entry, a: Row)
  {
    && e in entries && a in rows && NoRow(h, entries, c, rows - {a}) && NoRow(h, entries - {e}, c, rows)
    && a.sinkFile == c.file && a.sinkLine == c.line && a.sourceFile == e.handler.file && a.sourceLine == e.handler.line
    && (h.route(a).Some? ==> e.route == h.route(a).value)
  }

  /** The flow row carries the association row's path, from an input of the entry to a bound
      demand, as proven and complete data flow. */
  ghost predicate FlowProof(h: Helpers, e: Entry, c: Candidate, a: Row, f: Row)
  {
    && f == a.(source := f.source, kind := f.kind, proven := true, complete := true, note := f.note)
    && !f.kind.OtherFlow? && (exists i :: 0 <= i < |e.inputs| && e.inputs[i].name == f.source)
    && exists d :: d in c.demands && d.role == a.target && h.binds(d.name, a.sink)
  }

  /** A sole association row gives its entry the one link, complete exactly when the row is
      proven and complete and some flow row proves it; so the rows decide in both directions. */
  lemma SoleRowLinks(
      h: Helpers, entries: set<Entry>, c: Candidate, rows: set<Row>, flows: set<Row>, o: Outcome, e: Entry, a: Row)
    requires SoleRow(h, entries, c, rows, e, a) && a.note != Note("") && IsOutcome(h, entries, c, rows, flows, o)
    ensures o.Associated? && |o.links| == 1
    ensures forall l | l in o.links ::
        && l.growth == c.growth && l.entry == e.id && a.note in l.reasons && StatusOf(l.status) == o.association
        && (l.status.Complete? <==> a.complete && a.proven && exists f :: f in flows && FlowProof(h, e, c, a, f))
        && (h.route(a).Some? ==> RouteAliasMatched in l.reasons)
        && (!DemandBound(h, c, a) ==> FlowRowMissing in l.reasons)
  {
    var l := LinkOf(h, e, c, a, flows);
    SoleLinked(h, entries, c, rows, flows, e, a);
    LinkStatusMeans(h, e, c, a, flows);
    assert {l} == LinkedSet(h, entries, c, rows, flows);
  }

  lemma SoleLinked(h: Helpers, entries: set<Entry>, c: Candidate, rows: set<Row>, flows: set<Row>, e: Entry, a: Row)
    requires SoleRow(h, entries, c, rows, e, a) && a.note != Note("")
    ensures LinkedSet(h, entries, c, rows, flows) == {LinkOf(h, e, c, a, flows)} && !BlankRow(h, entries, c, rows)
  {
    assert Applies(h, e, c, a);
    forall x, b | x in entries && b in rows && Applies(h, x, c, b) ensures x == e && b == a {
      assert b != a ==> b in rows - {a};
      assert x != e ==> x in entries - {e};
    }
    var links := LinkedSet(h, entries, c, rows, flows);
    assert LinkOf(h, e, c, a, flows) in links;
    forall l | l in links ensures l == LinkOf(h, e, c, a, flows) {
      var x, b :| x in entries && b in rows && Applies(h, x, c, b) && l == LinkOf(h, x, c, b, flows);
    }
  }

  lemma LinkStatusMeans(h: Helpers, e: Entry, c: Candidate, a: Row, flows: set<Row>)
    ensures LinkOf(h, e, c, a, flows).status.Complete? <==>
            a.complete && a.proven && exists f :: f in flows && FlowProof(h, e, c, a, f)
  {
    if f :| f in flows && FlowProof(h, e, c, a, f) {
      var i :| 0 <= i < |e.inputs| && e.inputs[i].name == f.source;
      assert f.source in InputNames(e);
      assert SameFlow(f, a) && Proves(e, f, a);
      var d :| d in c.demands && d.role == a.target && h.binds(d.name, a.sink);
      assert DemandBound(h, c, a);
    }
    if Witnessed(h, e, c, a, flows) {
      var f :| f in flows && Proves(e, f, a);
      assert FlowProof(h, e, c, a, f);
    }
  }
}
