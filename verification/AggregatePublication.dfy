/** Publishing a batch aggregate: a whole generation, the root files, the pointer, the owner
    marker, with a crash possible after each; and the recovery that precedes the next one. */
module AggregatePublication {
  import opened Bytes
  import T = Text

  type Name = T.Name
  type Outputs = map<Name, bytes>
  type Format = string

  /** A generation directory: it appears whole, by one rename. */
  datatype Generation = Generation(format: Format, files: Outputs)

  datatype Marker = Absent | Ours | Foreign

  /** What a crash leaves behind. */
  datatype Snapshot = Snapshot(
    root: Outputs, generations: map<string, Generation>, pointer: Option<string>, owner: Marker)

  /** The output names of a format are always the same. */
  type Names = Format -> set<Name>

  ghost predicate Inv(names: Names, s: Snapshot)
  {
    && (s.pointer.Some? ==> s.pointer.value in s.generations)
    && (s.owner.Ours? ==> s.pointer.Some?)
    && forall g | g in s.generations :: s.generations[g].files.Keys == names(s.generations[g].format)
  }

  /** Every file of the generation is in the root, unchanged. */
  ghost predicate Whole(root: Outputs, files: Outputs)
  {
    forall n | n in files :: n in root && root[n] == files[n]
  }

  /** A root file is the one the prior generation published or the one about to be. */
  predicate Known(root: Outputs, prior: Outputs, outputs: Outputs, n: Name)
    requires n in outputs
  {
    n in root ==>
      Sha256(root[n]) == Sha256(outputs[n]) || (n in prior && Sha256(root[n]) == Sha256(prior[n]))
  }

  predicate Occupied(root: Outputs, outputs: Outputs)
  {
    exists n | n in outputs :: n in root
  }

  /** A file of the prior generation that a switch of format would leave behind. */
  predicate Stale(root: Outputs, prior: Outputs, outputs: Outputs)
  {
    exists n | n in prior :: n !in outputs && n in root
  }

  /** The ownership check, on the directory as it stands. */
  predicate MayPublish(s: Snapshot, format: Format, outputs: Outputs)
  {
    match s.owner
    case Foreign => false
    case Absent => !Occupied(s.root, outputs) && s.pointer.None?
    case Ours =>
      || !Occupied(s.root, outputs)
      || (s.pointer.Some? && s.pointer.value in s.generations &&
          var prior := s.generations[s.pointer.value];
          && (forall n | n in outputs :: Known(s.root, prior.files, outputs, n))
          && (prior.format == format || !Stale(s.root, prior.files, outputs)))
  }

  /** Recovered, a directory accepts a publication of its own format exactly when its marker
      is in place or nothing is there yet: a crash never costs an owned directory its owner,
      but one before the very first marker makes every later publication refuse. */
  lemma RefusedExactlyWhen(names: Names, s: Snapshot, format: Format, outputs: Outputs)
    requires Inv(names, s) && outputs.Keys == names(format)
    requires s.pointer.Some? ==>
               s.generations[s.pointer.value].format == format && Whole(s.root, s.generations[s.pointer.value].files)
    ensures MayPublish(s, format, outputs) <==>
            s.owner.Ours? || (s.owner.Absent? && s.pointer.None? && forall n | n in s.root :: n !in outputs)
  {
    if s.owner.Ours? {
      var prior := s.generations[s.pointer.value].files;
      assert prior.Keys == outputs.Keys;
      forall n | n in outputs ensures Known(s.root, prior, outputs, n) { assert n in prior; }
    }
  }

  /** Every root file among the outputs is the prior generation's or the one about to be. */
  predicate AllKnown(s: Snapshot, outputs: Outputs)
  {
    && s.pointer.Some? && s.pointer.value in s.generations
    && forall n | n in outputs :: Known(s.root, s.generations[s.pointer.value].files, outputs, n)
  }

  predicate SameFormat(pointer: Option<string>, generations: map<string, Generation>, format: Format)
  {
    pointer.Some? && pointer.value in generations && generations[pointer.value].format == format
  }

  /** The directory belongs to the aggregator, with a generation of this format current. */
  predicate Owned(s: Snapshot, format: Format)
  {
    s.owner.Ours? && SameFormat(s.pointer, s.generations, format)
  }

  /** Whatever the root holds, an owned directory refuses its own format exactly when some root
      file is neither the prior generation's nor the one about to be. */
  lemma OwnedRefusedExactlyWhen(s: Snapshot, format: Format, outputs: Outputs)
    requires Owned(s, format)
    ensures MayPublish(s, format, outputs) <==> AllKnown(s, outputs)
  {
    if !Occupied(s.root, outputs) {
      forall n | n in outputs ensures Known(s.root, s.generations[s.pointer.value].files, outputs, n) {
        assert n !in s.root;
      }
    }
  }

  /** A switch of format is refused exactly when the new names are taken and either some file
      there is neither the prior generation's nor the one about to be, or the switch would
      leave a file of the prior generation behind. */
  lemma SwitchRefusedExactlyWhen(s: Snapshot, format: Format, outputs: Outputs)
    requires s.owner.Ours? && s.pointer.Some? && s.pointer.value in s.generations
    requires s.generations[s.pointer.value].format != format
    ensures var prior := s.generations[s.pointer.value].files;
            !MayPublish(s, format, outputs) <==>
              && (exists n :: n in outputs && n in s.root)
              && (|| (exists n :: n in outputs && n in s.root && Sha256(s.root[n]) != Sha256(outputs[n])
                                  && (n !in prior || Sha256(s.root[n]) != Sha256(prior[n])))
                  || exists n :: n in prior && n in s.root && n !in outputs)
  {
  }

  /** A first publication that died: something is there, and no marker says whose it is. */
  predicate Stranded(s: Snapshot, outputs: Outputs)
  {
    s.owner.Absent? && (s.pointer.Some? || Occupied(s.root, outputs))
  }

  /** The invariant, and ownership throughout if the directory was owned to begin with. */
  ghost predicate Kept(names: Names, home: Option<Format>, s: Snapshot)
  {
    Inv(names, s) && (home.Some? ==> Owned(s, home.value))
  }

  ghost predicate AllKept(names: Names, home: Option<Format>, trace: seq<Snapshot>)
  {
    forall i {:trigger Kept(names, home, trace[i])} | 0 <= i < |trace| :: Kept(names, home, trace[i])
  }

  lemma AllKeptAppend(names: Names, home: Option<Format>, trace: seq<Snapshot>, s: Snapshot)
    requires AllKept(names, home, trace) && Kept(names, home, s)
    ensures AllKept(names, home, trace + [s])
  {
    forall i | 0 <= i < |trace + [s]| ensures Kept(names, home, (trace + [s])[i]) {
      if i < |trace| { assert Kept(names, home, trace[i]); }
    }
  }

  datatype Result = Published | Refused | Stopped

  /** How a recovery ends; an `OSError` in it is swallowed, and the publication goes on. */
  datatype Recovery = Recovered | Swallowed | Escaped

  /** What befalls one file operation: a failure comes before or after the effect. */
  datatype Fate = Succeeds | Fails(acted: bool, escapes: bool)

  /** A root some of whose files have been replaced by those of a generation. */
  ghost predicate Partly(root: Outputs, was: Outputs, files: Outputs)
  {
    forall n :: && (n in was ==> n in root)
                && (n in root ==> (n in was && root[n] == was[n]) || (n in files && root[n] == files[n]))
  }

  class BatchRoot {
    ghost const names: Names
    var root: Outputs
    var generations: map<string, Generation>
    var pointer: Option<string>
    var owner: Marker
    /** Every state since the current process began, the present one last. */
    var trace: seq<Snapshot>
    /** What the coming file operations meet; past the end they succeed. */
    var fates: seq<Fate>
    /** The format the directory was owned for when the process began. */
    ghost var home: Option<Format>

    ghost function Now(): Snapshot
      reads this
    {
      Snapshot(root, generations, pointer, owner)
    }

    ghost predicate Valid()
      reads this
    {
      trace != [] && trace[|trace| - 1] == Now() && AllKept(names, home, trace)
    }

    lemma InvNow()
      requires Valid()
      ensures Kept(names, home, Now())
    {
      assert Kept(names, home, trace[|trace| - 1]);
    }

    /** A directory nobody has aggregated into, whatever else it holds. */
    constructor (ghost names: Names, root: Outputs, foreign: bool)
      ensures Valid() && this.names == names && this.root == root && generations == map[] && pointer.None?
      ensures owner == (if foreign then Foreign else Absent) && fates == []
    {
      this.names, this.root, generations, pointer, fates := names, root, map[], None, [];
      owner := if foreign then Foreign else Absent;
      trace := [Snapshot(root, map[], None, if foreign then Foreign else Absent)];
      home := None;
    }

    /** A new process takes the directory over. */
    method Begin(ghost format: Format)
      requires Valid()
      modifies `trace, `home
      ensures Valid() && (home == Some(format) <==> Owned(Now(), format)) && (home.Some? ==> home.value == format)
    {
      InvNow();
      trace := [Snapshot(root, generations, pointer, owner)];
      home := if Owned(Now(), format) then Some(format) else None;
    }

    method Journal()
      requires AllKept(names, home, trace) && Kept(names, home, Now())
      modifies `trace
      ensures Valid() && trace == old(trace) + [Now()]
    {
      AllKeptAppend(names, home, trace, Now());
      trace := trace + [Snapshot(root, generations, pointer, owner)];
    }

    method Meet() returns (fate: Fate)
      modifies `fates
      ensures if old(fates) == [] then fate.Succeeds? && fates == [] else fate == old(fates)[0]
    {
      if fates == [] { return Succeeds; }
      fate, fates := fates[0], fates[1..];
    }

    /** Replaces one root file atomically. */
    method WriteRoot(n: Name, data: bytes) returns (fate: Fate)
      requires Valid()
      modifies `root, `trace, `fates
      ensures Valid() && old(trace) <= trace
      ensures root == old(root)[n := data] || (fate.Fails? && root == old(root))
      ensures fate.Succeeds? ==> trace == old(trace) + [Now()]
      ensures old(fates) == [] ==> fate.Succeeds? && fates == []
    {
      InvNow();
      fate := Meet();
      if fate.Succeeds? || fate.acted {
        root := root[n := data];
        Journal();
      }
    }

    method PublishGeneration(id: string, g: Generation) returns (ok: bool)
      requires Valid() && g.files.Keys == names(g.format)
      modifies `generations, `trace, `fates
      ensures Valid() && old(trace) <= trace && (ok ==>
          id !in old(generations) && generations == old(generations)[id := g])
      ensures ok || generations == old(generations) || generations == old(generations)[id := g]
      ensures old(fates) == [] ==> (ok <==> id !in old(generations)) && fates == []
    {
      InvNow();
      if id in generations { return false; }
      var fate := Meet();
      ok := fate.Succeeds?;
      if ok || fate.acted {
        generations := generations[id := g];
        Journal();
      }
    }

    method WritePointer(id: string) returns (ok: bool)
      requires Valid() && id in generations && (home.Some? ==> generations[id].format == home.value)
      modifies `pointer, `trace, `fates
      ensures Valid() && old(trace) <= trace && (pointer == Some(id) || (!ok && pointer == old(pointer)))
      ensures ok ==> trace == old(trace) + [Now()]
      ensures old(fates) == [] ==> ok && fates == []
    {
      InvNow();
      var fate := Meet();
      ok := fate.Succeeds?;
      if ok || fate.acted {
        pointer := Some(id);
        Journal();
      }
    }

    method WriteOwner() returns (ok: bool)
      requires Valid() && pointer.Some?
      modifies `owner, `trace, `fates
      ensures Valid() && old(trace) <= trace && (owner == Ours || (!ok && owner == old(owner)))
      ensures old(fates) == [] ==> ok && fates == []
    {
      InvNow();
      var fate := Meet();
      ok := fate.Succeeds?;
      if ok || fate.acted {
        owner := Ours;
        Journal();
      }
    }

    /** The process dies: the directory is as it was at some past moment. */
    method Crash(i: nat)
      requires Valid() && i < |trace|
      modifies this
      ensures Valid() && Now() == old(trace)[i] && home == old(home) && fates == []
    {
      ghost var past := trace;
      var s := trace[i];
      root, generations, pointer, owner, fates := s.root, s.generations, s.pointer, s.owner, [];
      trace := trace[..i + 1];
      forall j | 0 <= j < |trace| ensures Kept(names, home, trace[j]) { assert Kept(names, home, past[j]); }
    }

    /** Writes the files of `order` to the root, one at a time. */
    method WriteAll(order: seq<Name>, files: Outputs, skipSame: bool) returns (fate: Fate)
      requires Valid() && forall i | 0 <= i < |order| :: order[i] in files
      modifies `root, `trace, `fates
      ensures Valid() && old(trace) <= trace && Partly(root, old(root), files)
      ensures fate.Succeeds? ==> forall i | 0 <= i < |order| :: order[i] in root && root[order[i]] == files[order[i]]
      ensures fate.Succeeds? && order != [] && !skipSame ==>
                |trace| > |old(trace)| &&
                trace[|old(trace)|] == old(Now()).(root := old(root)[order[0] := files[order[0]]])
      ensures old(fates) == [] ==> fate.Succeeds? && fates == []
    {
      fate := Succeeds;
      ghost var before, was := |trace|, Now();
      for k := 0 to |order|
        invariant Valid() && fate.Succeeds? && old(trace) <= trace && Partly(root, was.root, files)
        invariant forall i | 0 <= i < k :: order[i] in root && root[order[i]] == files[order[i]]
        invariant k == 0 ==> Now() == was && trace == old(trace)
        invariant k > 0 && !skipSame ==>
                    |trace| > before && trace[before] == was.(root := was.root[order[0] := files[order[0]]])
        invariant old(fates) == [] ==> fates == []
      {
        var n := order[k];
        if !(skipSame && n in root && Sha256(root[n]) == Sha256(files[n])) {
          fate := WriteRoot(n, files[n]);
          if fate.Fails? { return; }
        }
      }
    }

    /** Rewrites the root files that differ from the given ones. */
    method Restore(files: Outputs) returns (fate: Fate)
      requires Valid()
      modifies `root, `trace, `fates
      ensures Valid() && old(trace) <= trace && Partly(root, old(root), files)
      ensures fate.Succeeds? ==> Whole(root, files)
      ensures old(fates) == [] ==> fate.Succeeds? && fates == []
    {
      var order := T.Sorted(files.Keys);
      T.SortedElements(files.Keys);
      assert forall i | 0 <= i < |order| :: order[i] in order;
      fate := WriteAll(order, files, true);
      if fate.Succeeds? {
        forall n | n in files ensures n in root && root[n] == files[n] { assert n in order; }
      }
    }

    /** `_recover_publication`: brings the root back to the generation `.aggregate-current.json`
        names, if it can. */
    method Recover() returns (r: Recovery)
      requires Valid()
      modifies `root, `trace, `fates
      ensures Valid() && old(trace) <= trace
      ensures pointer.None? ==> r.Recovered? && root == old(root)
      ensures pointer.Some? ==>
          pointer.value in generations && Partly(root, old(root), generations[pointer.value].files)
      ensures r.Recovered? && pointer.Some? ==> Whole(root, generations[pointer.value].files)
      ensures old(fates) == [] ==> r.Recovered? && fates == []
      ensures pointer.Some? && old(fates) == [Fails(false, false)] ==> r.Swallowed? && root == old(root)
    {
      if pointer.None? { return Recovered; }
      InvNow();
      var fate := Meet();
      if fate.Succeeds? { fate := Restore(generations[pointer.value].files); }
      r := if fate.Succeeds? then Recovered else if fate.escapes then Escaped else Swallowed;
    }

    /** `_publish_outputs_unlocked`, its output files in any order. When it completes, the
        directory has been in the states a crash between its steps would leave. */
    method PublishUnlocked(id: string, format: Format, outputs: Outputs, order: seq<Name>) returns (r: Result)
      requires Valid() && outputs.Keys == names(format) && forall n :: n in order <==> n in outputs
      requires home.Some? ==> home.value == format
      modifies `root, `generations, `pointer, `owner, `trace, `fates
      ensures Valid() && old(trace) <= trace && (r == Refused <==> !MayPublish(old(Now()), format, outputs))
      ensures r == Refused ==> Now() == old(Now())
      ensures r == Published ==>
                && Whole(root, outputs) && pointer == Some(id) && owner == Ours && id !in old(generations)
                && generations == old(generations)[id := Generation(format, outputs)]
      ensures r == Published ==> Snapshot(root, generations, Some(id), old(owner)) in trace
      ensures r == Published && order != [] ==>
                Snapshot(old(root)[order[0] := outputs[order[0]]], generations, old(pointer), old(owner)) in trace
      ensures Partly(root, old(root), outputs)
      ensures old(fates) == [] ==> fates == [] && (r == Stopped ==> id in old(generations))
    {
      if !MayPublish(Snapshot(root, generations, pointer, owner), format, outputs) { return Refused; }
      r := Stopped;
      var ok := PublishGeneration(id, Generation(format, outputs));
      if !ok { return; }
      assert forall i | 0 <= i < |order| :: order[i] in order;
      var fate := WriteAll(order, outputs, false);
      if fate.Fails? { return; }
      ok := WritePointer(id);
      if !ok { return; }
      ghost var pointed := |trace| - 1;
      ok := WriteOwner();
      assert trace[pointed] == Snapshot(root, generations, Some(id), old(owner));
      if ok { r := Published; }
    }

    /** One locked publication. The recovery comes first; when an error in it is swallowed the
        ownership check judges the root as it is: an owned directory is then refused exactly
        when some file is neither the prior generation's nor the one about to be. */
    method Publish(id: string, format: Format, outputs: Outputs, order: seq<Name>)
      returns (r: Result, ghost recovery: Recovery, ghost checked: Snapshot)
      requires Valid() && outputs.Keys == names(format) && forall n :: n in order <==> n in outputs
      modifies this
      ensures Valid() && (r == Published ==>
          Whole(root, outputs) && pointer == Some(id) && owner == Ours && Owned(Now(), format))
      ensures checked == old(Now()).(root := checked.root) && (old(pointer).None? ==> checked == old(Now()))
      ensures if recovery == Escaped then r == Stopped else r == Refused <==> !MayPublish(checked, format, outputs)
      ensures r == Published ==>
                && id !in old(generations) && generations == old(generations)[id := Generation(format, outputs)]
                && Snapshot(root, generations, Some(id), old(owner)) in trace
                && (order != [] ==>
                      Snapshot(
                        checked.root[order[0] := outputs[order[0]]], generations, old(pointer), old(owner)) in trace)
      ensures old(fates) == [] ==> recovery == Recovered && fates == [] && (r == Stopped ==> id in old(generations))
      ensures old(pointer).Some? && old(fates) == [Fails(false, false)] ==>
          recovery == Swallowed && checked == old(Now())
      ensures old(Owned(Now(), format)) ==>
                && home == Some(format)
                && (recovery == Recovered ==> Whole(checked.root, old(generations[pointer.value].files)))
                && (recovery != Escaped ==> (r == Refused <==> !AllKnown(checked, outputs)))
                && (r == Refused ==> recovery == Swallowed && !old(AllKnown(Now(), outputs)))
      ensures old(Stranded(Now(), outputs)) ==>
          r != Published && Stranded(Now(), outputs) && (r == Refused || recovery == Escaped)
    {
      Begin(format);
      InvNow();
      var outcome := Recover();
      recovery, checked := outcome, Now();
      if outcome.Escaped? { return Stopped, recovery, checked; }
      InvNow();
      if Owned(Now(), format) { OwnedRefusedExactlyWhen(Now(), format, outputs); }
      r := PublishUnlocked(id, format, outputs, order);
    }
  }

  // ---- Histories -----------------------------------------------------------------------

  /** One publication of a history: what its file operations meet, and the moment the process
      died in it, if it did. */
  datatype Attempt = Attempt(id: string, outputs: Outputs, fates: seq<Fate>, crashedAt: Option<nat>)

  /** Attempt `j` completed, and the process lived on. */
  ghost predicate CompletedAt(results: seq<Result>, past: seq<Attempt>, j: nat)
  {
    j < |results| && j < |past| && results[j] == Published && past[j].crashedAt.None?
  }

  /** Once an attempt has completed, one is refused only if an error cut its recovery short. */
  ghost predicate NoLateRefusal(results: seq<Result>, recoveries: seq<Recovery>, past: seq<Attempt>)
  {
    && |recoveries| == |results|
    && forall j: nat, k: nat | j < k < |results| && CompletedAt(results, past, j) ::
         results[k] == Refused ==> recoveries[k] == Swallowed
  }

  lemma OneMoreResult(
      results: seq<Result>, recoveries: seq<Recovery>, past: seq<Attempt>, r: Result, recovery: Recovery)
    requires |results| < |past| && NoLateRefusal(results, recoveries, past)
    requires (exists j: nat :: CompletedAt(results, past, j)) && r == Refused ==> recovery == Swallowed
    ensures NoLateRefusal(results + [r], recoveries + [recovery], past)
    ensures (exists j: nat :: CompletedAt(results + [r], past, j)) ==>
              (exists j: nat :: CompletedAt(results, past, j)) || (r == Published && past[|results|].crashedAt.None?)
  {
    var more := results + [r];
    forall j: nat, k: nat | j < k < |more| && CompletedAt(more, past, j)
      ensures more[k] == Refused ==> (recoveries + [recovery])[k] == Swallowed
    {
      assert CompletedAt(results, past, j);
    }
    if j: nat :| CompletedAt(more, past, j) && j < |results| { assert CompletedAt(results, past, j); }
  }

  method OneAttempt(d: BatchRoot, format: Format, a: Attempt) returns (r: Result, ghost recovery: Recovery)
    requires d.Valid() && a.outputs.Keys == d.names(format)
    modifies d
    ensures d.Valid()
    ensures old(Owned(d.Now(), format)) ==> Owned(d.Now(), format) && (r == Refused ==> recovery == Swallowed)
    ensures r == Published && a.crashedAt.None? ==> Owned(d.Now(), format)
  {
    var order := T.Sorted(a.outputs.Keys);
    T.SortedElements(a.outputs.Keys);
    d.fates := a.fates;
    ghost var checked;
    r, recovery, checked := d.Publish(a.id, format, a.outputs, order);
    if a.crashedAt.Some? && a.crashedAt.value < |d.trace| { d.Crash(a.crashedAt.value); }
    d.InvNow();
  }

  /** Any history of publications of one format, each of which may meet errors or crash
      anywhere. Once one has completed, one is refused only if an error cut its own recovery
      short; and recovery, when it completes, leaves the root one whole generation, the one
      `.aggregate-current.json` names. */
  method RecoverAfterAnyPast(d: BatchRoot, format: Format, past: seq<Attempt>)
    returns (results: seq<Result>, ghost recoveries: seq<Recovery>, last: Recovery)
    requires d.Valid() && forall i | 0 <= i < |past| :: past[i].outputs.Keys == d.names(format)
    modifies d
    ensures d.Valid() && |results| == |past| && NoLateRefusal(results, recoveries, past)
    ensures last.Recovered? && d.pointer.Some? ==>
              d.pointer.value in d.generations && Whole(d.root, d.generations[d.pointer.value].files)
  {
    results, recoveries := [], [];
    for i := 0 to |past|
      invariant d.Valid() && |results| == i && NoLateRefusal(results, recoveries, past)
      invariant (exists j: nat :: CompletedAt(results, past, j)) ==> Owned(d.Now(), format)
    {
      var r;
      ghost var recovery;
      r, recovery := OneAttempt(d, format, past[i]);
      OneMoreResult(results, recoveries, past, r, recovery);
      results, recoveries := results + [r], recoveries + [recovery];
    }
    last := d.Recover();
  }

  // ---- What a crash can cost -----------------------------------------------------------

  /** A first publication that completes in an empty directory. */
  method FirstPublication(ghost names: Names, format: Format, id: string, a: Outputs, order: seq<Name>)
    returns (d: BatchRoot)
    requires a.Keys == names(format) && order != [] && forall n :: n in order <==> n in a
    ensures fresh(d) && d.Valid() && d.names == names && d.fates == [] && Owned(d.Now(), format) && Whole(d.root, a)
    ensures d.pointer == Some(id) && d.generations == map[id := Generation(format, a)]
    ensures Snapshot(map[order[0] := a[order[0]]], d.generations, None, Absent) in d.trace
    ensures Snapshot(d.root, d.generations, Some(id), Absent) in d.trace
  {
    d := new BatchRoot(names, map[], false);
    var r;
    ghost var recovery, checked;
    r, recovery, checked := d.Publish(id, format, a, order);
  }

  /** A publication over an owned directory that dies after its first root file. */
  method DiesAfterOneFile(d: BatchRoot, format: Format, id: string, b: Outputs, order: seq<Name>)
    requires d.Valid() && d.fates == [] && Owned(d.Now(), format) && id !in d.generations
    requires b.Keys == d.names(format) && order != [] && forall n :: n in order <==> n in b
    requires Whole(d.root, d.generations[d.pointer.value].files)
    modifies d
    ensures d.Valid() && d.fates == [] && d.generations == old(d.generations)[id := Generation(format, b)]
    ensures d.pointer == old(d.pointer) && d.owner == old(d.owner) && order[0] in d.root
        && d.root[order[0]] == b[order[0]]
  {
    var pointer, owner := d.pointer, d.owner;
    var r;
    ghost var recovery, checked;
    r, recovery, checked := d.Publish(id, format, b, order);
    var at: nat :| at < |d.trace| && d.trace[at].generations == d.generations && d.trace[at].pointer == pointer
                && d.trace[at].owner == owner && order[0] in d.trace[at].root
                && d.trace[at].root[order[0]] == b[order[0]];
    d.Crash(at);
  }

  /** A completes, B dies after its first root file, and an error cuts C's recovery short: the
      directory is still the aggregator's own, and refuses C. */
  method RefusedAfterCompletion(
      ghost names: Names, format: Format, ids: seq<string>, a: Outputs, b: Outputs, c: Outputs, order: seq<Name>)
    returns (d: BatchRoot, r: Result)
    requires a.Keys == b.Keys == c.Keys == names(format) && order != [] && forall n :: n in order <==> n in a
    requires Sha256(b[order[0]]) != Sha256(a[order[0]]) && Sha256(b[order[0]]) != Sha256(c[order[0]])
    requires |ids| == 3 && ids[0] != ids[1]
    ensures d.Valid() && Owned(d.Now(), format) && r == Refused
  {
    d := FirstPublication(names, format, ids[0], a, order);
    DiesAfterOneFile(d, format, ids[1], b, order);
    d.fates := [Fails(false, false)];
    ghost var recovery, checked;
    assert d.generations[ids[0]].files == a && !Known(d.root, a, c, order[0]) && !AllKnown(d.Now(), c);
    r, recovery, checked := d.Publish(ids[2], format, c, order);
    d.InvNow();
  }

  /** One more try at a directory whose first publication died. */
  method OneMoreTry(d: BatchRoot, format: Format, a: Attempt) returns (r: Result)
    requires d.Valid() && a.outputs.Keys == d.names(format) && Stranded(d.Now(), a.outputs)
    modifies d
    ensures d.Valid() && Stranded(d.Now(), a.outputs) && r != Published && (a.fates == [] ==> r == Refused)
  {
    var order := T.Sorted(a.outputs.Keys);
    T.SortedElements(a.outputs.Keys);
    d.fates := a.fates;
    ghost var recovery, checked;
    r, recovery, checked := d.Publish(a.id, format, a.outputs, order);
  }

  lemma StrandedByNames(s: Snapshot, a: Outputs, b: Outputs)
    requires a.Keys == b.Keys && Stranded(s, a)
    ensures Stranded(s, b)
  {
    if Occupied(s.root, a) {
      var n :| n in a && n in s.root;
      assert n in b;
    }
  }

  /** A first publication that dies after its first root file, or between
      `.aggregate-current.json` and the marker, strands the directory: no later publication of
      the format completes, whatever it publishes and however often it is tried. */
  method StrandedForGood(
      ghost names: Names, format: Format, id: string, a: Outputs, order: seq<Name>, early: bool, later: seq<Attempt>)
    returns (d: BatchRoot, results: seq<Result>)
    requires a.Keys == names(format) && order != [] && forall n :: n in order <==> n in a
    requires forall i | 0 <= i < |later| :: later[i].outputs.Keys == names(format)
    ensures |results| == |later|
    ensures forall i | 0 <= i < |later| :: results[i] != Published && (later[i].fates == [] ==> results[i] == Refused)
  {
    d := FirstPublication(names, format, id, a, order);
    var at: nat :| at < |d.trace| && d.trace[at].owner == Absent
                && if early then order[0] in d.trace[at].root else d.trace[at].pointer.Some?;
    d.Crash(at);
    results := [];
    for i := 0 to |later|
      invariant d.Valid() && d.names == names && Stranded(d.Now(), a) && |results| == i
      invariant forall j | 0 <= j < i :: results[j] != Published && (later[j].fates == [] ==> results[j] == Refused)
    {
      StrandedByNames(d.Now(), a, later[i].outputs);
      var r := OneMoreTry(d, format, later[i]);
      StrandedByNames(d.Now(), later[i].outputs, a);
      results := results + [r];
    }
  }
}
