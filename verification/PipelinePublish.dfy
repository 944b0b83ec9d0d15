/** Publishing one stage: back up, replace, record, and on failure roll back. */
module PipelinePublish {
  import opened Bytes
  import opened PipelineModel
  import opened PipelineDisk
  import T = Text

  // ---- Rollback ------------------------------------------------------------------

  /** A file moved to the scratch directory, and where it came from. */
  datatype Backup = Backup(path: Path, data: bytes)

  /** `files` after putting the backups back, the latest first. */
  function Restored(files: Files, backups: seq<Backup>): Files
    decreases |backups|
  {
    if backups == [] then files else
      var b := backups[|backups| - 1];
      Restored(files[b.path := b.data], backups[..|backups| - 1])
  }

  function Without(files: Files, paths: seq<Path>): Files
  {
    if paths == [] then files else Without(files, paths[..|paths| - 1]) - {paths[|paths| - 1]}
  }

  lemma {:induction false} WithoutIs(files: Files, paths: seq<Path>)
    ensures Without(files, paths) == files - set p | p in paths
  {
    if paths != [] {
      var rest, p := paths[..|paths| - 1], paths[|paths| - 1];
      WithoutIs(files, rest);
      assert (set q | q in paths) == (set q | q in rest) + {p} by { assert paths == rest + [p]; }
    }
  }

  lemma {:induction false} RestoredElsewhere(files: Files, backups: seq<Backup>, p: Path, data: bytes)
    requires forall i | 0 <= i < |backups| :: backups[i].path != p
    ensures Restored(files[p := data], backups) == Restored(files, backups)[p := data]
    ensures p in Restored(files, backups) <==> p in files
    decreases |backups|
  {
    if backups != [] {
      var b := backups[|backups| - 1];
      RestoredElsewhere(files[b.path := b.data], backups[..|backups| - 1], p, data);
      assert files[p := data][b.path := b.data] == files[b.path := b.data][p := data];
    }
  }

  lemma BackedUp(files: Files, backups: seq<Backup>, p: Path, published: seq<Path>)
    requires p in files && p !in published
    ensures Restored(Without(files - {p}, published), backups + [Backup(p, files[p])]) ==
            Restored(Without(files, published), backups)
  {
    var all := backups + [Backup(p, files[p])];
    assert all[..|all| - 1] == backups;
    WithoutIs(files - {p}, published);
    WithoutIs(files, published);
    assert Without(files - {p}, published)[p := files[p]] == Without(files, published);
  }

  lemma PlacedAt(files: Files, p: Path, data: bytes, published: seq<Path>)
    requires p !in files
    ensures Without(files[p := data], published + [p]) == Without(files, published)
    ensures p !in published ==> Without(files[p := data], published) == Without(files, published)[p := data]
  {
    WithoutIs(files[p := data], published + [p]);
    WithoutIs(files[p := data], published);
    WithoutIs(files, published);
  }

  /** Files the publisher makes private, one failing step after placing them. */
  predicate Private(p: Path)
  {
    |p.text| >= 14 && p.text[|p.text| - 14..] == ".private.jsonl"
  }

  /** Two file sets differ only at `paths`. */
  ghost predicate SameBut(a: Files, b: Files, paths: set<Path>)
  {
    forall q | q !in paths :: (q in a <==> q in b) && (q in a ==> a[q] == b[q])
  }

  /** How a publication ends. */
  datatype Published = Complete | Refused(code: string) | Interrupted

  datatype Placing = Placing(backups: seq<Backup>, published: seq<Path>)

  /** Rolling back from here gives `before`. */
  ghost predicate Undoes(files: Files, w: Placing, before: Files)
  {
    Restored(Without(files, w.published), w.backups) == before
  }

  /** Moves one file, if it is there, to the scratch directory. */
  method SetAside(disk: Disk, p: Path, w: Placing, ghost before: Files) returns (e: Effect, w': Placing)
    requires disk.Valid() && Undoes(disk.files, w, before) && p !in w.published
    modifies disk`files, disk`trace, disk`calm
    ensures disk.Valid() && disk.calm == (old(disk.calm) && e == Done)
    ensures e == Done ==> disk.files == old(disk.files) - {p}
    ensures e == Raised ==> disk.files == old(disk.files)
    ensures e != Escaped ==> Undoes(disk.files, w', before)
    ensures w'.published == w.published
    ensures e == Done && p in old(disk.files) ==> w'.backups == w.backups + [Backup(p, old(disk.files)[p])]
    ensures !(e == Done && p in old(disk.files)) ==> w'.backups == w.backups
    ensures SameBut(old(disk.files), disk.files, {p})
  {
    w' := w;
    if p !in disk.files { return Done, w; }
    e := disk.Chance();
    if e != Done { return; }
    ghost var here := disk.files;
    var data;
    e, data := disk.MoveOut(p);
    if e == Done {
      BackedUp(here, w.backups, p, w.published);
      w' := Placing(w.backups + [Backup(p, data)], w.published);
    }
  }

  /** The first `i` stale files are gone and can still be put back. */
  ghost predicate Retired(files: Files, w: Placing, start: Files, stale: seq<Path>, i: nat)
  {
    && i <= |stale| && files == Without(start, stale[..i]) && Undoes(files, w, start)
    && w.published == [] && forall j | 0 <= j < |w.backups| :: w.backups[j].path in stale
  }

  lemma WithoutSame(files: Files, paths: seq<Path>, i: nat, all: set<Path>)
    requires i <= |paths| && forall p | p in paths :: p in all
    ensures SameBut(files, Without(files, paths[..i]), all)
  {
    WithoutIs(files, paths[..i]);
  }

  method RetireNext(disk: Disk, stale: seq<Path>, i: nat, w: Placing, ghost start: Files)
    returns (e: Effect, w': Placing)
    requires disk.Valid() && i < |stale| && Retired(disk.files, w, start, stale, i)
    modifies disk`files, disk`trace, disk`calm
    ensures disk.Valid() && disk.calm == (old(disk.calm) && e == Done)
    ensures e == Done ==> Retired(disk.files, w', start, stale, i + 1)
    ensures e != Escaped ==> Undoes(disk.files, w', start)
    ensures SameBut(old(disk.files), disk.files, {stale[i]})
  {
    assert stale[..i + 1][..i] == stale[..i] && stale[i] in stale;
    e, w' := SetAside(disk, stale[i], w, start);
  }

  /** Removes the files the stage owned before and no longer produces. */
  method RetireStale(disk: Disk, stale: seq<Path>, ghost owned: set<Path>) returns (e: Effect, w: Placing)
    requires disk.Valid() && forall p | p in stale :: p in owned
    modifies disk`files, disk`trace, disk`calm
    ensures disk.Valid() && disk.calm == (old(disk.calm) && e == Done)
    ensures e == Done ==> disk.files == Without(old(disk.files), stale)
    ensures e != Escaped ==> Undoes(disk.files, w, old(disk.files))
    ensures e == Done ==> w.published == [] && forall i | 0 <= i < |w.backups| :: w.backups[i].path in stale
    ensures SameBut(old(disk.files), disk.files, owned)
  {
    w := Placing([], []);
    ghost var start := disk.files;
    for i := 0 to |stale|
      invariant disk.Valid() && disk.calm == old(disk.calm) && Retired(disk.files, w, start, stale, i)
    {
      WithoutSame(start, stale, i, owned);
      assert stale[i] in stale;
      e, w := RetireNext(disk, stale, i, w, start);
      if e != Done { return; }
    }
    assert stale[..|stale|] == stale;
    WithoutSame(start, stale, |stale|, owned);
    e := Done;
  }

  ghost predicate Fits(w: Placing, p: Path)
  {
    p !in w.published && forall i | 0 <= i < |w.backups| :: w.backups[i].path != p
  }

  /** Publishes one staged artifact: back up what is there, move in, make private. Only a
      failed `chmod` on a file that was not there before escapes the rollback. */
  method PlaceOne(disk: Disk, p: Path, data: bytes, w: Placing, ghost before: Files)
    returns (e: Effect, w': Placing, ghost leftover: Option<Path>)
    requires disk.Valid() && Undoes(disk.files, w, before) && Fits(w, p)
    modifies disk`files, disk`trace, disk`calm
    ensures disk.Valid() && disk.calm == (old(disk.calm) && e == Done)
    ensures e == Done ==>
              disk.files == old(disk.files)[p := data] && w'.published == w.published + [p]
                  && Undoes(disk.files, w', before)
    ensures e == Raised && leftover.None? ==> Undoes(disk.files, w', before)
    ensures e == Raised && leftover.Some? ==>
              leftover == Some(p) && Private(p) && p !in before && Undoes(disk.files, w', before[p := data])
    ensures w'.backups == w.backups || (p in old(disk.files)
        && w'.backups == w.backups + [Backup(p, old(disk.files)[p])])
    ensures SameBut(old(disk.files), disk.files, {p})
  {
    leftover := None;
    w' := w;
    e := disk.Chance();
    if e != Done { return; }
    ghost var start := disk.files;
    OneKey(start, p, data);
    e, w' := SetAside(disk, p, w, before);
    if e != Done { return; }
    ghost var cleared := disk.files;
    e := disk.MoveIn(p, data);
    if e != Done { return; }
    PlacedAt(cleared, p, data, w.published);
    if Private(p) {
      e := disk.Chance();
      if e == Raised {
        if p in start {
          UndoneByBackup(start, w, p, data, before);
        } else {
          leftover := Some(p);
          RestoredElsewhere(Without(cleared, w.published), w.backups, p, data);
        }
      }
      if e != Done { return; }
    }
    w' := Placing(w'.backups, w.published + [p]);
  }

  /** A backup restores a file even when the new one was never recorded as published. */
  lemma UndoneByBackup(files: Files, w: Placing, p: Path, data: bytes, before: Files)
    requires p in files && p !in w.published && Undoes(files, w, before)
    ensures Undoes((files - {p})[p := data], Placing(w.backups + [Backup(p, files[p])], w.published), before)
  {
    var all := w.backups + [Backup(p, files[p])];
    assert all[..|all| - 1] == w.backups;
    WithoutIs((files - {p})[p := data], w.published);
    WithoutIs(files, w.published);
    assert Without((files - {p})[p := data], w.published)[p := files[p]] == Without(files, w.published);
  }

  /** A failed `chmod` comes after the file is in place and before it is recorded: rolling
      back then restores the directory exactly when the file was there before. */
  lemma ChmodFailureUndone(files: Files, w: Placing, p: Path, data: bytes, before: Files)
    requires Undoes(files, w, before) && Fits(w, p)
    ensures var w' := if p in files then Placing(w.backups + [Backup(p, files[p])], w.published) else w;
            Undoes((files - {p})[p := data], w', before) <==> p in files
  {
    if p in files {
      UndoneByBackup(files, w, p, data, before);
    } else {
      PlacedAt(files, p, data, w.published);
      WithoutIs(files, w.published);
      RestoredElsewhere(Without(files, w.published), w.backups, p, data);
      assert files - {p} == files && p !in before;
    }
  }

  /** `files` with the `out` artifacts of `paths` put in place. */
  function PutAll(files: Files, out: Files, paths: seq<Path>): Files
  {
    if paths == [] then files else
      var p := paths[|paths| - 1];
      var rest := PutAll(files, out, paths[..|paths| - 1]);
      if p in out then rest[p := out[p]] else rest
  }

  lemma {:induction false} PutAllAt(files: Files, out: Files, paths: seq<Path>, q: Path)
    ensures q in out && q in paths ==> q in PutAll(files, out, paths) && PutAll(files, out, paths)[q] == out[q]
    ensures q !in out || q !in paths ==>
              (q in PutAll(files, out, paths) <==> q in files)
                  && (q in files ==> PutAll(files, out, paths)[q] == files[q])
  {
    if paths != [] {
      assert paths == paths[..|paths| - 1] + [paths[|paths| - 1]];
      PutAllAt(files, out, paths[..|paths| - 1], q);
    }
  }

  /** The paths to place are those of the artifacts. */
  ghost predicate PathsOf(paths: seq<Path>, out: Files)
  {
    forall p :: p in paths <==> p in out
  }

  lemma PutAllSum(files: Files, out: Files, paths: seq<Path>)
    requires PathsOf(paths, out)
    ensures PutAll(files, out, paths) == files + out
  {
    forall q ensures q in PutAll(files, out, paths) <==> q in files + out
             ensures q in files + out ==> PutAll(files, out, paths)[q] == (files + out)[q]
    {
      PutAllAt(files, out, paths, q);
    }
  }

  lemma PutAllSame(files: Files, out: Files, paths: seq<Path>)
    ensures SameBut(files, PutAll(files, out, paths), out.Keys)
  {
    forall q | q !in out ensures (q in files <==> q in PutAll(files, out, paths))
        && (q in files ==> files[q] == PutAll(files, out, paths)[q]) {
      PutAllAt(files, out, paths, q);
    }
  }

  /** Placement reached path `i`: the paths still to come were neither published nor backed up. */
  ghost predicate ClearFrom(w: Placing, paths: seq<Path>, i: nat)
  {
    && i <= |paths| && w.published == paths[..i]
    && forall j, k | 0 <= j < |w.backups| && i <= k < |paths| :: w.backups[j].path != paths[k]
  }

  lemma ClearNext(w: Placing, w': Placing, paths: seq<Path>, i: nat, b: Backup)
    requires T.Ascending(paths) && ClearFrom(w, paths, i) && i < |paths|
    requires w'.published == w.published + [paths[i]]
    requires w'.backups == w.backups || w'.backups == w.backups + [b]
    requires b.path == paths[i]
    ensures ClearFrom(w', paths, i + 1)
  {
    assert paths[..i + 1] == paths[..i] + [paths[i]];
  }

  lemma ClearFits(w: Placing, paths: seq<Path>, i: nat)
    requires T.Ascending(paths) && ClearFrom(w, paths, i) && i < |paths|
    ensures Fits(w, paths[i])
  {
  }

  /** The first `i` artifacts are in place and can still be undone. */
  ghost predicate Placed(files: Files, w: Placing, start: Files, paths: seq<Path>, i: nat, out: Files, before: Files)
  {
    ClearFrom(w, paths, i) && files == PutAll(start, out, paths[..i]) && Undoes(files, w, before)
  }

  /** A failed placement can be undone, but for a private file that was not there before. */
  ghost predicate Recoverable(files: Files, w: Placing, out: Files, before: Files, leftover: Option<Path>)
  {
    match leftover
    case None => Undoes(files, w, before)
    case Some(p) => Private(p) && p in out && p !in before && Undoes(files, w, before[p := out[p]])
  }

  lemma PlacedNext(files: Files, w: Placing, w': Placing, start: Files, paths: seq<Path>, i: nat,
                                      out: Files, before: Files, b: Backup)
    requires i < |paths| && paths[i] in out && T.Ascending(paths) && Placed(files, w, start, paths, i, out, before)
    requires w'.published == w.published + [paths[i]] && b.path == paths[i]
    requires w'.backups == w.backups || w'.backups == w.backups + [b]
    requires Undoes(files[paths[i] := out[paths[i]]], w', before)
    ensures Placed(files[paths[i] := out[paths[i]]], w', start, paths, i + 1, out, before)
  {
    ClearNext(w, w', paths, i, b);
    assert paths[..i + 1][..i] == paths[..i];
  }

  method PlaceNext(
      disk: Disk, paths: seq<Path>, i: nat, out: Files, w: Placing, ghost start: Files, ghost before: Files)
    returns (e: Effect, w': Placing, ghost leftover: Option<Path>)
    requires disk.Valid() && T.Ascending(paths) && PathsOf(paths, out)
    requires i < |paths| && Placed(disk.files, w, start, paths, i, out, before)
    modifies disk`files, disk`trace, disk`calm
    ensures disk.Valid() && disk.calm == (old(disk.calm) && e == Done)
    ensures e == Done ==> Placed(disk.files, w', start, paths, i + 1, out, before)
    ensures e == Raised ==> Recoverable(disk.files, w', out, before, leftover)
    ensures e != Done ==> SameBut(start, disk.files, out.Keys)
  {
    var p := paths[i];
    assert p in paths;
    ghost var here := disk.files;
    PutAllSame(start, out, paths[..i]);
    ClearFits(w, paths, i);
    e, w', leftover := PlaceOne(disk, p, out[p], w, before);
    if e == Done {
      PlacedNext(here, w, w', start, paths, i, out, before, Backup(p, if p in here then here[p] else []));
    }
  }

  /** Puts the staged artifacts in place in path order. */
  method PlaceNew(disk: Disk, paths: seq<Path>, out: Files, w0: Placing, ghost before: Files)
    returns (e: Effect, w: Placing, ghost leftover: Option<Path>)
    requires disk.Valid() && T.Ascending(paths) && PathsOf(paths, out)
    requires ClearFrom(w0, paths, 0) && Undoes(disk.files, w0, before)
    modifies disk`files, disk`trace, disk`calm
    ensures disk.Valid() && disk.calm == (old(disk.calm) && e == Done)
    ensures e == Done ==> disk.files == old(disk.files) + out && Undoes(disk.files, w, before)
    ensures e == Raised ==> Recoverable(disk.files, w, out, before, leftover)
    ensures SameBut(old(disk.files), disk.files, out.Keys)
  {
    e, w, leftover := Done, w0, None;
    ghost var start := disk.files;
    for i := 0 to |paths|
      invariant disk.Valid() && disk.calm == old(disk.calm) && Placed(disk.files, w, start, paths, i, out, before)
    {
      e, w, leftover := PlaceNext(disk, paths, i, out, w, start, before);
      if e != Done { return; }
    }
    assert paths[..|paths|] == paths;
    PutAllSum(start, out, paths);
    e, leftover := Done, None;
  }

  method RollBack(disk: Disk, w: Placing, ghost target: Files)
    requires disk.Valid() && Undoes(disk.files, w, target)
    modifies disk`files, disk`trace
    ensures disk.Valid()
    ensures disk.files == target
  {
    for i := 0 to |w.published|
      invariant disk.Valid()
      invariant disk.files == Without(old(disk.files), w.published[..i])
    {
      assert w.published[..i + 1][..i] == w.published[..i];
      disk.Unlink(w.published[i]);
    }
    assert w.published[..|w.published|] == w.published;
    var n := |w.backups|;
    assert w.backups[..n] == w.backups;
    while n > 0
      invariant 0 <= n <= |w.backups|
      invariant disk.Valid()
      invariant Restored(disk.files, w.backups[..n]) == target
    {
      n := n - 1;
      assert w.backups[..n + 1][..n] == w.backups[..n];
      disk.PutBack(w.backups[n].path, w.backups[n].data);
    }
  }

  lemma OneKey<K, V>(m: map<K, V>, k: K, v: V)
    ensures (m - {k})[k := v] == m[k := v] && m[k := v] - {k} == m - {k} && m - {k} - {k} == m - {k}
    ensures k in m ==> (m - {k})[k := m[k]] == m && m[k := v][k := m[k]] == m
    ensures k !in m ==> m - {k} == m
  {
  }

  function Lookup<K, V>(m: map<K, V>, k: K): Option<V>
  {
    if k in m then Some(m[k]) else None
  }

  function Undone(manifests: map<Stage, Manifest>, s: Stage, was: Option<Manifest>): map<Stage, Manifest>
  {
    if was.Some? then (manifests - {s})[s := was.value] else manifests - {s}
  }

  lemma SwapUndone(before: map<Stage, Manifest>, m: Manifest)
    ensures Undone(before[m.stage := m], m.stage, Lookup(before, m.stage)) == before
    ensures Undone(before - {m.stage}, m.stage, Lookup(before, m.stage)) == before
    ensures (before - {m.stage})[m.stage := m] == before[m.stage := m]
    ensures m.stage !in before ==> before - {m.stage} == before
  {
  }

  /** How far replacing a manifest got, for undoing it. */
  datatype Swap = Untouched | Touched(was: Option<Manifest>)

  /** Replaces the stage manifest. */
  method SwapManifest(disk: Disk, m: Manifest) returns (e: Effect, swap: Swap)
    requires disk.Valid() && Genuine(disk.exec, m)
    modifies disk`manifests, disk`trace, disk`calm
    ensures disk.Valid() && disk.calm == (old(disk.calm) && e == Done)
    ensures e == Done ==> disk.manifests == old(disk.manifests)[m.stage := m]
    ensures swap == Untouched || swap == Touched(Lookup(old(disk.manifests), m.stage))
    ensures e == Raised && swap.Untouched? ==> disk.manifests == old(disk.manifests)
    ensures e == Raised && swap.Touched? ==> Undone(disk.manifests, m.stage, swap.was) == old(disk.manifests)
  {
    swap := Untouched;
    SwapUndone(disk.manifests, m);
    var was := Lookup(disk.manifests, m.stage);
    e := disk.Chance();
    if e != Done { return; }
    if was.Some? {
      e := disk.TakeManifest(m.stage);
      if e != Done { return; }
    }
    swap := Touched(was);
    e := disk.PutManifest(m);
    if e == Done { e := disk.Chance(); }
  }

  method UndoSwap(disk: Disk, s: Stage, swap: Swap)
    requires disk.Valid()
    requires swap.Touched? && swap.was.Some? ==> swap.was.value.stage == s && Genuine(disk.exec, swap.was.value)
    modifies disk`manifests, disk`trace
    ensures disk.Valid()
    ensures disk.manifests == if swap.Touched? then Undone(old(disk.manifests), s, swap.was) else old(disk.manifests)
  {
    if swap.Touched? {
      disk.DropManifest(s);
      if swap.was.Some? { disk.ReturnManifest(swap.was.value); }
    }
  }

  // ---- A publication ---------------------------------------------------------------

  /** The paths the stage owned according to its prior manifest. */
  function OldPaths(prior: map<Stage, Manifest>, s: Stage): set<Path>
  {
    if s in prior then set i | 0 <= i < |prior[s].artifacts| :: prior[s].artifacts[i].path else {}
  }

  /** The directory after a publication: what the stage owned is gone, the new files are in. */
  function Superseded(files: Files, owned: set<Path>, out: Files): Files
  {
    (files - owned) + out
  }

  lemma OnlyUnplacedMatter(files: Files, gone: set<Path>, owned: set<Path>, out: Files)
    requires gone == owned - out.Keys
    ensures files - gone + out == Superseded(files, owned, out)
  {
    var a, b := files - gone + out, Superseded(files, owned, out);
    assert a.Keys == b.Keys by { assert files.Keys - gone + out.Keys == files.Keys - owned + out.Keys; }
    forall q | q in a ensures a[q] == b[q] {
      if q !in out { assert q in files - gone && q in files - owned; }
    }
  }

  lemma NewContents(files: Files, owned: set<Path>, out: Files)
    ensures Without(files, T.Sorted(owned - out.Keys)) + out == Superseded(files, owned, out)
  {
    var stale := T.Sorted(owned - out.Keys);
    WithoutIs(files, stale);
    T.SortedElements(owned - out.Keys);
    assert (set p | p in stale) == owned - out.Keys;
    OnlyUnplacedMatter(files, (set p | p in stale), owned, out);
  }

  /** Replaces the files and the manifest; reports what a rollback would need. */
  method Replace(disk: Disk, ghost owned: set<Path>, stale: seq<Path>, out: Files, m: Manifest)
    returns (e: Effect, w: Placing, swap: Swap, ghost leftover: Option<Path>)
    requires disk.Valid() && Genuine(disk.exec, m) && forall p | p in stale :: p !in out && p in owned
    modifies disk`files, disk`manifests, disk`trace, disk`calm
    ensures disk.Valid() && disk.calm == (old(disk.calm) && e == Done)
    ensures e == Done ==>
        disk.files == Without(old(disk.files), stale) + out && disk.manifests == old(disk.manifests)[m.stage := m]
    ensures e == Raised ==> Recoverable(disk.files, w, out, old(disk.files), leftover)
    ensures swap == Untouched || swap == Touched(Lookup(old(disk.manifests), m.stage))
    ensures e == Raised && swap.Untouched? ==> disk.manifests == old(disk.manifests)
    ensures e == Raised && swap.Touched? ==> Undone(disk.manifests, m.stage, swap.was) == old(disk.manifests)
    ensures SameBut(old(disk.files), disk.files, owned + out.Keys)
  {
    swap, leftover := Untouched, None;
    ghost var before := disk.files;
    e, w := RetireStale(disk, stale, owned);
    if e != Done { return; }
    var paths := T.Sorted(out.Keys);
    T.SortedElements(out.Keys);
    e, w, leftover := PlaceNew(disk, paths, out, w, before);
    if e != Done { return; }
    leftover := None;
    e, swap := SwapManifest(disk, m);
  }

  /** What a refused publication leaves: nothing changed, but for at most one private
      artifact that was not there before. */
  ghost predicate Unpublished(before: Files, after: Files, out: Files)
  {
    || after == before
    || exists p :: Private(p) && p in out && p !in before && after == before[p := out[p]]
  }

  lemma UnpublishedElsewhere(before: Files, after: Files, owned: set<Path>, out: Files)
    requires Unpublished(before, after, out)
    ensures SameBut(before, after, owned + out.Keys)
  {
  }

  /** The files a rollback ends with. */
  ghost function RolledBack(before: Files, out: Files, leftover: Option<Path>): Files
    requires leftover.Some? ==> leftover.value in out
  {
    if leftover.None? then before else before[leftover.value := out[leftover.value]]
  }

  method UndoAll(
      disk: Disk, w: Placing, s: Stage, swap: Swap, out: Files, ghost before: Files, ghost leftover: Option<Path>)
    requires disk.Valid() && Recoverable(disk.files, w, out, before, leftover)
    requires swap.Touched? && swap.was.Some? ==> swap.was.value.stage == s && Genuine(disk.exec, swap.was.value)
    modifies disk`files, disk`manifests, disk`trace
    ensures disk.Valid() && Unpublished(before, disk.files, out)
    ensures disk.manifests == if swap.Touched? then Undone(old(disk.manifests), s, swap.was) else old(disk.manifests)
  {
    RollBack(disk, w, RolledBack(before, out, leftover));
    UndoSwap(disk, s, swap);
  }

  /** Replaces what the stage owned by its new files, or rolls back. */
  method Commit(disk: Disk, owned: set<Path>, out: Files, m: Manifest) returns (e: Effect)
    requires disk.Valid() && Genuine(disk.exec, m)
    modifies disk`files, disk`manifests, disk`trace, disk`calm
    ensures disk.Valid() && disk.calm == (old(disk.calm) && e == Done)
    ensures e == Done ==>
        disk.files == Superseded(old(disk.files), owned, out) && disk.manifests == old(disk.manifests)[m.stage := m]
    ensures e == Raised ==> disk.manifests == old(disk.manifests) && Unpublished(old(disk.files), disk.files, out)
    ensures SameBut(old(disk.files), disk.files, owned + out.Keys)
  {
    var stale := T.Sorted(owned - out.Keys);
    T.SortedElements(owned - out.Keys);
    NewContents(disk.files, owned, out);
    ghost var before := disk.files;
    disk.InvNow();
    var w, swap;
    ghost var leftover;
    e, w, swap, leftover := Replace(disk, owned, stale, out, m);
    if e == Raised {
      UndoAll(disk, w, m.stage, swap, out, before, leftover);
      UnpublishedElsewhere(before, disk.files, owned, out);
    }
  }

  /** Publishes one stage: all of it or nothing. */
  method Publish(disk: Disk, prior: map<Stage, Manifest>, fp: Fingerprint, out: Files, stamp: int)
    returns (r: Published, m: Manifest)
    requires disk.Valid() && disk.exec(fp, Upstream(fp)) == Some(out)
    modifies disk`files, disk`manifests, disk`trace, disk`calm
    ensures disk.Valid() && disk.calm == (old(disk.calm) && (r.Complete? || out == map[]))
    ensures r.Complete? ==>
              && out != map[] && Genuine(disk.exec, m)
              && m == Manifest(
                   fp.stage, fp, Listing(out, fp.schemaVersion), OutputHash(Listing(out, fp.schemaVersion)), stamp)
              && disk.files == Superseded(old(disk.files), OldPaths(prior, fp.stage), out)
              && disk.manifests == old(disk.manifests)[fp.stage := m]
    ensures r.Complete? ==>
              && (forall p | p in out :: p in disk.files && disk.files[p] == out[p])
              && (fp.stage in prior ==> forall k | 0 <= k < |prior[fp.stage].artifacts| ::
                    var p := prior[fp.stage].artifacts[k].path; p in disk.files ==> p in out)
    ensures r.Refused? ==> disk.manifests == old(disk.manifests) && Unpublished(old(disk.files), disk.files, out)
    ensures SameBut(old(disk.files), disk.files, OldPaths(prior, fp.stage) + out.Keys)
  {
    var artifacts := Listing(out, fp.schemaVersion);
    m := Manifest(fp.stage, fp, artifacts, OutputHash(artifacts), stamp);
    if out == map[] { return Refused("ARTIFACT_EMPTY_STAGE"), m; }
    var e := disk.Chance();
    if e == Done { e := Commit(disk, OldPaths(prior, fp.stage), out, m); }
    r := if e == Done then Complete else if e == Raised then Refused("ANALYSIS_STAGE_FAILED") else Interrupted;
  }
}
