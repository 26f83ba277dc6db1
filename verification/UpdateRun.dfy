/** The self-update transaction on disk (genpi/updater.py), in-process path: stage and verify, back
    up, swap file by file, re-hash the live files, then restart or roll back. Every file operation
    consults a fault schedule, so any of them may fail, be torn, or be the last before a crash. */
module UpdateRun {
  import opened Prelude
  import opened PyString
  import VersionGate
  import UpdateGate

  type Path = string
  type Bytes = seq<int>
  type Tree = map<Path, Bytes>
  type Place = string -> int

  /** What happens to the n-th operation: it works; it raises without effect; it raises leaving other
      data behind; or it reports success although other data landed. The last two concern writes. */
  datatype Fault = Fine | Raise | Torn(data: Bytes) | Silent(data: Bytes)

  datatype File = File(path: Path, sha256: string)
  datatype Archive = Archive(entries: Tree, added: seq<Path>)
  datatype Stored = Stored(mtime: int, archive: Archive)

  datatype Manifest = Manifest(version: string, files: seq<File>, gates: VersionGate.Incompatible)

  /** What a run gets from outside: the fetched manifest (None: no usable answer), the downloads, the
      compiler's verdicts, the operator's decision at the go/no-go, and names and times. */
  datatype Inputs = Inputs(
    installed: string, manifest: Option<Manifest>, versionOk: bool, parse: VersionGate.IntParser,
    download: Path -> Option<Bytes>, compiles: Bytes -> bool,
    decision: UpdateGate.Choice, backupName: string, backupTime: int)

  const TEMP_SUFFIX := ".gpnew"
  const KEEP: nat := 20
  const SWAP_OPS: nat := 6     // mkdir, stat, copy, chmod, rename, stat
  const RENAME_OP: nat := 4    // the rename's place among them

  function Paths(files: seq<File>): set<Path> {
    set f | f in files :: f.path
  }

  function CountPresent(files: seq<File>, t: Tree): nat {
    if files == [] then 0 else CountPresent(files[..|files| - 1], t) + (if files[|files| - 1].path in t then 1 else 0)
  }

  function Temp(p: Path): Path {
    p + TEMP_SUFFIX
  }

  predicate IsTemp(paths: set<Path>, q: Path) {
    exists p :: p in paths && q == Temp(p)
  }

  /** No manifest path is the temporary of another. */
  predicate TempsApart(paths: set<Path>) {
    forall p, q :: p in paths && q in paths ==> q != Temp(p)
  }

  /** Same presence and contents at p. */
  predicate SameAt(s: Tree, t: Tree, p: Path) {
    (p in s <==> p in t) && (p in s ==> s[p] == t[p])
  }

  /** Outside the given paths and their temporaries nothing differs. */
  ghost predicate Frame(s: Tree, t: Tree, paths: set<Path>) {
    forall q :: q !in paths && !IsTemp(paths, q) ==> SameAt(s, t, q)
  }

  /** Every manifest path is wholly old or wholly new, everything else is untouched. */
  ghost predicate OldOrNew(before: Tree, staged: Tree, paths: set<Path>, t: Tree) {
    && (forall p :: p in paths ==> SameAt(t, before, p) || (p in t && p in staged && t[p] == staged[p]))
    && Frame(before, t, paths)
  }

  /** The archive holds the tree's present manifest files and lists the absent ones. */
  ghost predicate Captures(a: Archive, before: Tree, paths: set<Path>) {
    && (forall p :: p in a.entries <==> p in paths && p in before)
    && (forall p :: p in a.entries ==> a.entries[p] == before[p])
    && (forall p :: p in a.added <==> p in paths && p !in before)
  }

  /** No operation from `from` up to `to` reports success although other data landed. */
  ghost predicate Honest(faults: nat -> Fault, from: nat, to: nat) {
    forall n: nat :: from <= n < to ==> !faults(n).Silent?
  }

  /** Every operation from `from` up to `to` works. */
  ghost predicate FineDuring(faults: nat -> Fault, from: int, to: int) {
    forall n: nat :: from <= n < to ==> faults(n).Fine?
  }

  /** Of the operations from `from` to `to`, at most one did not work. */
  ghost predicate AtMostOneFault(faults: nat -> Fault, from: nat, to: nat) {
    forall m: nat, n: nat :: from <= m < n < to ==> faults(m).Fine? || faults(n).Fine?
  }

  class Machine {
    const faults: nat -> Fault
    const sha: Bytes -> string
    const place: Place          // where the backup directory lists a name
    var tick: nat
    var live: Tree
    var staging: Tree
    var archives: map<string, Stored>
    ghost var seen: seq<Tree>   // every state of the live tree so far

    constructor (faults: nat -> Fault, sha: Bytes -> string, place: Place, live: Tree, archives: map<string, Stored>)
      ensures this.live == live && this.archives == archives && staging == map[] && seen == [live]
      ensures this.faults == faults && this.sha == sha && this.place == place && tick == 0
    {
      this.faults, this.sha, this.place, tick := faults, sha, place, 0;
      this.live, staging, this.archives, seen := live, map[], archives, [live];
    }

    /** Every operation since `from` worked. */
    ghost predicate Smooth(from: nat)
      reads `tick
    {
      FineDuring(faults, from, tick)
    }

    // ----------------------------------------------------------- single operations

    method NextFault() returns (f: Fault)
      modifies `tick
      ensures f == faults(old(tick)) && tick == old(tick) + 1
    {
      f := faults(tick);
      tick := tick + 1;
    }

    /** mkdir, stat, chmod: nothing we track changes. */
    method Touch() returns (ok: bool)
      modifies `tick
      ensures tick == old(tick) + 1 && (Smooth(old(tick)) ==> ok)
    {
      var f := NextFault();
      ok := f.Fine? || f.Silent?;
    }

    method WriteLive(p: Path, data: Bytes) returns (ok: bool, ghost exact: bool)
      modifies `tick, `live, `seen
      ensures tick == old(tick) + 1 && seen == old(seen) + [live]
      ensures exact == faults(old(tick)).Fine? && (exact ==> ok)
      ensures live == old(live) || (p in live && live == old(live)[p := live[p]])
      ensures ok ==> p in live && live == old(live)[p := live[p]]
      ensures (ok && !faults(old(tick)).Silent?) || exact ==> live == old(live)[p := data]
    {
      var f := NextFault();
      exact := f.Fine?;
      match f {
        case Fine => live := live[p := data]; ok := true;
        case Raise => ok := false;
        case Torn(d) => live := live[p := d]; ok := false;
        case Silent(d) => live := live[p := d]; ok := true;
      }
      seen := seen + [live];
    }

    /** os.replace: atomic. */
    method Replace(temp: Path, p: Path) returns (ok: bool)
      requires temp != p
      modifies `tick, `live, `seen
      ensures tick == old(tick) + 1 && seen == old(seen) + [live]
      ensures Smooth(old(tick)) && temp in old(live) ==> ok
      ensures faults(old(tick)).Raise? ==> !ok
      ensures ok ==> temp in old(live) && live == (old(live) - {temp})[p := old(live)[temp]]
      ensures !ok ==> live == old(live)
    {
      var f := NextFault();
      ok := (f.Fine? || f.Silent?) && temp in live;
      if ok {
        live := (live - {temp})[p := live[temp]];
      }
      seen := seen + [live];
    }

    /** unlink: raises when the file is absent, too. */
    method Unlink(p: Path) returns (ok: bool, ghost exact: bool)
      modifies `tick, `live, `seen
      ensures tick == old(tick) + 1 && seen == old(seen) + [live]
      ensures live == old(live) || live == old(live) - {p}
      ensures exact == faults(old(tick)).Fine? && (exact ==> live == old(live) - {p})
    {
      var f := NextFault();
      exact := f.Fine?;
      ok := f.Fine? && p in live;
      if ok {
        live := live - {p};
      }
      seen := seen + [live];
    }

    method ReadLive(p: Path) returns (data: Option<Bytes>)
      modifies `tick
      ensures data.Some? ==> p in live && data.value == live[p]
      ensures tick == old(tick) + 1 && (Smooth(old(tick)) && p in live ==> data.Some?)
    {
      var f := NextFault();
      data := if (f.Fine? || f.Silent?) && p in live then Some(live[p]) else None;
    }

    // ----------------------------------------------------------- swap

    /** Copies each verified file beside its target and renames it over; stops at the first exception. */
    method Swap(files: seq<File>) returns (ok: bool)
      requires TempsApart(Paths(files)) && forall f :: f in files ==> f.path in staging
      modifies `tick, `live, `seen
      ensures |old(seen)| <= |seen| && seen[..|old(seen)|] == old(seen) && tick >= old(tick)
      ensures Frame(old(live), live, Paths(files)) && AllFramed(old(live), Paths(files), seen, |old(seen)|)
      ensures Honest(faults, old(tick), tick) ==>
                && OldOrNew(old(live), staging, Paths(files), live)
                && AllOldOrNew(old(live), staging, Paths(files), seen, |old(seen)|)
                && (ok ==> Landed(files, staging, live))
      ensures Smooth(old(tick)) ==> ok && Landed(files, staging, live)
      ensures forall k: nat :: k < |files| && RenameRaises(faults, old(tick), k) ==>
                !ok && Landed(files[..k], staging, live) && Untouched(files, k, old(live), live)
    {
      ghost var paths := Paths(files);
      ghost var before, from := live, tick;
      NothingSwapped(files, live, staging, seen);
      hide TempsApart, Frame, AllFramed, OldOrNew, AllOldOrNew, OneSwapped, Swapped, AllOneSwapped, AllSwapped;
      hide Untouched, RenameRaises, Landed, Paths;
      assert files[..0] == [];
      var i := 0;
      while i < |files|
        invariant 0 <= i <= |files| && tick == from + SWAP_OPS * i
        invariant |old(seen)| <= |seen| && seen[..|old(seen)|] == old(seen)
        invariant Frame(before, live, paths) && AllFramed(before, paths, seen, |old(seen)|)
        invariant Honest(faults, from, tick) ==>
                    && OldOrNew(before, staging, paths, live)
                    && AllOldOrNew(before, staging, paths, seen, |old(seen)|)
                    && Landed(files[..i], staging, live)
        invariant Untouched(files, i, before, live)
        invariant forall k: nat :: k < i ==> !RenameRaises(faults, from, k)
      {
        var p := files[i].path;
        assert files[i] in files && p in paths by { PathOf(files, i); }
        ghost var mid, was, start := live, seen, tick;
        ok := SwapOne(p);
        FrameStep(before, mid, live, p, paths);
        FramedStep(before, paths, mid, p, was, seen, |old(seen)|);
        HonestParts(faults, from, start, tick);
        if Honest(faults, from, tick) {
          OldOrNewStep(before, staging, paths, mid, live, p);
          TraceStep(before, staging, paths, mid, p, was, seen, |old(seen)|);
        }
        WhereItStops(faults, from, i, tick, ok);
        if !ok {
          SmoothParts(faults, from, start, tick);
          if RenameRaises(faults, from, i) {
            RaisesAfterHonest(faults, from, i);
            StopsHere(files, i, before, staging, mid, live);
          }
          return false;
        }
        UntouchedStep(files, i, before, mid, live);
        if Honest(faults, from, tick) {
          EarlierStay(files, i, mid, live, staging);
        }
        i := i + 1;
      }
      assert files[..i] == files;
      SmoothIsHonest(faults, from, tick);
      ok := true;
    }

    /** One file: mkdir, stat, copy to the temporary, chmod, rename, stat. */
    method SwapOne(p: Path) returns (ok: bool)
      requires p in staging
      modifies `tick, `live, `seen
      ensures |old(seen)| <= |seen| && seen[..|old(seen)|] == old(seen)
      ensures OneSwapped(old(live), live, p) && AllOneSwapped(old(live), seen, |old(seen)|, p)
      ensures Honest(faults, old(tick), tick) ==>
                && Swapped(old(live), live, p, staging[p])
                && AllSwapped(old(live), seen, |old(seen)|, p, staging[p])
                && (ok ==> p in live && live[p] == staging[p])
      ensures old(tick) <= tick <= old(tick) + SWAP_OPS && (ok ==> tick == old(tick) + SWAP_OPS)
      ensures (ok ==> p in live) && (Smooth(old(tick)) ==> ok)
      ensures RenameRaises(faults, old(tick), 0) ==> !ok && SameAt(old(live), live, p)
    {
      TempDiffers(p);
      ghost var before := live;
      ok := CopyBeside(p);
      if !ok { return; }
      ghost var copied := live;
      ok := Replace(Temp(p), p);
      if !ok { return; }
      forall q | q != p && q != Temp(p)
        ensures SameAt(before, live, q)
      {
        assert SameAt(before, copied, q) && SameAt(copied, live, q);
      }
      ok := Touch();                                   // the size reported in the log
    }

    /** The part up to the rename: only the temporary is written. */
    method CopyBeside(p: Path) returns (ok: bool)
      requires p in staging
      modifies `tick, `live, `seen
      ensures (seen == old(seen) && live == old(live)) || seen == old(seen) + [live]
      ensures forall q :: q != Temp(p) ==> SameAt(old(live), live, q)
      ensures old(tick) <= tick <= old(tick) + RENAME_OP && (ok ==> tick == old(tick) + RENAME_OP && Temp(p) in live)
      ensures ok && Honest(faults, old(tick), tick) ==> live[Temp(p)] == staging[p]
      ensures Smooth(old(tick)) ==> ok
    {
      ok := Touch();                                   // parent directories
      if !ok { return; }
      ok := Touch();                                   // size and mode of the live file
      if !ok { return; }
      ghost var exact;
      ok, exact := WriteLive(Temp(p), staging[p]);
      if !ok { return; }
      ok := Touch();                                   // chmod
    }

    // ----------------------------------------------------------- backup

    /** The manifest files that exist, and those that do not. */
    method Partition(files: seq<File>) returns (present: seq<Path>, added: seq<Path>)
      ensures forall p :: p in present <==> p in Paths(files) && p in live
      ensures forall p :: p in added <==> p in Paths(files) && p !in live
      ensures |present| == CountPresent(files, live)
    {
      present, added := [], [];
      var i := 0;
      while i < |files|
        invariant 0 <= i <= |files|
        invariant |present| == CountPresent(files[..i], live)
        invariant forall p :: p in present <==> p in Paths(files[..i]) && p in live
        invariant forall p :: p in added <==> p in Paths(files[..i]) && p !in live
      {
        PathsGrow(files, i);
        assert files[..i + 1][..i] == files[..i];
        hide Paths;
        if files[i].path in live { present := present + [files[i].path]; } else { added := added + [files[i].path]; }
        i := i + 1;
      }
      assert files[..i] == files;
    }

    /** Compresses the listed files; what lands may be wrong without notice. */
    method WriteEntries(present: seq<Path>) returns (entries: Option<Tree>)
      requires forall p :: p in present ==> p in live
      modifies `tick
      ensures entries.Some? ==> forall p :: p in entries.value <==> p in present
      ensures old(tick) <= tick <= old(tick) + 2 * |present| && (entries.Some? ==> tick == old(tick) + 2 * |present|)
      ensures Smooth(old(tick)) ==> entries.Some? && forall p :: p in present ==> entries.value[p] == live[p]
    {
      var e: Tree := map[];
      var i := 0;
      while i < |present|
        invariant 0 <= i <= |present|
        invariant forall p :: p in e <==> p in present[..i]
        invariant tick == old(tick) + 2 * i && (Smooth(old(tick)) ==> forall p :: p in present[..i] ==> e[p] == live[p])
      {
        var data := ReadLive(present[i]);
        var f := NextFault();
        if data.None? || f.Raise? || f.Torn? { return None; }
        e := e[present[i] := if f.Silent? then f.data else data.value];
        i := i + 1;
      }
      assert present[..i] == present;
      entries := Some(e);
    }

    method VerifyEntries(present: seq<Path>, entries: Tree) returns (ok: bool)
      requires forall p :: p in present ==> p in entries && p in live
      modifies `tick
      ensures ok ==> forall p :: p in present ==> sha(entries[p]) == sha(live[p])
      ensures old(tick) <= tick <= old(tick) + |present| && (ok ==> tick == old(tick) + |present|)
      ensures Smooth(old(tick)) && (forall p :: p in present ==> entries[p] == live[p]) ==> ok
    {
      var i := 0;
      while i < |present|
        invariant 0 <= i <= |present| && tick == old(tick) + i
        invariant forall k :: 0 <= k < i ==> sha(entries[present[k]]) == sha(live[present[k]])
      {
        var data := ReadLive(present[i]);
        if data.None? || sha(entries[present[i]]) != sha(data.value) { return false; }
        i := i + 1;
      }
      ok := true;
    }

    /** Writes the archive, reads it back and compares digests before anyone relies on it; then prunes. */
    method MakeBackup(files: seq<File>, name: string, mtime: int) returns (ok: bool)
      requires Injective(place)
      modifies `tick, `archives
      ensures ok && Collisionless(sha) && name in archives ==> Captures(archives[name].archive, live, Paths(files))
      ensures forall z :: z in archives && z != name ==> z in old(archives) && archives[z] == old(archives)[z]
      ensures Smooth(old(tick)) ==> ok && tick == old(tick) + BackupOps(files, live, old(archives), name)
      ensures old(tick) <= tick <= old(tick) + BackupOps(files, live, old(archives), name)
      ensures ok && HasRoom(place, old(archives), name, mtime) ==> name in archives
      ensures Smooth(old(tick)) ==> (name in archives <==> HasRoom(place, old(archives), name, mtime))
    {
      ghost var before, from := archives, tick;
      ok := WriteArchive(files, name, mtime);
      if !ok { return; }
      hide Captures, Ahead, Paths, CountPresent, Injective;
      AheadAfter(place, before, archives, name, mtime);
      ghost var start := tick;
      PruneBackups();
      SmoothParts(faults, from, start, tick);
    }

    method WriteArchive(files: seq<File>, name: string, mtime: int) returns (ok: bool)
      modifies `tick, `archives
      ensures ok ==>
                && name in archives && archives == old(archives)[name := archives[name]]
                && archives[name].mtime == mtime
      ensures !ok ==> forall z :: z in archives && z != name ==> z in old(archives) && archives[z] == old(archives)[z]
      ensures ok && Collisionless(sha) ==> Captures(archives[name].archive, live, Paths(files))
      ensures Smooth(old(tick)) ==> ok
      ensures old(tick) <= tick <= old(tick) + 3 + 3 * CountPresent(files, live)
      ensures ok ==> tick == old(tick) + 3 + 3 * CountPresent(files, live)
    {
      ok := Touch();                                   // the backup directory
      if !ok { return; }
      var present, added := Partition(files);
      var entries := WriteEntries(present);
      if entries.None? { return false; }
      ok := Touch();                                   // the list of added files
      if !ok { return; }
      archives := archives[name := Stored(mtime, Archive(entries.value, added))];
      ok := Touch();                                   // testzip
      if !ok { return; }
      ok := VerifyEntries(present, entries.value);
    }

    /** Lists the archives, reads each one's time, keeps the first KEEP in order and deletes the rest. A
        failed listing or time ends it, a failed deletion does not. */
    method PruneBackups()
      requires Injective(place)
      modifies `tick, `archives
      ensures forall z :: z in archives ==> z in old(archives) && archives[z] == old(archives)[z]
      ensures forall z :: z in old(archives) && Kept(place, old(archives), z) ==> z in archives
      ensures old(tick) <= tick <= old(tick) + PruneOps(|old(archives)|)
      ensures Smooth(old(tick)) ==> tick == old(tick) + PruneOps(|old(archives)|)
      ensures Smooth(old(tick)) ==> forall z :: z in archives <==> z in old(archives) && Kept(place, old(archives), z)
    {
      ghost var all, from := archives, tick;
      var ok := ReadTimes(|archives|);
      if !ok { return; }
      ghost var start := tick;
      var kept, rest := SelectNewest();
      KeptAreFirst(place, all, kept, rest);
      hide Kept, Injective;
      DeleteAll(rest);
      SmoothParts(faults, from, start, tick);
    }

    /** The listing, and one stat for each archive. */
    method ReadTimes(count: nat) returns (ok: bool)
      modifies `tick
      ensures old(tick) <= tick <= old(tick) + 1 + count && (ok ==> tick == old(tick) + 1 + count)
      ensures Smooth(old(tick)) ==> ok
    {
      ok := Touch();
      if !ok { return; }
      for i := 0 to count
        invariant tick == old(tick) + 1 + i
      {
        ok := Touch();
        if !ok { return; }
      }
      ok := true;
    }

    /** The first KEEP of the archives, newest first and in listing order among equals, and the rest. */
    method SelectNewest() returns (kept: set<string>, rest: set<string>)
      requires Injective(place)
      ensures kept + rest == archives.Keys && kept * rest == {} && |kept| + |rest| == |archives|
      ensures |kept| <= KEEP && (rest != {} ==> |kept| == KEEP)
      ensures forall y, z :: y in kept && z in rest ==> Precedes(place, archives, y, z)
    {
      kept, rest := {}, archives.Keys;
      while |kept| < KEEP && rest != {}
        invariant kept + rest == archives.Keys && kept * rest == {} && |kept| <= KEEP && |kept| + |rest| == |archives|
        invariant forall y, z :: y in kept && z in rest ==> Precedes(place, archives, y, z)
        decreases rest
      {
        var first := First(rest);
        rest := rest - {first};
        kept := kept + {first};
      }
    }

    method DeleteAll(names: set<string>)
      modifies `tick, `archives
      ensures tick == old(tick) + |names|
      ensures forall z :: z in archives ==> z in old(archives) && archives[z] == old(archives)[z]
      ensures forall z :: z in old(archives) && z !in archives ==> z in names
      ensures forall z :: z in names && z in archives ==> !Smooth(old(tick))
    {
      var rest := names;
      while rest != {}
        invariant rest <= names && old(tick) <= tick == old(tick) + |names| - |rest|
        invariant forall z :: z in archives ==> z in old(archives) && archives[z] == old(archives)[z]
        invariant forall z :: z in old(archives) && z !in archives ==> z in names
        invariant forall z :: z in names && z !in rest && z in archives ==> !Smooth(old(tick))
        decreases rest
      {
        var z :| z in rest;
        var f := NextFault();
        if f.Fine? || f.Silent? {
          archives := archives - {z};
        } else {
          assert !faults(tick - 1).Fine?;
        }
        rest := rest - {z};
      }
    }

    method First(names: set<string>) returns (first: string)
      requires names != {} && names <= archives.Keys && Injective(place)
      ensures first in names && forall y :: y in names && y != first ==> Precedes(place, archives, first, y)
    {
      first :| first in names;
      var todo := names - {first};
      while todo != {}
        invariant todo <= names && first in names && first !in todo
        invariant forall y :: y in names && y !in todo && y != first ==> Precedes(place, archives, first, y)
        decreases todo
      {
        var y :| y in todo;
        todo := todo - {y};
        if Precedes(place, archives, y, first) { first := y; }
      }
    }

    // ----------------------------------------------------------- rollback

    /** Deletes the added files, then extracts the backed-up ones over the live ones. Never raises; a
        failed open or extraction ends it. `clean`: the archive is there and every operation worked. */
    method Rollback(name: string) returns (ghost clean: bool)
      modifies `tick, `live, `seen
      ensures old(tick) < tick <= old(tick) + RollbackOps(archives, name)
      ensures (clean <==> name in archives && Smooth(old(tick)))
              && (clean ==> tick == old(tick) + RollbackOps(archives, name))
      ensures clean ==> name in archives && Restored(archives[name].archive, old(live), live)
      ensures name in archives ==> OnlyArchived(archives[name].archive, old(live), live)
      ensures name !in archives ==> live == old(live)
    {
      var f := NextFault();
      clean := f.Fine?;
      if !(f.Fine? || f.Silent?) || name !in archives {
        clean := false;
        return;
      }
      var archive := archives[name].archive;
      f := NextFault();
      clean := clean && f.Fine?;
      var added := if f.Fine? || f.Silent? then archive.added else [];
      ghost var was := live;
      ghost var gone := DeleteAdded(added);
      clean := clean && gone;
      DeletedIsPart(archive, added, was, live);
      ghost var mid := live;
      ghost var extracted := Extract(archive.entries);
      clean := clean && extracted;
      RollbackParts(archive, added, was, mid, live);
    }

    method DeleteAdded(added: seq<Path>) returns (ghost exact: bool)
      modifies `tick, `live, `seen
      ensures forall q :: q !in added ==> SameAt(old(live), live, q)
      ensures tick == old(tick) + |added| && (exact <==> Smooth(old(tick)))
      ensures exact ==> forall p :: p in added ==> p !in live
    {
      exact := true;
      ghost var was := live;
      var i := 0;
      while i < |added|
        invariant 0 <= i <= |added| && tick == old(tick) + i && (exact <==> Smooth(old(tick)))
        invariant forall q :: q !in added[..i] ==> SameAt(was, live, q)
        invariant exact ==> forall k :: 0 <= k < i ==> added[k] !in live
      {
        ghost var fine;
        var ok;
        ok, fine := Unlink(added[i]);
        exact := exact && fine;
        assert added[..i + 1] == added[..i] + [added[i]];
        i := i + 1;
      }
      assert added[..i] == added;
    }

    method Extract(entries: Tree) returns (ghost exact: bool)
      modifies `tick, `live, `seen
      ensures forall q :: q !in entries ==> SameAt(old(live), live, q)
      ensures old(tick) <= tick <= old(tick) + |entries| && (exact ==> tick == old(tick) + |entries|)
      ensures exact <==> Smooth(old(tick))
      ensures exact ==> forall p :: p in entries ==> p in live && live[p] == entries[p]
    {
      exact := true;
      var todo := entries.Keys;
      assert |todo| == |entries|;
      while todo != {}
        invariant todo <= entries.Keys && old(tick) <= tick == old(tick) + |entries| - |todo|
                  && (exact <==> Smooth(old(tick)))
        invariant forall q :: q !in entries ==> SameAt(old(live), live, q)
        invariant exact ==> forall p :: p in entries && p !in todo ==> p in live && live[p] == entries[p]
        decreases todo
      {
        var p :| p in todo;
        ghost var fine;
        var ok;
        FineStep(faults, old(tick), tick);
        ok, fine := WriteLive(p, entries[p]);
        exact := exact && fine;
        if !ok {
          exact := false;
          return;
        }
        todo := todo - {p};
      }
    }

    // ----------------------------------------------------------- staging and verification

    /** Downloads into a fresh staging area, then checks every digest and compiles every script. */
    method DownloadAndVerify(files: seq<File>, inp: Inputs) returns (ok: bool)
      modifies `tick, `staging
      ensures ok ==> Installed(files, staging, sha) && staging.Keys == Paths(files)
      ensures ok ==> files != [] && forall f :: f in files && EndsWith(f.path, ".py") ==> inp.compiles(staging[f.path])
      ensures old(tick) <= tick <= old(tick) + 1 + 2 * |files| && (ok ==> tick == old(tick) + 1 + 2 * |files|)
      ensures ok && Smooth(old(tick)) ==> forall f :: f in files ==> inp.download(f.path) == Some(staging[f.path])
      ensures Smooth(old(tick)) && files != [] && GoodDownloads(files, inp, sha) ==> ok
    {
      if |files| == 0 { return false; }
      ok := Download(files, inp.download);
      if !ok { return; }
      ok := VerifyStaged(files);
      if !ok { return; }
      var i := 0;
      while i < |files|
        invariant 0 <= i <= |files| && Installed(files, staging, sha) && tick == old(tick) + 1 + 2 * |files|
        invariant Smooth(old(tick)) ==> forall f :: f in files ==> inp.download(f.path) == Some(staging[f.path])
        invariant forall k :: 0 <= k < i && EndsWith(files[k].path, ".py") ==>
                    files[k].path in staging && inp.compiles(staging[files[k].path])
      {
        assert files[i] in files;
        if EndsWith(files[i].path, ".py") && !inp.compiles(staging[files[i].path]) { return false; }
        i := i + 1;
      }
    }

    method Download(files: seq<File>, download: Path -> Option<Bytes>) returns (ok: bool)
      modifies `tick, `staging
      ensures ok ==> forall f :: f in files ==> f.path in staging
      ensures staging.Keys <= Paths(files)
      ensures old(tick) <= tick <= old(tick) + 1 + |files| && (ok ==> tick == old(tick) + 1 + |files|)
      ensures Smooth(old(tick)) && (forall f :: f in files ==> download(f.path).Some?) ==> ok
      ensures ok && Smooth(old(tick)) ==> forall f :: f in files ==> download(f.path) == Some(staging[f.path])
    {
      staging := map[];
      ok := Touch();
      if !ok { return; }
      var i := 0;
      while i < |files|
        invariant 0 <= i <= |files| && staging.Keys <= Paths(files)
        invariant forall k :: 0 <= k < i ==> files[k].path in staging
        invariant tick == old(tick) + 1 + i
        invariant Smooth(old(tick)) ==>
                    forall k :: 0 <= k < i ==> download(files[k].path) == Some(staging[files[k].path])
      {
        assert files[i] in files;
        var data := download(files[i].path);
        var f := NextFault();
        if data.None? || f.Raise? || f.Torn? { return false; }
        staging := staging[files[i].path := if f.Silent? then f.data else data.value];
        i := i + 1;
      }
    }

    method VerifyStaged(files: seq<File>) returns (ok: bool)
      requires forall f :: f in files ==> f.path in staging
      modifies `tick
      ensures ok ==> Installed(files, staging, sha)
      ensures old(tick) <= tick <= old(tick) + |files| && (ok ==> tick == old(tick) + |files|)
      ensures Smooth(old(tick)) && Installed(files, staging, sha) ==> ok
    {
      var i := 0;
      while i < |files|
        invariant 0 <= i <= |files| && tick == old(tick) + i
        invariant forall k :: 0 <= k < i ==> files[k].path in staging && sha(staging[files[k].path]) == files[k].sha256
      {
        assert files[i] in files;
        ok := Touch();
        if !ok || sha(staging[files[i].path]) != files[i].sha256 { return false; }
        i := i + 1;
      }
      ok := true;
    }

    /** Re-hashes each live file after the swap. */
    method VerifySwap(files: seq<File>) returns (ok: bool)
      modifies `tick
      ensures ok ==> Installed(files, live, sha)
      ensures tick >= old(tick) && (Smooth(old(tick)) && Installed(files, live, sha) ==> ok)
    {
      var i := 0;
      while i < |files|
        invariant 0 <= i <= |files| && tick >= old(tick)
        invariant forall k :: 0 <= k < i ==> files[k].path in live && sha(live[files[k].path]) == files[k].sha256
      {
        assert files[i] in files;
        var data := ReadLive(files[i].path);
        if data.None? || sha(data.value) != files[i].sha256 { return false; }
        i := i + 1;
      }
      ok := true;
    }

    // ----------------------------------------------------------- the run

    /** Pruning will keep the run's archive. */
    predicate Room(inp: Inputs, all: map<string, Stored>) {
      HasRoom(place, all, inp.backupName, inp.backupTime)
    }

    /** Preflight, download and check, back up. */
    method Stage(files: seq<File>, inp: Inputs) returns (ok: bool)
      requires Injective(place)
      modifies `tick, `staging, `archives
      ensures ok ==> Installed(files, staging, sha) && files != [] && AllCompile(files, staging, inp.compiles)
      ensures ok && Collisionless(sha) && inp.backupName in archives ==>
                Captures(archives[inp.backupName].archive, live, Paths(files))
      ensures ok && Room(inp, old(archives)) ==> inp.backupName in archives
      ensures ok && Smooth(old(tick)) && inp.backupName in archives ==> Room(inp, old(archives))
      ensures old(tick) <= tick <= old(tick) + OpsBeforeSwap(files, live, old(archives), inp.backupName)
      ensures ok && Smooth(old(tick)) ==>
                && tick == old(tick) + OpsBeforeSwap(files, live, old(archives), inp.backupName)
                && Matches(files, inp.download, staging)
      ensures Smooth(old(tick)) && files != [] && GoodDownloads(files, inp, sha) ==> ok
    {
      hide Captures, HasRoom, BackupOps, GoodDownloads, Collisionless, Injective;
      ghost var from := tick;
      ok := Touch();                                   // preflight
      if !ok { return; }
      ghost var first := tick;
      ok := DownloadAndVerify(files, inp);
      if !ok { return; }
      ghost var second := tick;
      ok := MakeBackup(files, inp.backupName, inp.backupTime);
      SmoothParts(faults, from, second, tick);
    }

    /** The try block up to the go/no-go: None to go ahead, with everything staged and backed up. */
    method Prepare(inp: Inputs) returns (end: Option<End>)
      requires Injective(place)
      modifies `tick, `staging, `archives
      ensures end.Some? ==> end.value != Restarting
      ensures (end == Some(Refused) ==> staging == old(staging)) && (end == Some(Canceled) ==> staging == map[])
      ensures end.None? ==>
                && inp.manifest.Some? && Applicable(inp, inp.manifest.value) && inp.decision == UpdateGate.Proceed
                && Installed(inp.manifest.value.files, staging, sha)
                && AllCompile(inp.manifest.value.files, staging, inp.compiles)
                && (Collisionless(sha) && inp.backupName in archives ==>
                      Captures(archives[inp.backupName].archive, live, Paths(inp.manifest.value.files)))
                && (Room(inp, old(archives)) ==> inp.backupName in archives)
                && (Smooth(old(tick)) && inp.backupName in archives ==> Room(inp, old(archives)))
                && (Smooth(old(tick)) ==>
                      && tick == old(tick)
                                 + OpsBeforeSwap(inp.manifest.value.files, live, old(archives), inp.backupName)
                      && Matches(inp.manifest.value.files, inp.download, staging))
      ensures tick >= old(tick) && (Smooth(old(tick)) && Promising(inp, sha) ==> end.None?)
      ensures inp.manifest.Some? ==>
                tick <= old(tick) + OpsBeforeSwap(inp.manifest.value.files, live, old(archives), inp.backupName)
    {
      hide Captures, Room, OpsBeforeSwap, GoodDownloads, Collisionless, SafePath, Installed, Matches, FineDuring;
      hide Injective;
      if inp.manifest.None? { return Some(Raised); }
      var m := inp.manifest.value;
      if !inp.versionOk || !SafePaths(m.files) { return Some(Raised); }
      if !VersionGate.Accepts(m.gates, inp.installed, m.version, inp.parse) { return Some(Refused); }
      var ok := Stage(m.files, inp);
      if !ok { return Some(Raised); }
      if inp.decision == UpdateGate.Revert {
        staging := map[];
        return Some(Canceled);
      }
      end := None;
    }

    /** The try block past the go/no-go: swap, re-hash, schedule the restart. */
    method Apply(files: seq<File>) returns (ok: bool)
      requires TempsApart(Paths(files)) && Installed(files, staging, sha)
      modifies `tick, `live, `seen
      ensures Frame(old(live), live, Paths(files)) && tick >= old(tick)
      ensures ok ==> Installed(files, live, sha)
      ensures !ok ==> !Smooth(old(tick))
      ensures forall k: nat :: k < |files| && RenameRaises(faults, old(tick), k) ==>
                !ok && Landed(files[..k], staging, live) && Untouched(files, k, old(live), live)
    {
      hide Frame, OldOrNew, AllOldOrNew, TempsApart, Untouched, RenameRaises;
      ok := Swap(files);
      if !ok { return; }
      ok := VerifySwap(files);
      if !ok { return; }
      ok := Touch();                                   // schedule the restart
    }

    /** The whole try block. `swapped` is armed just before the swap; by then the backup exists. */
    method Attempt(inp: Inputs) returns (end: End, swapped: bool)
      requires Injective(place)
      requires inp.manifest.Some? ==> TempsApart(Paths(inp.manifest.value.files))
      modifies `tick, `live, `seen, `staging, `archives
      ensures !swapped ==> live == old(live) && end != Restarting
      ensures (end == Refused ==> staging == old(staging)) && (end == Canceled ==> staging == map[])
      ensures swapped ==>
                && inp.manifest.Some? && Applicable(inp, inp.manifest.value) && inp.decision == UpdateGate.Proceed
                && Frame(old(live), live, Paths(inp.manifest.value.files))
                && (Collisionless(sha) && inp.backupName in archives ==>
                      Captures(archives[inp.backupName].archive, old(live), Paths(inp.manifest.value.files)))
                && (end == Restarting || end == Raised)
      ensures end == Restarting ==> swapped && Installed(inp.manifest.value.files, live, sha)
      ensures end == Restarting && Collisionless(sha) ==> AllCompile(inp.manifest.value.files, live, inp.compiles)
      ensures tick >= old(tick)
      ensures swapped && end == Raised ==> !Smooth(old(tick))
      ensures swapped && Room(inp, old(archives)) ==> inp.backupName in archives
      ensures swapped && end == Raised && AtMostOneFault(faults, old(tick), tick) && inp.backupName in archives ==>
                Room(inp, old(archives))
      ensures Smooth(old(tick)) && Promising(inp, sha) ==> end == Restarting
      ensures forall k: nat :: StopsAtRename(inp, old(live), old(archives), old(tick), k) ==>
                swapped && end == Raised && HalfDone(inp, k, old(live), live)
                && (inp.backupName in archives ==> Room(inp, old(archives)))
    {
      ghost var before := live;
      ghost var from := tick;
      hide Frame, Captures, SafePath, Room, TempsApart, Untouched, Landed, OpsBeforeSwap, Promising, Injective;
      hide Applicable, Installed, Collisionless, Matches, HalfDone, RenameRaises;
      var stopped := Prepare(inp);
      forall k: nat | StopsAtRename(inp, before, old(archives), from, k)
        ensures stopped.None?
      {
        StopsThere(inp, before, old(archives), from, k);
      }
      hide StopsAtRename;
      if stopped.Some? { return stopped.value, false; }
      ghost var start := tick;
      var files := inp.manifest.value.files;
      var ok := Apply(files);
      if !ok { FaultAfter(faults, from, start, tick); }
      if ok && Collisionless(sha) { SameCompiles(files, staging, live, sha, inp.compiles); }
      forall k: nat | StopsAtRename(inp, before, old(archives), from, k)
        ensures !ok && HalfDone(inp, k, before, live) && FineDuring(faults, from, start)
      {
        StopsThere(inp, before, old(archives), from, k);
        HalfOf(inp, k, before, staging, live);
      }
      return if ok then Restarting else Raised, true;
    }

    lemma StopsThere(inp: Inputs, before: Tree, all: map<string, Stored>, from: nat, k: nat)
      requires StopsAtRename(inp, before, all, from, k)
      ensures inp.manifest.Some? && Promising(inp, sha)
      ensures var files := inp.manifest.value.files;
              var start := from + OpsBeforeSwap(files, before, all, inp.backupName);
              k < |files| && FineDuring(faults, from, start) && RenameRaises(faults, start, k)
    {
    }

    /** The run's first operation that does not work is the k-th file's rename in the swap. */
    ghost predicate StopsAtRename(inp: Inputs, before: Tree, all: map<string, Stored>, from: nat, k: nat) {
      && Promising(inp, sha) && k < |inp.manifest.value.files|
      && var start := from + OpsBeforeSwap(inp.manifest.value.files, before, all, inp.backupName);
         FineDuring(faults, from, start) && RenameRaises(faults, start, k)
    }

    /** The last operations of the run, as many as its rollback takes, work; or at most one of all fails. */
    ghost predicate RollbackWorks(inp: Inputs, from: nat)
      reads `tick, `archives
    {
      || FineDuring(faults, tick - RollbackOps(archives, inp.backupName), tick)
      || AtMostOneFault(faults, from, tick)
    }

    /** The whole run. It ends with a restart scheduled and every live manifest file carrying the
        manifest's digest, or with phase "failed". Then every manifest path is as it was before if the
        pruning has room for the new archive and the rollback's operations, the last ones of the run,
        work; in particular if at most one operation of the whole run fails. Without room there is
        nothing to roll back from, and the tree stays as the swap left it. Nothing but manifest paths
        and their temporaries ever changes. */
    method RunUpdate(inp: Inputs) returns (restarting: bool)
      requires inp.manifest.Some? ==> TempsApart(Paths(inp.manifest.value.files))
      requires Collisionless(sha) && Injective(place)
      modifies `tick, `live, `seen, `staging, `archives
      ensures restarting ==>
                && inp.manifest.Some? && Applicable(inp, inp.manifest.value) && inp.decision == UpdateGate.Proceed
                && var m := inp.manifest.value;
                   && inp.versionOk && m.files != []
                   && VersionGate.Accepts(m.gates, inp.installed, m.version, inp.parse)
                   && forall f :: f in m.files ==>
                        && SafePath(f.path) && f.path in live && sha(live[f.path]) == f.sha256
                        && (EndsWith(f.path, ".py") ==> inp.compiles(live[f.path]))
      ensures !restarting && inp.manifest.Some? && Room(inp, old(archives)) && RollbackWorks(inp, old(tick)) ==>
                forall p :: p in Paths(inp.manifest.value.files) ==> SameAt(live, old(live), p)
      ensures !restarting && !Room(inp, old(archives)) && AtMostOneFault(faults, old(tick), tick) ==>
                live == old(live) || inp.backupName !in archives
      ensures !Room(inp, old(archives)) ==>
                forall k: nat :: StopsAtRename(inp, old(live), old(archives), old(tick), k) ==>
                  !restarting && HalfDone(inp, k, old(live), live)
      ensures inp.manifest.Some? ==> Frame(old(live), live, Paths(inp.manifest.value.files))
      ensures inp.manifest.None? || inp.decision == UpdateGate.Revert || !Applicable(inp, inp.manifest.value) ==>
                !restarting && live == old(live)
      ensures Smooth(old(tick)) && Promising(inp, sha) ==> restarting
      ensures forall q :: Protected(q) ==> SameAt(old(live), live, q)
      ensures forall q :: (inp.manifest.Some? ==> forall f :: f in inp.manifest.value.files ==>
                             q != f.path && q != f.path + ".gpnew") ==> SameAt(old(live), live, q)
      ensures restarting || staging == map[] || (staging == old(staging) && live == old(live))
    {
      ghost var before := live;
      hide Protected, SafePath, EndsWith;
      var end, swapped := Attempt(inp);
      restarting := end == Restarting;
      if swapped {
        ProtectedStays(inp.manifest.value.files, before, live);
        FrameInFull(inp.manifest.value.files, before, live);
      }
      if end == Raised {
        hide Applicable, Promising, Room, StopsAtRename, HalfDone, TempsApart, Injective;
        if swapped {
          ghost var mid, from := live, tick;
          ghost var clean := Rollback(inp.backupName);
          AfterRollback(Paths(inp.manifest.value.files), before, mid, live, inp.backupName, archives, clean);
          assert FineDuring(faults, tick - RollbackOps(archives, inp.backupName), tick) ==> Smooth(from);
          ProtectedStays(inp.manifest.value.files, before, live);
          FrameInFull(inp.manifest.value.files, before, live);
          assert !FineDuring(faults, old(tick), from) && AtMostOneFault(faults, old(tick), tick) ==> Smooth(from);
        }
        staging := map[];
      }
    }
  }

  // ------------------------------------------------------------- lemmas on trees

  ghost predicate Collisionless(sha: Bytes -> string) {
    forall x, y :: sha(x) == sha(y) ==> x == y
  }

  /** Only p and its temporary may differ. */
  ghost predicate OneSwapped(s: Tree, t: Tree, p: Path) {
    forall q :: q != p && q != Temp(p) ==> SameAt(s, t, q)
  }

  /** ... and p is wholly old or holds exactly the new data. */
  ghost predicate Swapped(s: Tree, t: Tree, p: Path, data: Bytes) {
    OneSwapped(s, t, p) && (SameAt(s, t, p) || (p in t && t[p] == data))
  }

  lemma PathsGrow(files: seq<File>, i: nat)
    requires i < |files|
    ensures Paths(files[..i + 1]) == Paths(files[..i]) + {files[i].path}
  {
    assert files[..i + 1] == files[..i] + [files[i]];
  }

  /** Every state from position `from` on is one file's swap in progress, or done. */
  ghost predicate AllSwapped(s: Tree, seen: seq<Tree>, from: nat, p: Path, data: Bytes) {
    forall k :: from <= k < |seen| ==> Swapped(s, seen[k], p, data)
  }

  ghost predicate AllOldOrNew(before: Tree, staged: Tree, paths: set<Path>, seen: seq<Tree>, from: nat) {
    forall k :: from <= k < |seen| ==> OldOrNew(before, staged, paths, seen[k])
  }

  /** Whatever landed in the files themselves, every state from position `from` on keeps the rest. */
  ghost predicate AllFramed(before: Tree, paths: set<Path>, seen: seq<Tree>, from: nat) {
    forall k :: from <= k < |seen| ==> Frame(before, seen[k], paths)
  }

  ghost predicate AllOneSwapped(s: Tree, seen: seq<Tree>, from: nat, p: Path) {
    forall k :: from <= k < |seen| ==> OneSwapped(s, seen[k], p)
  }

  lemma TempDiffers(p: Path)
    ensures Temp(p) != p
  {
    assert |Temp(p)| == |p| + |TEMP_SUFFIX|;
  }

  lemma FrameStep(before: Tree, mid: Tree, t: Tree, p: Path, paths: set<Path>)
    requires Frame(before, mid, paths) && OneSwapped(mid, t, p) && p in paths
    ensures Frame(before, t, paths)
  {
    forall q | q !in paths && !IsTemp(paths, q)
      ensures SameAt(before, t, q)
    {
      assert SameAt(before, mid, q) && SameAt(mid, t, q);
    }
  }

  lemma FramedStep(before: Tree, paths: set<Path>, mid: Tree, p: Path, was: seq<Tree>, seen: seq<Tree>, from: nat)
    requires from <= |was| <= |seen| && seen[..|was|] == was && p in paths
    requires Frame(before, mid, paths) && AllFramed(before, paths, was, from) && AllOneSwapped(mid, seen, |was|, p)
    ensures AllFramed(before, paths, seen, from)
  {
    hide Frame, OneSwapped;
    forall k | from <= k < |seen|
      ensures Frame(before, seen[k], paths)
    {
      if k < |was| {
        assert seen[k] == was[k];
      } else {
        FrameStep(before, mid, seen[k], p, paths);
      }
    }
  }

  lemma HonestParts(faults: nat -> Fault, from: nat, mid: nat, to: nat)
    requires from <= mid <= to
    ensures Honest(faults, from, to) ==> Honest(faults, from, mid) && Honest(faults, mid, to)
  {
  }

  lemma SmoothParts(faults: nat -> Fault, from: nat, mid: nat, to: nat)
    requires from <= mid <= to
    ensures FineDuring(faults, from, to) ==> FineDuring(faults, mid, to)
  {
  }

  lemma SmoothIsHonest(faults: nat -> Fault, from: nat, to: nat)
    ensures FineDuring(faults, from, to) ==> Honest(faults, from, to)
  {
  }

  lemma RaisesAfterHonest(faults: nat -> Fault, from: nat, i: nat)
    requires RenameRaises(faults, from, i)
    ensures Honest(faults, from, from + SWAP_OPS * i)
  {
  }

  lemma OldOrNewStep(before: Tree, staged: Tree, paths: set<Path>, mid: Tree, t: Tree, p: Path)
    requires OldOrNew(before, staged, paths, mid) && p in paths && p in staged && TempsApart(paths)
    requires Swapped(mid, t, p, staged[p])
    ensures OldOrNew(before, staged, paths, t)
  {
    FrameStep(before, mid, t, p, paths);
    forall q | q in paths
      ensures SameAt(t, before, q) || (q in t && q in staged && t[q] == staged[q])
    {
      assert SameAt(mid, before, q) || (q in mid && q in staged && mid[q] == staged[q]);
      if q != p { assert SameAt(mid, t, q); }
    }
  }

  lemma TraceStep(before: Tree, staged: Tree, paths: set<Path>, mid: Tree, p: Path, was: seq<Tree>, seen: seq<Tree>,
                  from: nat)
    requires from <= |was| <= |seen| && seen[..|was|] == was
    requires OldOrNew(before, staged, paths, mid) && p in paths && p in staged && TempsApart(paths)
    requires AllOldOrNew(before, staged, paths, was, from) && AllSwapped(mid, seen, |was|, p, staged[p])
    ensures AllOldOrNew(before, staged, paths, seen, from)
  {
    hide OldOrNew, Swapped;
    forall k | from <= k < |seen|
      ensures OldOrNew(before, staged, paths, seen[k])
    {
      if k < |was| {
        assert seen[k] == was[k];
      } else {
        OldOrNewStep(before, staged, paths, mid, seen[k], p);
      }
    }
  }

  /** Every listed file holds its staged contents. */
  ghost predicate Landed(files: seq<File>, staged: Tree, t: Tree) {
    forall f :: f in files ==> f.path in staged && f.path in t && t[f.path] == staged[f.path]
  }

  /** The rename of the k-th file, counted from operation `from`, is the first operation not to work. */
  ghost predicate RenameRaises(faults: nat -> Fault, from: nat, k: nat) {
    FineDuring(faults, from, from + SWAP_OPS * k + RENAME_OP) && faults(from + SWAP_OPS * k + RENAME_OP).Raise?
  }

  /** The files after the first k are as before. */
  ghost predicate Untouched(files: seq<File>, k: nat, before: Tree, t: Tree)
    requires k <= |files|
  {
    forall p :: p in Paths(files) && p !in Paths(files[..k]) ==> SameAt(before, t, p)
  }

  lemma NothingSwapped(files: seq<File>, t: Tree, staged: Tree, seen: seq<Tree>)
    ensures Frame(t, t, Paths(files)) && OldOrNew(t, staged, Paths(files), t)
    ensures AllOldOrNew(t, staged, Paths(files), seen, |seen|) && AllFramed(t, Paths(files), seen, |seen|)
    ensures Landed([], staged, t) && Untouched(files, 0, t, t)
  {
  }

  lemma PathOf(files: seq<File>, i: nat)
    requires i < |files|
    ensures files[i] in files && files[i].path in Paths(files)
  {
  }

  lemma UntouchedStep(files: seq<File>, i: nat, before: Tree, mid: Tree, t: Tree)
    requires i < |files| && TempsApart(Paths(files)) && Untouched(files, i, before, mid)
             && OneSwapped(mid, t, files[i].path)
    ensures Untouched(files, i + 1, before, t)
  {
    PathsGrow(files, i);
    assert files[i] in files && files[i].path in Paths(files);
    forall p | p in Paths(files) && p !in Paths(files[..i + 1])
      ensures SameAt(before, t, p)
    {
      assert SameAt(before, mid, p) && SameAt(mid, t, p);
    }
  }

  /** A swap that stops at file i without touching it leaves exactly the files before it new. */
  lemma StopsHere(files: seq<File>, i: nat, before: Tree, staged: Tree, mid: Tree, t: Tree)
    requires i < |files| && TempsApart(Paths(files)) && OneSwapped(mid, t, files[i].path)
             && SameAt(mid, t, files[i].path)
    requires Landed(files[..i], staged, mid) && Untouched(files, i, before, mid)
    ensures Landed(files[..i], staged, t) && Untouched(files, i, before, t)
  {
    assert files[i] in files && files[i].path in Paths(files);
    forall f | f in files[..i]
      ensures f.path in staged && f.path in t && t[f.path] == staged[f.path]
    {
      assert f in files && f.path in Paths(files);
      assert SameAt(mid, t, f.path);
    }
    forall p | p in Paths(files) && p !in Paths(files[..i])
      ensures SameAt(before, t, p)
    {
      assert SameAt(before, mid, p) && SameAt(mid, t, p);
    }
  }

  /** A swap that stopped during file i did not get to the rename of a later file. */
  lemma WhereItStops(faults: nat -> Fault, from: nat, i: nat, tick: nat, ok: bool)
    requires from + SWAP_OPS * i <= tick <= from + SWAP_OPS * i + SWAP_OPS
    requires FineDuring(faults, from + SWAP_OPS * i, tick) ==> ok
    requires RenameRaises(faults, from + SWAP_OPS * i, 0) ==> !ok
    ensures RenameRaises(faults, from, i) ==>
              RenameRaises(faults, from + SWAP_OPS * i, 0) && FineDuring(faults, from, from + SWAP_OPS * i) && !ok
    ensures !ok ==> forall k: nat :: k > i ==> !RenameRaises(faults, from, k)
  {
    forall k: nat | k > i && RenameRaises(faults, from, k)
      ensures ok
    {
      assert SWAP_OPS * k >= SWAP_OPS * i + SWAP_OPS;
      assert FineDuring(faults, from + SWAP_OPS * i, tick);
    }
  }

  /** Files already swapped keep their new contents while the next one is swapped. */
  lemma EarlierStay(files: seq<File>, i: nat, mid: Tree, t: Tree, staged: Tree)
    requires i < |files| && TempsApart(Paths(files)) && files[i].path in staged && files[i].path in t
    requires Swapped(mid, t, files[i].path, staged[files[i].path]) && t[files[i].path] == staged[files[i].path]
    requires Landed(files[..i], staged, mid)
    ensures Landed(files[..i + 1], staged, t)
  {
    var p := files[i].path;
    assert files[i] in files && p in Paths(files);
    forall f | f in files[..i + 1]
      ensures f.path in staged && f.path in t && t[f.path] == staged[f.path]
    {
      if f.path != p {
        assert f in files[..i] && f in files && f.path in Paths(files);
        assert SameAt(mid, t, f.path);
      }
    }
  }

  ghost predicate Injective(place: Place) {
    forall x, y :: place(x) == place(y) ==> x == y
  }

  /** y comes before z: newest first, and in listing order among equals, as a stable sort leaves them. */
  predicate Precedes(place: Place, all: map<string, Stored>, y: string, z: string)
    requires y in all && z in all
  {
    all[y].mtime > all[z].mtime || (all[y].mtime == all[z].mtime && place(y) < place(z))
  }

  /** The other archives that come before one with this name and time. */
  function Ahead(place: Place, all: map<string, Stored>, name: string, mtime: int): set<string> {
    set y | y in all && y != name && (all[y].mtime > mtime || (all[y].mtime == mtime && place(y) < place(name)))
  }

  /** Pruning keeps a new archive of this name and time: fewer than KEEP others come before it. */
  predicate HasRoom(place: Place, all: map<string, Stored>, name: string, mtime: int) {
    |Ahead(place, all, name, mtime)| < KEEP
  }

  predicate Kept(place: Place, all: map<string, Stored>, z: string)
    requires z in all
  {
    HasRoom(place, all, z, all[z].mtime)
  }

  /** How many operations a pruning of n archives takes: the listing, a stat of each, the deletions. */
  function PruneOps(n: nat): nat {
    1 + n + Max(0, n - KEEP)
  }

  /** How many operations a backup takes: directory, read and write of each present file, list of added
      files, test, read-back of each present file, and the pruning. */
  function BackupOps(files: seq<File>, t: Tree, all: map<string, Stored>, name: string): nat {
    3 + 3 * CountPresent(files, t) + PruneOps(|all.Keys + {name}|)
  }

  /** ... and the whole run before the swap: preflight, staging area, download and check of each file. */
  function OpsBeforeSwap(files: seq<File>, t: Tree, all: map<string, Stored>, name: string): nat {
    2 + 2 * |files| + BackupOps(files, t, all, name)
  }

  /** How many operations a rollback takes: open, list of added files, each deletion and extraction. */
  function RollbackOps(all: map<string, Stored>, name: string): nat {
    if name in all then 2 + |all[name].archive.added| + |all[name].archive.entries| else 1
  }

  lemma AheadAfter(place: Place, before: map<string, Stored>, after: map<string, Stored>, name: string, mtime: int)
    requires name in after && after == before[name := after[name]] && after[name].mtime == mtime
    ensures Ahead(place, after, name, mtime) == Ahead(place, before, name, mtime)
    ensures Kept(place, after, name) <==> HasRoom(place, before, name, mtime)
    ensures after.Keys == before.Keys + {name} && |after| == |after.Keys|
  {
  }

  /** The first KEEP in order are exactly those with fewer than KEEP others before them. */
  lemma KeptAreFirst(place: Place, all: map<string, Stored>, kept: set<string>, drop: set<string>)
    requires kept + drop == all.Keys && kept * drop == {} && |kept| <= KEEP && (drop != {} ==> |kept| == KEEP)
    requires forall y, z :: y in kept && z in drop ==> Precedes(place, all, y, z)
    ensures forall z :: z in all ==> (z in kept <==> |Ahead(place, all, z, all[z].mtime)| < 20)
  {
    forall z | z in all
      ensures z in kept <==> Kept(place, all, z)
    {
      if z in drop {
        DroppedIsBehind(place, all, kept, z);
      } else {
        KeptIsAhead(place, all, kept, drop, z);
      }
    }
  }

  lemma DroppedIsBehind(place: Place, all: map<string, Stored>, kept: set<string>, z: string)
    requires z in all && z !in kept && kept <= all.Keys && |kept| == KEEP
    requires forall y :: y in kept ==> Precedes(place, all, y, z)
    ensures !Kept(place, all, z)
  {
    SubsetSize(kept, Ahead(place, all, z, all[z].mtime));
  }

  lemma KeptIsAhead(place: Place, all: map<string, Stored>, kept: set<string>, drop: set<string>, z: string)
    requires kept + drop == all.Keys && |kept| <= KEEP && z in kept
    requires forall y :: y in drop ==> Precedes(place, all, z, y)
    ensures Kept(place, all, z)
  {
    var ahead := Ahead(place, all, z, all[z].mtime);
    forall y | y in ahead
      ensures y in kept - {z}
    {
      assert y in drop ==> Precedes(place, all, z, y);
    }
    SubsetSize(ahead, kept - {z});
  }

  /** Every Python file of the manifest compiles. */
  predicate AllCompile(files: seq<File>, t: Tree, compiles: Bytes -> bool) {
    forall f :: f in files && EndsWith(f.path, ".py") ==> f.path in t && compiles(t[f.path])
  }

  datatype End = Restarting | Refused | Canceled | Raised

  /** Every manifest file is in the tree with the manifest's digest. */
  predicate Installed(files: seq<File>, live: Tree, sha: Bytes -> string) {
    forall f :: f in files ==> f.path in live && sha(live[f.path]) == f.sha256
  }

  // ------------------------------------------------------------- which manifests may be applied

  /** Inside the project root and not a secret or certificate. */
  predicate SafePath(p: Path) {
    && p != "" && p[0] != '/' && p[0] != '\\' && ".." !in SplitOn(p, '/')
    && !EndsWith(Lower(p), ".env") && !EndsWith(Lower(p), ".pem") && !EndsWith(Lower(p), ".key")
    && !EndsWith(Lower(p), "generator_control.env")
  }

  predicate SafePaths(files: seq<File>) {
    forall f :: f in files ==> SafePath(f.path)
  }

  predicate Applicable(inp: Inputs, m: Manifest) {
    && inp.versionOk && SafePaths(m.files) && m.files != []
    && VersionGate.Accepts(m.gates, inp.installed, m.version, inp.parse)
  }

  /** Every download arrives with the manifest's digest and compiles. */
  predicate GoodDownloads(files: seq<File>, inp: Inputs, sha: Bytes -> string) {
    forall f :: f in files ==>
      var d := inp.download(f.path);
      d.Some? && sha(d.value) == f.sha256 && (EndsWith(f.path, ".py") ==> inp.compiles(d.value))
  }

  /** Nothing outside stands in the way of the update. */
  predicate Promising(inp: Inputs, sha: Bytes -> string) {
    && inp.manifest.Some? && Applicable(inp, inp.manifest.value) && inp.decision == UpdateGate.Proceed
    && GoodDownloads(inp.manifest.value.files, inp, sha)
  }

  /** The tree's files are the downloaded ones. */
  ghost predicate Matches(files: seq<File>, download: Path -> Option<Bytes>, t: Tree) {
    forall f :: f in files ==> f.path in t && download(f.path) == Some(t[f.path])
  }

  /** What carries the same digest compiles as well. */
  lemma SameCompiles(files: seq<File>, staged: Tree, t: Tree, sha: Bytes -> string, compiles: Bytes -> bool)
    requires Collisionless(sha) && Installed(files, staged, sha) && Installed(files, t, sha)
    requires AllCompile(files, staged, compiles)
    ensures AllCompile(files, t, compiles)
  {
  }

  /** The first k manifest files are new, the others old. */
  ghost predicate HalfDone(inp: Inputs, k: nat, before: Tree, t: Tree) {
    && inp.manifest.Some? && k <= |inp.manifest.value.files|
    && Matches(inp.manifest.value.files[..k], inp.download, t) && Untouched(inp.manifest.value.files, k, before, t)
  }

  lemma HalfOf(inp: Inputs, k: nat, before: Tree, staged: Tree, t: Tree)
    requires inp.manifest.Some? && k <= |inp.manifest.value.files|
    requires var files := inp.manifest.value.files;
             Matches(files, inp.download, staged) && Landed(files[..k], staged, t) && Untouched(files, k, before, t)
    ensures HalfDone(inp, k, before, t)
  {
    var files := inp.manifest.value.files;
    forall f | f in files[..k]
      ensures f.path in t && inp.download(f.path) == Some(t[f.path])
    {
      assert f in files;
    }
  }

  lemma FineStep(faults: nat -> Fault, from: nat, to: nat)
    requires from <= to
    ensures FineDuring(faults, from, to + 1) <==> FineDuring(faults, from, to) && faults(to).Fine?
  {
  }

  /** If the second part of a run did not go smoothly, neither did the whole; and with at most one fault
      the first part did. */
  lemma FaultAfter(faults: nat -> Fault, from: nat, start: nat, to: nat)
    requires from <= start <= to && !FineDuring(faults, start, to)
    ensures !FineDuring(faults, from, to)
    ensures AtMostOneFault(faults, from, to) ==> FineDuring(faults, from, start)
  {
    var n: nat :| start <= n < to && !faults(n).Fine?;
  }

  /** Where a path leads from `at` below the root; None once it climbs above the root. */
  function Resolve(parts: seq<string>, at: seq<string>): Option<seq<string>>
    decreases |parts|
  {
    if parts == [] then Some(at)
    else if parts[0] == "" || parts[0] == "." then Resolve(parts[1..], at)
    else if parts[0] == ".." then if at == [] then None else Resolve(parts[1..], at[..|at| - 1])
    else Resolve(parts[1..], at + [parts[0]])
  }

  /** A path without ".." only ever descends. */
  lemma {:induction false} PlainPartsDescend(parts: seq<string>, at: seq<string>)
    requires ".." !in parts
    ensures Resolve(parts, at).Some? && |at| <= |Resolve(parts, at).value| && Resolve(parts, at).value[..|at|] == at
    decreases |parts|
  {
    if parts != [] {
      var next := if parts[0] == "" || parts[0] == "." then at else at + [parts[0]];
      PlainPartsDescend(parts[1..], next);
    }
  }

  /** Where a path leads from the project root; None if it is absolute or climbs above the root. */
  function Locate(p: Path): Option<seq<string>> {
    if p != "" && p[0] == '/' then None else Resolve(SplitOn(p, '/'), [])
  }

  /** An accepted path leads somewhere below the project root. */
  lemma SafePathStaysInside(p: Path)
    requires SafePath(p)
    ensures Locate(p).Some?
  {
    PlainPartsDescend(SplitOn(p, '/'), []);
  }

  // ------------------------------------------------------------- which paths are accepted, character by character

  /** Two dots stand alone between slashes or ends. */
  ghost predicate HasDotDot(p: Path) {
    exists i :: DotDotAt(p, i)
  }

  predicate DotDotAt(p: Path, i: int) {
    && 0 <= i && i + 2 <= |p| && p[i] == '.' && p[i + 1] == '.'
    && (i == 0 || p[i - 1] == '/') && (i + 2 == |p| || p[i + 2] == '/')
  }

  lemma DotDotAlone(a: string)
    requires '/' !in a
    ensures HasDotDot(a) <==> a == ".."
  {
    if a == ".." {
      assert DotDotAt(a, 0);
    }
    assert forall j :: 0 <= j < |a| ==> a[j] in a;
    if i :| DotDotAt(a, i) {
      assert i == 0 && |a| == 2;
    }
  }

  lemma DotDotFirst(a: string, b: string)
    requires '/' !in a
    ensures a == ".." || HasDotDot(b) ==> HasDotDot(a + ['/'] + b)
  {
    var p := a + ['/'] + b;
    assert forall i :: 0 <= i < |b| ==> p[|a| + 1 + i] == b[i];
    if a == ".." {
      assert p[0] == a[0] && p[1] == a[1] && DotDotAt(p, 0);
    } else if i :| DotDotAt(b, i) {
      assert DotDotAt(p, |a| + 1 + i);
    }
  }

  lemma DotDotSplits(a: string, b: string)
    requires '/' !in a
    ensures HasDotDot(a) <==> a == ".."
    ensures HasDotDot(a + ['/'] + b) <==> a == ".." || HasDotDot(b)
  {
    DotDotAlone(a);
    DotDotFirst(a, b);
    var p := a + ['/'] + b;
    if i :| DotDotAt(p, i) {
      DotDotWhere(a, b, i);
    }
  }

  lemma DotDotWhere(a: string, b: string, i: int)
    requires '/' !in a && DotDotAt(a + ['/'] + b, i)
    ensures a == ".." || HasDotDot(b)
  {
    var p := a + ['/'] + b;
    assert p[|a|] == '/';
    assert forall j :: 0 <= j < |a| ==> p[j] == a[j] && a[j] in a;
    assert forall j :: 0 <= j < |b| ==> b[j] == p[|a| + 1 + j];
    if i > |a| {
      assert DotDotAt(b, i - |a| - 1);
    } else {
      assert i == 0 && |a| == 2;
    }
  }

  lemma {:induction false} DotDotIsPart(p: Path)
    ensures ".." in SplitOn(p, '/') <==> HasDotDot(p)
    decreases |p|
  {
    hide HasDotDot;
    var i := Find(p, '/');
    var a := p[..i];
    assert '/' !in a;
    if i == |p| {
      assert a == p;
      DotDotSplits(p, "");
      SplitOnAt(p, '/', "");
    } else {
      var b := p[i + 1..];
      assert p == a + ['/'] + b;
      DotDotSplits(a, b);
      SplitOnAt(a, '/', b);
      DotDotIsPart(b);
    }
  }

  /** The path ends with this extension, in any mixture of cases. */
  predicate EndsAs(p: Path, ext: string) {
    |ext| <= |p| && forall i :: 0 <= i < |ext| ==>
      var c := p[|p| - |ext| + i];
      c == ext[i] || ('a' <= ext[i] <= 'z' && c as int == ext[i] as int - 'a' as int + 'A' as int)
  }

  lemma EndsAsIsLower(p: Path, ext: string)
    requires forall i :: 0 <= i < |ext| ==> 'a' <= ext[i] <= 'z' || ext[i] == '.' || ext[i] == '_'
    ensures EndsWith(Lower(p), ext) <==> EndsAs(p, ext)
  {
    hide Lower;
    LowerAt(p);
    var low := Lower(p);
    if |ext| <= |p| {
      var cut := |p| - |ext|;
      var tail, end := low[cut..], p[cut..];
      assert forall i :: 0 <= i < |ext| ==> tail[i] == low[cut + i] && end[i] == p[cut + i];
      SameLetters(tail, end, ext);
    }
  }

  /** One character spells a lower-case one (or a sign) exactly if its lower case is that character. */
  lemma SameLetters(tail: string, end: string, ext: string)
    requires |tail| == |end| == |ext|
    requires forall i :: 0 <= i < |ext| ==> 'a' <= ext[i] <= 'z' || ext[i] == '.' || ext[i] == '_'
    requires forall i :: 0 <= i < |ext| ==>
               tail[i] == if 'A' <= end[i] <= 'Z' then (end[i] as int - 'A' as int + 'a' as int) as char else end[i]
    ensures tail == ext <==>
              forall i :: 0 <= i < |ext| ==>
                end[i] == ext[i] || ('a' <= ext[i] <= 'z' && end[i] as int == ext[i] as int - 'a' as int + 'A' as int)
  {
  }

  /** A manifest path is accepted if and only if it is not empty or absolute, has no "..", and does not end in
      .env, .pem or .key, however these are written. */
  lemma SafePathExactly(p: Path)
    ensures SafePath(p) <==>
              && p != "" && p[0] != '/' && p[0] != '\\' && !HasDotDot(p)
              && !EndsAs(p, ".env") && !EndsAs(p, ".pem") && !EndsAs(p, ".key")
  {
    hide HasDotDot, Lower, SplitOn, EndsWith, EndsAs;
    DotDotIsPart(p);
    EndsAsIsLower(p, ".env");
    EndsAsIsLower(p, ".pem");
    EndsAsIsLower(p, ".key");
    LongerEnd(Lower(p));
  }

  lemma LongerEnd(s: string)
    ensures EndsWith(s, "generator_control.env") ==> EndsWith(s, ".env")
  {
    var long := "generator_control.env";
    if EndsWith(s, long) {
      assert s[|s| - 4..] == s[|s| - |long|..][|long| - 4..];
    }
  }

  /** What no manifest may touch: absolute paths, and secrets and certificates by their names. */
  predicate Protected(q: Path) {
    (q != "" && (q[0] == '/' || q[0] == '\\')) || EndsAs(q, ".env") || EndsAs(q, ".pem") || EndsAs(q, ".key")
  }

  lemma ProtectedIsNoTarget(files: seq<File>, q: Path)
    requires SafePaths(files) && Protected(q)
    ensures q !in Paths(files) && !IsTemp(Paths(files), q)
  {
    hide SafePath, HasDotDot;
    if q in Paths(files) {
      SafePathExactly(q);
    }
    if p :| p in Paths(files) && q == Temp(p) {
      SafePathExactly(p);
      assert q[0] == p[0] && q[|q| - 1] == TEMP_SUFFIX[|TEMP_SUFFIX| - 1] == 'w';
      if EndsAs(q, ".env") { LastOfEnd(q, ".env"); }
      if EndsAs(q, ".pem") { LastOfEnd(q, ".pem"); }
      if EndsAs(q, ".key") { LastOfEnd(q, ".key"); }
    }
  }

  lemma LastOfEnd(q: Path, ext: string)
    requires EndsAs(q, ext) && ext != "" && 'a' <= ext[|ext| - 1] <= 'z'
    ensures var c := q[|q| - 1]; c == ext[|ext| - 1] || c < 'a'
  {
    assert q[|q| - |ext| + (|ext| - 1)] == q[|q| - 1];
  }

  lemma FrameInFull(files: seq<File>, before: Tree, after: Tree)
    requires Frame(before, after, Paths(files))
    ensures forall q :: (forall f :: f in files ==> q != f.path && q != f.path + ".gpnew") ==> SameAt(before, after, q)
  {
    forall q | forall f :: f in files ==> q != f.path && q != f.path + ".gpnew"
      ensures SameAt(before, after, q)
    {
      assert q !in Paths(files);
      assert !IsTemp(Paths(files), q);
    }
  }

  lemma ProtectedStays(files: seq<File>, before: Tree, after: Tree)
    requires SafePaths(files) && Frame(before, after, Paths(files))
    ensures forall q :: Protected(q) ==> SameAt(before, after, q)
  {
    forall q | Protected(q)
      ensures SameAt(before, after, q)
    {
      ProtectedIsNoTarget(files, q);
    }
  }

  // ------------------------------------------------------------- rollback on trees

  /** Nothing but archived paths differs. */
  ghost predicate OnlyArchived(a: Archive, s: Tree, t: Tree) {
    forall q :: q !in a.entries && q !in a.added ==> SameAt(s, t, q)
  }

  /** Backed-up files are back, added files are gone, the rest is untouched. */
  ghost predicate Restored(a: Archive, s: Tree, t: Tree) {
    && OnlyArchived(a, s, t)
    && (forall p :: p in a.entries ==> p in t && t[p] == a.entries[p])
    && (forall p :: p in a.added && p !in a.entries ==> p !in t)
  }

  lemma DeletedIsPart(a: Archive, added: seq<Path>, s: Tree, mid: Tree)
    requires added == a.added || added == []
    requires forall q :: q !in added ==> SameAt(s, mid, q)
    ensures forall q :: q !in a.added ==> SameAt(s, mid, q)
  {
  }

  lemma RollbackParts(a: Archive, added: seq<Path>, s: Tree, mid: Tree, t: Tree)
    requires added == a.added || added == []
    requires forall q :: q !in added ==> SameAt(s, mid, q)
    requires forall q :: q !in a.entries ==> SameAt(mid, t, q)
    ensures OnlyArchived(a, s, t)
    ensures (added == a.added && (forall p :: p in added ==> p !in mid)
             && (forall p :: p in a.entries ==> p in t && t[p] == a.entries[p])) ==> Restored(a, s, t)
  {
    forall q | q !in a.entries && q !in a.added
      ensures SameAt(s, t, q)
    {
      assert SameAt(s, mid, q) && SameAt(mid, t, q);
    }
    forall p | p in a.added && p !in a.entries && p !in mid
      ensures p !in t
    {
      assert SameAt(mid, t, p);
    }
  }

  /** From whatever state the tree is in, a clean rollback brings every manifest path back to the
      contents or absence it had when the archive was made. */
  lemma RollbackUndoesAnything(a: Archive, before: Tree, paths: set<Path>, t: Tree, after: Tree)
    requires Captures(a, before, paths) && Restored(a, t, after)
    ensures forall p :: p in paths ==> SameAt(after, before, p)
    ensures forall q :: q !in paths ==> SameAt(t, after, q)
  {
    forall p | p in paths
      ensures SameAt(after, before, p)
    {
      if p in before { assert p in a.entries; } else { assert p in a.added && p !in a.entries; }
    }
  }

  /** Interrupt the swap at any point, whatever landed in the files being written: rolling back from
      there restores the contents and presence of every manifest path and disturbs nothing else. */
  lemma InterruptedSwapIsUndone(a: Archive, before: Tree, paths: set<Path>, seen: seq<Tree>, from: nat, k: nat,
                                after: Tree)
    requires AllFramed(before, paths, seen, from) && from <= k < |seen|
    requires Captures(a, before, paths) && Restored(a, seen[k], after)
    ensures forall p :: p in paths ==> SameAt(after, before, p)
    ensures Frame(before, after, paths)
  {
    var t := seen[k];
    assert Frame(before, t, paths);
    RollbackUndoesAnything(a, before, paths, t, after);
    forall q | q !in paths && !IsTemp(paths, q)
      ensures SameAt(before, after, q)
    {
      assert SameAt(before, t, q) && SameAt(t, after, q);
    }
  }

  lemma AfterRollback(paths: set<Path>, before: Tree, mid: Tree, after: Tree, name: string,
                      archives: map<string, Stored>, clean: bool)
    requires Frame(before, mid, paths)
    requires name in archives ==> Captures(archives[name].archive, before, paths)
    requires clean ==> name in archives && Restored(archives[name].archive, mid, after)
    requires name in archives ==> OnlyArchived(archives[name].archive, mid, after)
    requires name !in archives ==> after == mid
    ensures Frame(before, after, paths)
    ensures clean ==> forall p :: p in paths ==> SameAt(after, before, p)
  {
    if clean {
      RollbackUndoesAnything(archives[name].archive, before, paths, mid, after);
    }
    forall q | q !in paths && !IsTemp(paths, q)
      ensures SameAt(before, after, q)
    {
      assert SameAt(before, mid, q);
      if name in archives {
        var a := archives[name].archive;
        assert q !in a.entries && q !in a.added;
        assert SameAt(mid, after, q);
      }
    }
  }

  // ------------------------------------------------------------- where the decision comes from

  /** The decision a run gets is what the worker's go/no-go park returned; so a worker that the gate lets
      on to the swap runs with "proceed", written by an operator during that very park. */
  lemma SwapWasDecided(acts: seq<UpdateGate.Action>, w: nat, inp: Inputs)
    requires UpdateGate.LegalRun(UpdateGate.INITIAL, acts)
    requires var s := UpdateGate.Run(UpdateGate.INITIAL, acts);
             && w < |s.workers| && s.workers[w].Applying?
             && UpdateGate.Logged(s.log, UpdateGate.Returned(s.workers[w].park, inp.decision))
    ensures inp.decision == UpdateGate.Proceed
    ensures var s := UpdateGate.Run(UpdateGate.INITIAL, acts);
            exists n: nat :: n < |s.log| && s.log[n] == UpdateGate.Returned(s.workers[w].park, inp.decision)
                             && UpdateGate.Justified(s.log, n)
  {
    hide UpdateGate.LegalRun, UpdateGate.Run;
    UpdateGate.ApplyingWasAllowed(acts, w);
    var s := UpdateGate.Run(UpdateGate.INITIAL, acts);
    var park := s.workers[w].park;
    var n: nat :| 0 < n < |s.log| && s.log[n] == UpdateGate.Applied(park)
                  && s.log[n - 1] == UpdateGate.Returned(park, UpdateGate.Proceed)
                  && UpdateGate.Justified(s.log, n - 1);
    var m: nat :| m < |s.log| && s.log[m] == UpdateGate.Returned(park, inp.decision);
    UpdateGate.ReturnsOnce(acts, m, n - 1);
  }

  // ------------------------------------------------------------- a clock that was set back

  lemma LetterIsSafe(p: Path)
    requires |p| == 1 && 'a' <= p[0] <= 'z'
    ensures SafePath(p)
  {
    assert SplitOn(p, '/') == [p];
    assert Lower(p) == [p[0]];
  }

  /** A two-file update whose second rename raises, with KEEP or more archives dated later than the new
      one: the new archive is pruned, the rollback finds nothing to open, and the tree is left mixed. */
  method MixedTree(sha: Bytes -> string, place: Place, parse: VersionGate.IntParser, others: map<string, Stored>)
    returns (m: Machine, restarting: bool)
    requires Collisionless(sha) && Injective(place)
    requires |others| >= KEEP && "new" !in others && forall y :: y in others ==> others[y].mtime > 0
    ensures !restarting
    ensures "a" in m.live && m.live["a"] == [1]
    ensures "b" in m.live && m.live["b"] == [0]
  {
    hide Injective, Collisionless;
    var live: Tree := map["a" := [0], "b" := [0]];
    var files := [File("a", sha([1])), File("b", sha([1]))];
    var start := OpsBeforeSwap(files, live, others, "new");
    var failing := start + SWAP_OPS + RENAME_OP;
    var faults := n => if n == failing then Raise else Fine;
    m := new Machine(faults, sha, place, live, others);
    var inp := Inputs("1.0", Some(Manifest("1.1", files, VersionGate.Absent)), true, parse,
                      _ => Some([1]), _ => true, UpdateGate.Proceed, "new", 0);
    LetterIsSafe("a");
    LetterIsSafe("b");
    assert Promising(inp, sha);
    assert FineDuring(faults, 0, start) && RenameRaises(faults, start, 1);
    assert m.StopsAtRename(inp, live, others, 0, 1);
    assert Ahead(place, others, "new", 0) == others.Keys && |others.Keys| == |others|;
    assert TempsApart(Paths(files)) by { LettersApart(files); }
    restarting := m.RunUpdate(inp);
    assert HalfDone(inp, 1, live, m.live);
    assert files[..1] == [files[0]] && files[0] in files[..1];
    assert files[1] in files && files[1].path in Paths(files);
    assert "b" !in Paths(files[..1]);
    assert SameAt(live, m.live, "b");
  }

  lemma LettersApart(files: seq<File>)
    requires forall f :: f in files ==> |f.path| == 1
    ensures TempsApart(Paths(files))
  {
    forall p, q | p in Paths(files) && q in Paths(files)
      ensures q != Temp(p)
    {
      assert |Temp(p)| == |p| + |TEMP_SUFFIX|;
    }
  }
}
