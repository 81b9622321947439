/**
 Replacing the profile state file: write a temporary file, sync it, rename it over the
 state file, sync the directory.  Any system call may fail and the machine may stop
 after any of them.

 The disk keeps what a power cut can undo: the directory versions since the last
 directory sync (the cut may land on any of them) and whether each file's data has been
 synced (if not, the cut may leave anything).
 */
module StateFile {
  import opened Wrappers

  datatype Name = StateName | TempName

  type Directory = map<Name, nat>

  datatype File = File(data: string, synced: bool)

  datatype Disk = Disk(versions: seq<Directory>, files: map<nat, File>)

  /** Whether each system call of a save succeeds; a failed write leaves a prefix behind. */
  datatype Faults = Faults(
    create: bool, write: bool, written: nat, sync: bool, rename: bool, remove: bool, removeAgain: bool, syncDir: bool)

  datatype SaveOutcome = Saved | FailedBeforeRename | FailedAfterRename {
    predicate Committed() {
      !FailedBeforeRename?
    }
  }

  ghost predicate WellFormed(d: Disk) {
    && d.versions != []
    && (forall v, n :: v in d.versions && n in v ==> v[n] in d.files)
    && (forall v :: v in d.versions && StateName in v ==> d.files[v[StateName]].synced)
    && (forall v :: v in d.versions && StateName in v && TempName in v ==> v[StateName] != v[TempName])
    && (forall v :: v in d.versions && StateName in v && TempName in Live(d) ==> v[StateName] != Live(d)[TempName])
  }

  function Live(d: Disk): Directory
    requires d.versions != []
  {
    d.versions[|d.versions| - 1]
  }

  function ReadIn(d: Disk, v: Directory, n: Name): Option<string> {
    if n in v && v[n] in d.files then Some(d.files[v[n]].data) else None
  }

  /** What a reader of `n` sees now. */
  function Visible(d: Disk, n: Name): Option<string>
    requires d.versions != []
  {
    ReadIn(d, Live(d), n)
  }

  /** `after` is a disk that a power cut on `d` may leave. */
  ghost predicate AfterPowerCut(d: Disk, after: Disk) {
    && |after.versions| == 1
    && after.versions[0] in d.versions
    && after.files.Keys == d.files.Keys
    && forall i :: i in d.files ==> after.files[i].synced && (d.files[i].synced ==> after.files[i] == d.files[i])
  }

  /** A power cut on `d` may leave the state file reading `c`. */
  ghost predicate MayRead(d: Disk, c: Option<string>) {
    exists after :: AfterPowerCut(d, after) && Visible(after, StateName) == c
  }

  // ---- System calls that succeed ----

  function FreshInode(files: map<nat, File>): (i: nat)
    ensures i !in files
  {
    FreshAbove(files.Keys, 0)
  }

  function FreshAbove(used: set<nat>, from: nat): (i: nat)
    ensures i >= from && i !in used
    decreases used
  {
    if from in used
    then
      assert used - {from} < used;
      FreshAbove(used - {from}, from + 1)
    else from
  }

  function Created(d: Disk): Disk
    requires d.versions != []
  {
    var i := FreshInode(d.files);
    Disk(d.versions + [Live(d)[TempName := i]], d.files[i := File("", false)])
  }

  function WithTemp(d: Disk, f: File): Disk
    requires d.versions != [] && TempName in Live(d)
  {
    d.(files := d.files[Live(d)[TempName] := f])
  }

  function Renamed(d: Disk): Disk
    requires d.versions != [] && TempName in Live(d)
  {
    d.(versions := d.versions + [(Live(d) - {TempName})[StateName := Live(d)[TempName]]])
  }

  function Removed(d: Disk): Disk
    requires d.versions != []
  {
    d.(versions := d.versions + [Live(d) - {TempName}])
  }

  function DirSynced(d: Disk): Disk
    requires d.versions != []
  {
    d.(versions := [Live(d)])
  }

  // ---- What each call does to the state file ----

  ghost predicate SomeVersionReads(d: Disk, c: Option<string>) {
    exists v :: v in d.versions && ReadIn(d, v, StateName) == c
  }

  /** After a power cut the state file is whole: it reads as one of the directory versions says. */
  lemma MayReadIffVersion(d: Disk, c: Option<string>)
    requires WellFormed(d)
    ensures MayRead(d, c) <==> SomeVersionReads(d, c)
  {
    if SomeVersionReads(d, c) {
      var v :| v in d.versions && ReadIn(d, v, StateName) == c;
      var after := Disk([v], map i | i in d.files :: File(d.files[i].data, true));
      assert AfterPowerCut(d, after);
    }
  }

  /** `e` shows a reader the same state file as `d`, and a power cut no content it could not show on `d`. */
  ghost predicate Keeps(d: Disk, e: Disk)
    requires d.versions != []
  {
    && WellFormed(e)
    && Visible(e, StateName) == Visible(d, StateName)
    && forall c :: SomeVersionReads(e, c) ==> SomeVersionReads(d, c)
  }

  lemma CreatedKeeps(d: Disk)
    requires WellFormed(d)
    ensures Keeps(d, Created(d))
  {
  }

  lemma WithTempKeeps(d: Disk, f: File)
    requires WellFormed(d) && TempName in Live(d)
    ensures Keeps(d, WithTemp(d, f))
  {
  }

  lemma RemovedKeeps(d: Disk)
    requires WellFormed(d)
    ensures Keeps(d, Removed(d)) && TempName !in Live(Removed(d))
  {
  }

  /** The rename: a reader sees the new content, and a power cut the new or what it could show before. */
  lemma RenamedCommits(d: Disk, json: string)
    requires WellFormed(d) && TempName in Live(d) && d.files[Live(d)[TempName]] == File(json, true)
    ensures WellFormed(Renamed(d)) && Visible(Renamed(d), StateName) == Some(json)
    ensures forall c :: SomeVersionReads(Renamed(d), c) ==> SomeVersionReads(d, c) || c == Some(json)
    ensures TempName !in Live(Renamed(d))
  {
  }

  lemma DirSyncedKeeps(d: Disk)
    requires WellFormed(d)
    ensures Keeps(d, DirSynced(d)) && Live(DirSynced(d)) == Live(d)
    ensures forall c :: SomeVersionReads(DirSynced(d), c) ==> c == Visible(d, StateName)
  {
  }

  // ---- The save ----

  /** Error path: delete the temporary file; the guard's destructor tries once more. */
  function Cleanup(d: Disk, faults: Faults): seq<Disk>
    requires d.versions != []
  {
    if faults.remove || faults.removeAgain then [Removed(d)] else []
  }

  function Truncated(json: string, n: nat): string {
    if n < |json| then json[..n] else json
  }

  /** The disks a save passes through after its start, one per successful change. */
  function SaveTrace(d: Disk, json: string, faults: Faults): seq<Disk>
    requires d.versions != []
  {
    if TempName in Live(d) || !faults.create then []
    else
      var d1 := Created(d);
      if !faults.write then
        var d2 := WithTemp(d1, File(Truncated(json, faults.written), false));
        [d1, d2] + Cleanup(d2, faults)
      else
        var d2 := WithTemp(d1, File(json, false));
        if !faults.sync then [d1, d2] + Cleanup(d2, faults)
        else
          var d3 := WithTemp(d2, File(json, true));
          if !faults.rename then [d1, d2, d3] + Cleanup(d3, faults)
          else
            var d4 := Renamed(d3);
            if !faults.syncDir then [d1, d2, d3, d4] else [d1, d2, d3, d4, DirSynced(d4)]
  }

  function SaveResult(d: Disk, json: string, faults: Faults): SaveOutcome
    requires d.versions != []
  {
    if TempName in Live(d) || !faults.create || !faults.write || !faults.sync || !faults.rename then FailedBeforeRename
    else if !faults.syncDir then FailedAfterRename
    else Saved
  }

  function SaveFinal(d: Disk, json: string, faults: Faults): (e: Disk)
    requires d.versions != []
  {
    var trace := SaveTrace(d, json, faults);
    if trace == [] then d else trace[|trace| - 1]
  }

  /** The temporary file after it is created and given the content `f`. */
  lemma TempKeeps(d: Disk, f: File)
    requires WellFormed(d) && TempName !in Live(d)
    ensures Keeps(d, Created(d)) && TempName in Live(Created(d))
    ensures Keeps(d, WithTemp(Created(d), f)) && Live(WithTemp(Created(d), f)) == Live(Created(d))
  {
    CreatedKeeps(d);
    WithTempKeeps(Created(d), f);
  }

  /** A save that fails after writing `f` to the temporary file. */
  lemma AbandonedKeeps(d: Disk, f: File, faults: Faults)
    requires WellFormed(d) && TempName !in Live(d)
    ensures var e := WithTemp(Created(d), f);
            forall x :: x in [Created(d), e] + Cleanup(e, faults) ==> Keeps(d, x)
  {
    TempKeeps(d, f);
    RemovedKeeps(WithTemp(Created(d), f));
  }

  /** A disk with the save of `json` committed. */
  ghost predicate Commits(d: Disk, json: string, e: Disk) {
    && WellFormed(e)
    && Visible(e, StateName) == Some(json)
    && TempName !in Live(e)
    && forall c :: SomeVersionReads(e, c) ==> SomeVersionReads(d, c) || c == Some(json)
  }

  /** A save that gets as far as the rename. */
  lemma RenameCommits(d: Disk, json: string)
    requires WellFormed(d) && TempName !in Live(d)
    ensures var renamed := Renamed(WithTemp(Created(d), File(json, true)));
            && Commits(d, json, renamed) && Commits(d, json, DirSynced(renamed))
            && forall c :: SomeVersionReads(DirSynced(renamed), c) ==> c == Some(json)
  {
    var d3 := WithTemp(Created(d), File(json, true));
    TempKeeps(d, File(json, true));
    RenamedCommits(d3, json);
    DirSyncedKeeps(Renamed(d3));
  }

  lemma RewriteTemp(d: Disk, f: File, g: File)
    requires d.versions != [] && TempName in Live(d)
    ensures WithTemp(WithTemp(d, f), g) == WithTemp(d, g)
  {
  }

  lemma SaveTraceCases(d: Disk, json: string, faults: Faults)
    requires WellFormed(d)
    ensures forall e :: e in SaveTrace(d, json, faults) ==> Keeps(d, e) || Commits(d, json, e)
    ensures var e := SaveFinal(d, json, faults);
            if SaveResult(d, json, faults).Committed() then Commits(d, json, e) else Keeps(d, e)
  {
    if TempName !in Live(d) && faults.create {
      RewriteTemp(Created(d), File(json, false), File(json, true));
      AbandonedKeeps(d, File(Truncated(json, faults.written), false), faults);
      AbandonedKeeps(d, File(json, false), faults);
      AbandonedKeeps(d, File(json, true), faults);
      RenameCommits(d, json);
    }
  }

  /**
   Whatever fails, and wherever the machine stops: at every point of a save, a reader and
   any power cut find the state file whole, with old content or the new content.
   */
  lemma SaveIsAtomic(d: Disk, json: string, faults: Faults, k: nat)
    requires WellFormed(d) && k < |SaveTrace(d, json, faults)|
    ensures var e := SaveTrace(d, json, faults)[k];
            && WellFormed(e)
            && (Visible(e, StateName) == Visible(d, StateName) || Visible(e, StateName) == Some(json))
            && forall c :: MayRead(e, c) ==> MayRead(d, c) || c == Some(json)
  {
    SaveTraceCases(d, json, faults);
    var e := SaveTrace(d, json, faults)[k];
    assert Keeps(d, e) || Commits(d, json, e);
    forall c | MayRead(e, c)
      ensures MayRead(d, c) || c == Some(json)
    {
      MayReadIffVersion(e, c);
      MayReadIffVersion(d, c);
    }
  }

  /** An acknowledged save is durable: from then on a power cut can only show the new content. */
  lemma SavedIsDurable(d: Disk, json: string, faults: Faults, c: Option<string>)
    requires WellFormed(d) && SaveResult(d, json, faults) == Saved
    ensures WellFormed(SaveFinal(d, json, faults))
    ensures MayRead(SaveFinal(d, json, faults), c) <==> c == Some(json)
  {
    var e := SaveFinal(d, json, faults);
    SaveTraceCases(d, json, faults);
    RewriteTemp(Created(d), File(json, false), File(json, true));
    RenameCommits(d, json);
    assert Live(e) in e.versions;
    MayReadIffVersion(e, c);
  }

  /**
   The temporary file: one that was there before is never touched and stops the save;
   otherwise one is left behind exactly when the save failed after creating it and both
   attempts to delete it failed.
   */
  lemma TempFileFate(d: Disk, json: string, faults: Faults)
    requires WellFormed(d)
    ensures TempName in Live(d) ==>
              SaveFinal(d, json, faults) == d && SaveResult(d, json, faults) == FailedBeforeRename
    ensures TempName !in Live(d) ==>
              (TempName in Live(SaveFinal(d, json, faults)) <==>
               && faults.create && !SaveResult(d, json, faults).Committed()
               && !faults.remove && !faults.removeAgain)
  {
  }

  /** The directory that holds the state file. */
  class StateDirectory {
    var disk: Disk

    constructor (disk: Disk)
      requires WellFormed(disk)
      ensures this.disk == disk
    {
      this.disk := disk;
    }

    /** Delete the temporary file; if that fails, the guard's destructor tries once more. */
    method RemoveTemp(faults: Faults) returns (ghost trace: seq<Disk>)
      requires disk.versions != []
      modifies this
      ensures trace == Cleanup(old(disk), faults)
      ensures disk == if trace == [] then old(disk) else trace[0]
    {
      var finished := false;
      trace := [];
      if faults.remove {
        disk := Removed(disk);
        trace := [disk];
        finished := true;
      }
      if !finished && faults.removeAgain {
        disk := Removed(disk);
        trace := [disk];
      }
    }

    /** `trace` collects the disk after every change, so it holds every point of a crash. */
    method Save(json: string, faults: Faults) returns (outcome: SaveOutcome, ghost trace: seq<Disk>)
      requires WellFormed(disk)
      modifies this
      ensures WellFormed(disk)
      ensures outcome == SaveResult(old(disk), json, faults)
      ensures trace == SaveTrace(old(disk), json, faults) && disk == SaveFinal(old(disk), json, faults)
      ensures Visible(disk, StateName) == if outcome.Committed() then Some(json) else old(Visible(disk, StateName))
    {
      SaveTraceCases(disk, json, faults);
      if TempName in Live(disk) || !faults.create {
        return FailedBeforeRename, [];
      }
      disk := Created(disk);
      ghost var d1 := disk;
      disk := WithTemp(disk, File(if faults.write then json else Truncated(json, faults.written), false));
      ghost var d2 := disk;
      if !faults.write || !faults.sync {
        ghost var rest := RemoveTemp(faults);
        return FailedBeforeRename, [d1, d2] + rest;
      }
      disk := WithTemp(disk, File(json, true));
      ghost var d3 := disk;
      if !faults.rename {
        ghost var rest := RemoveTemp(faults);
        return FailedBeforeRename, [d1, d2, d3] + rest;
      }
      disk := Renamed(disk);
      ghost var d4 := disk;
      if !faults.syncDir {
        return FailedAfterRename, [d1, d2, d3, d4];
      }
      disk := DirSynced(disk);
      return Saved, [d1, d2, d3, d4, disk];
    }
  }
}
