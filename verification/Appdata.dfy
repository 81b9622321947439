/**
 Moving the appdata directory to another filesystem, and healing the `/appdata` link at
 the next boot.  The move stops apps, copies, flips the link, saves the config and
 restarts apps; the engine may die after any of these steps, or any of them may fail.
 */
module Appdata {
  import opened Wrappers

  type Path = string

  // Relative file name to contents.
  type Tree = map<string, string>

  datatype Link = NoLink | SymLink(target: Path) | RealEntry

  /** The apps config file.  Saving truncates it first, so it can be left torn. */
  datatype ConfigFile = Config(appdataPath: Option<Path>, storagePath: Option<Path>) | Torn

  datatype App = App(name: string, kind: string)

  datatype Host = Host(
    dirs: map<Path, Tree>,
    link: Link,
    config: ConfigFile,
    stopped: seq<App>,
    startAttempts: seq<App>)

  datatype SaveFault = SaveWorks | SaveCannotOpen | SaveBreaksOff

  /**
   Which commands of a move succeed.  The copy fails if it runs out of `copies` before
   the last file; a file being copied holds `partial`.
   */
  datatype Faults = Faults(
    stop: App -> bool, create: bool, copies: nat, partial: string, dropPartial: bool,
    removeLink: bool, makeLink: bool, readConfig: bool, save: SaveFault)

  datatype Outcome = Moved | Failed

  /** `load_config`: a file that cannot be read or parsed counts as the default. */
  function LoadedConfig(config: ConfigFile, readable: bool): (c: ConfigFile)
    ensures c.Config?
  {
    if readable && config.Config? then config else Config(None, None)
  }

  /** The config as loaded, with the appdata path set. */
  function ConfigFor(config: ConfigFile, readable: bool, path: Path): ConfigFile {
    Config(Some(path), LoadedConfig(config, readable).storagePath)
  }

  // ---- The link ----

  /** `ensure_appdata_symlink`: the hosts it passes through, and whether it succeeds. */
  function RelinkTrace(h: Host, target: Path, removeWorks: bool, makeWorks: bool): seq<Host> {
    match h.link
    case RealEntry => []
    case NoLink => if makeWorks then [h.(link := SymLink(target))] else []
    case SymLink(t) =>
      if t == target || !removeWorks then []
      else [h.(link := NoLink)] + if makeWorks then [h.(link := SymLink(target))] else []
  }

  predicate RelinkWorks(h: Host, target: Path, removeWorks: bool, makeWorks: bool) {
    match h.link
    case RealEntry => false
    case NoLink => makeWorks
    case SymLink(t) => t == target || (removeWorks && makeWorks)
  }

  function Relinked(h: Host, target: Path, removeWorks: bool, makeWorks: bool): Host {
    var trace := RelinkTrace(h, target, removeWorks, makeWorks);
    if trace == [] then h else trace[|trace| - 1]
  }

  function Hosts(trace: seq<Host>): set<Host> {
    set h | h in trace
  }

  lemma HostsOf(a: seq<Host>, b: seq<Host>)
    ensures Hosts(a + b) == Hosts(a) + Hosts(b)
  {
  }

  // ---- Safety of a move ----

  ghost predicate Complete(h: Host, p: Path, data: Tree) {
    p in h.dirs && h.dirs[p] == data
  }

  /** What the move starts from: the configured directory, a free target, a link that is right or absent. */
  ghost predicate Ready(h: Host, current: Path, target: Path) {
    && current in h.dirs && target !in h.dirs
    && h.config.Config? && h.config.appdataPath == Some(current)
    && (h.link.SymLink? ==> Complete(h, h.link.target, h.dirs[current]))
  }

  /**
   A host that a move from `before` may pass through.  The old directory and every other
   one are as they were; the link is absent or leads to a complete copy; the config names
   the target, or is torn, only once the link leads there.
   */
  ghost predicate Safe(before: Host, current: Path, target: Path, h: Host)
    requires current in before.dirs
  {
    var data := before.dirs[current];
    && before.dirs.Keys <= h.dirs.Keys <= before.dirs.Keys + {target}
    && (forall p :: p in before.dirs ==> h.dirs[p] == before.dirs[p])
    && (h.link.SymLink? ==> Complete(h, h.link.target, data))
    && (h.link.RealEntry? <==> before.link.RealEntry?)
    && (|| h.config == before.config
        || (h.link == SymLink(target) && (h.config.Torn? || h.config.appdataPath == Some(target))))
  }

  /** The host machine; every change goes through `Perform`, so `passed` holds every crash point. */
  class Machine {
    var host: Host
    ghost var passed: set<Host>

    constructor (host: Host)
      ensures this.host == host && passed == {}
    {
      this.host := host;
      this.passed := {};
    }

    method Perform(next: Host)
      modifies this
      ensures host == next && passed == old(passed) + {next}
    {
      host := next;
      passed := passed + {next};
    }

    method EnsureAppdataSymlink(target: Path, removeWorks: bool, makeWorks: bool) returns (ok: bool)
      modifies this
      ensures host == Relinked(old(host), target, removeWorks, makeWorks)
      ensures passed == old(passed) + Hosts(RelinkTrace(old(host), target, removeWorks, makeWorks))
      ensures ok == RelinkWorks(old(host), target, removeWorks, makeWorks)
      ensures ok ==> host.link == SymLink(target)
    {
      match host.link {
        case SymLink(t) =>
          if t == target {
            return true;
          }
          if !removeWorks {
            return false;
          }
          Perform(host.(link := NoLink));
        case RealEntry =>
          return false;
        case NoLink =>
      }
      if !makeWorks {
        return false;
      }
      Perform(host.(link := SymLink(target)));
      ok := true;
    }
  }

  // ---- The move ----

  ghost predicate AllSafe(hosts: set<Host>, before: Host, current: Path, target: Path)
    requires current in before.dirs
  {
    forall h :: h in hosts ==> Safe(before, current, target, h)
  }

  /** The running apps among `affected`, in order. */
  function Running(affected: seq<(App, bool)>): seq<App> {
    if affected == [] then []
    else
      var n := |affected| - 1;
      Running(affected[..n]) + if affected[n].1 then [affected[n].0] else []
  }

  lemma RunningStep(affected: seq<(App, bool)>, i: nat)
    requires i < |affected|
    ensures Running(affected[..i + 1]) == Running(affected[..i]) + if affected[i].1 then [affected[i].0] else []
  {
    assert affected[..i + 1][..i] == affected[..i];
  }

  /** Every running app can be stopped. */
  predicate AllStop(affected: seq<(App, bool)>, stop: App -> bool) {
    forall k :: 0 <= k < |affected| && affected[k].1 ==> stop(affected[k].0)
  }

  method StopApps(
      m: Machine, affected: seq<(App, bool)>, stop: App -> bool,
      ghost before: Host, ghost current: Path, ghost target: Path)
    returns (stopped: seq<App>, ok: bool)
    requires current in before.dirs && Safe(before, current, target, m.host)
    requires AllSafe(m.passed, before, current, target)
    modifies m
    ensures m.host == old(m.host).(stopped := old(m.host.stopped) + stopped)
    ensures stopped <= Running(affected) && (ok <==> stopped == Running(affected))
    ensures ok <==> AllStop(affected, stop)
    ensures AllSafe(m.passed, before, current, target)
  {
    stopped := [];
    ghost var start := m.host;
    assert affected[..|affected|] == affected;
    for i := 0 to |affected|
      invariant stopped == Running(affected[..i])
      invariant forall k :: 0 <= k < i && affected[k].1 ==> stop(affected[k].0)
      invariant m.host == start.(stopped := start.stopped + stopped)
      invariant AllSafe(m.passed, before, current, target)
    {
      RunningStep(affected, i);
      if affected[i].1 {
        if !stop(affected[i].0) {
          RunningPrefix(affected, i + 1);
          return stopped, false;
        }
        stopped := stopped + [affected[i].0];
        m.Perform(m.host.(stopped := m.host.stopped + [affected[i].0]));
      }
    }
    ok := true;
  }

  lemma {:induction false} RunningPrefix(affected: seq<(App, bool)>, i: nat)
    requires i <= |affected|
    ensures Running(affected[..i]) <= Running(affected)
    decreases |affected| - i
  {
    if i == |affected| {
      assert affected[..i] == affected;
    } else {
      RunningStep(affected, i);
      RunningPrefix(affected, i + 1);
    }
  }

  method StartApps(m: Machine, apps: seq<App>, ghost before: Host, ghost current: Path, ghost target: Path)
    requires current in before.dirs && Safe(before, current, target, m.host)
    requires AllSafe(m.passed, before, current, target)
    modifies m
    ensures m.host == old(m.host).(startAttempts := old(m.host.startAttempts) + apps)
    ensures AllSafe(m.passed, before, current, target)
  {
    ghost var start := m.host;
    for i := 0 to |apps|
      invariant m.host == start.(startAttempts := start.startAttempts + apps[..i])
      invariant AllSafe(m.passed, before, current, target)
    {
      assert apps[..i + 1] == apps[..i] + [apps[i]];
      m.Perform(m.host.(startAttempts := m.host.startAttempts + [apps[i]]));
    }
    assert apps[..|apps|] == apps;
  }

  /** Until the link is flipped, the target may hold anything. */
  lemma TargetIsFree(before: Host, current: Path, target: Path, h: Host, tree: Tree)
    requires current in before.dirs && target !in before.dirs && Safe(before, current, target, h)
    requires h.link == before.link && h.config == before.config
    requires before.link.SymLink? ==> Complete(before, before.link.target, before.dirs[current])
    ensures Safe(before, current, target, h.(dirs := h.dirs[target := tree]))
    ensures Safe(before, current, target, h.(dirs := h.dirs - {target}))
  {
  }

  /** Copy one file; it is partial before it is whole. */
  method CopyFile(
      m: Machine, target: Path, f: string, content: string, partial: string, ghost before: Host, ghost current: Path)
    requires Ready(before, current, target) && Safe(before, current, target, m.host)
    requires target in m.host.dirs && m.host.link == before.link && m.host.config == before.config
    requires AllSafe(m.passed, before, current, target)
    modifies m
    ensures m.host == old(m.host).(dirs := old(m.host.dirs)[target := old(m.host.dirs)[target][f := content]])
    ensures Safe(before, current, target, m.host) && AllSafe(m.passed, before, current, target)
  {
    var tree := m.host.dirs[target];
    TargetIsFree(before, current, target, m.host, tree[f := partial]);
    m.Perform(m.host.(dirs := m.host.dirs[target := tree[f := partial]]));
    TargetIsFree(before, current, target, m.host, tree[f := content]);
    m.Perform(m.host.(dirs := m.host.dirs[target := tree[f := content]]));
  }

  function Without(tree: Tree, left: set<string>): Tree {
    map f | f in tree && f !in left :: tree[f]
  }

  lemma OneMore(tree: Tree, left: set<string>, f: string)
    requires f in left && f in tree
    ensures Without(tree, left)[f := tree[f]] == Without(tree, left - {f})
  {
  }

  /** `cp -a current/. target`; fails when `copies` run out before the files do. */
  method CopyTree(m: Machine, current: Path, target: Path, copies: nat, partial: string, ghost before: Host)
    returns (ok: bool)
    requires Ready(before, current, target) && Safe(before, current, target, m.host)
    requires target in m.host.dirs && m.host.dirs[target] == map[]
    requires m.host.link == before.link && m.host.config == before.config && AllSafe(m.passed, before, current, target)
    modifies m
    ensures target in m.host.dirs && m.host == old(m.host).(dirs := old(m.host.dirs)[target := m.host.dirs[target]])
    ensures ok ==> m.host.dirs[target] == before.dirs[current]
    ensures ok <==> |before.dirs[current]| <= copies
    ensures Safe(before, current, target, m.host) && AllSafe(m.passed, before, current, target)
  {
    var data := m.host.dirs[current];
    var left, budget := data.Keys, copies;
    ghost var start := m.host;
    while left != {}
      invariant left <= data.Keys && copies - budget == |data.Keys| - |left|
      invariant m.host == start.(dirs := start.dirs[target := Without(data, left)])
      invariant Safe(before, current, target, m.host) && AllSafe(m.passed, before, current, target)
      decreases |left|
    {
      if budget == 0 {
        return false;
      }
      var f :| f in left;
      CopyFile(m, target, f, data[f], partial, before, current);
      OneMore(data, left, f);
      left, budget := left - {f}, budget - 1;
    }
    ok := true;
  }

  /** Saving the config truncates the file, then writes it. */
  method SaveConfig(
      m: Machine, config: ConfigFile, fault: SaveFault, ghost before: Host, ghost current: Path, ghost target: Path)
    returns (ok: bool)
    requires current in before.dirs && Safe(before, current, target, m.host)
    requires m.host.link == SymLink(target) && config.Config? && config.appdataPath == Some(target)
    requires AllSafe(m.passed, before, current, target)
    modifies m
    ensures ok <==> fault.SaveWorks?
    ensures m.host == old(m.host).(config := match fault
                                             case SaveWorks => config
                                             case SaveCannotOpen => old(m.host.config)
                                             case SaveBreaksOff => Torn)
    ensures AllSafe(m.passed, before, current, target)
  {
    if fault.SaveCannotOpen? {
      return false;
    }
    m.Perform(m.host.(config := Torn));
    if fault.SaveBreaksOff? {
      return false;
    }
    m.Perform(m.host.(config := config));
    ok := true;
  }

  lemma RelinkIsSafe(before: Host, current: Path, target: Path, h: Host, removeWorks: bool, makeWorks: bool)
    requires current in before.dirs && Safe(before, current, target, h) && h.config == before.config
    requires Complete(h, target, before.dirs[current])
    ensures forall x :: x in RelinkTrace(h, target, removeWorks, makeWorks) ==> Safe(before, current, target, x)
    ensures Safe(before, current, target, Relinked(h, target, removeWorks, makeWorks))
  {
  }

  /** Every command between stopping and starting apps succeeds. */
  predicate DataMoves(before: Host, current: Path, target: Path, faults: Faults)
    requires current in before.dirs
  {
    && faults.create && |before.dirs[current]| <= faults.copies
    && RelinkWorks(before, target, faults.removeLink, faults.makeLink)
    && faults.save.SaveWorks?
  }

  /** The new directory and the copy; a copy that breaks off is deleted if possible. */
  method MakeCopy(m: Machine, current: Path, target: Path, faults: Faults, ghost before: Host) returns (ok: bool)
    requires Ready(before, current, target) && Safe(before, current, target, m.host)
    requires m.host.dirs == before.dirs && m.host.link == before.link && m.host.config == before.config
    requires AllSafe(m.passed, before, current, target)
    modifies m
    ensures m.host == old(m.host).(dirs := m.host.dirs)
    ensures AllSafe(m.passed, before, current, target) && Safe(before, current, target, m.host)
    ensures ok <==> faults.create && |before.dirs[current]| <= faults.copies
    ensures ok ==> Complete(m.host, target, before.dirs[current])
    ensures target in m.host.dirs && !ok ==> !faults.dropPartial
  {
    if !faults.create {
      return false;
    }
    TargetIsFree(before, current, target, m.host, map[]);
    m.Perform(m.host.(dirs := m.host.dirs[target := map[]]));
    ok := CopyTree(m, current, target, faults.copies, faults.partial, before);
    if !ok && faults.dropPartial {
      TargetIsFree(before, current, target, m.host, map[]);
      m.Perform(m.host.(dirs := m.host.dirs - {target}));
    }
  }

  /** The part of the move between stopping and starting apps. */
  method MoveData(
      m: Machine, current: Path, target: Path, faults: Faults, ghost before: Host) returns (outcome: Outcome)
    requires Ready(before, current, target) && Safe(before, current, target, m.host)
    requires m.host.dirs == before.dirs && m.host.link == before.link && m.host.config == before.config
    requires AllSafe(m.passed, before, current, target)
    modifies m
    ensures m.host.stopped == old(m.host.stopped) && m.host.startAttempts == old(m.host.startAttempts)
    ensures AllSafe(m.passed, before, current, target) && Safe(before, current, target, m.host)
    ensures outcome.Moved? ==>
              && m.host.link == SymLink(target) && Complete(m.host, target, before.dirs[current])
              && m.host.config == ConfigFor(before.config, faults.readConfig, target)
    ensures outcome.Moved? <==> DataMoves(before, current, target, faults)
    ensures target in m.host.dirs && !Complete(m.host, target, before.dirs[current]) ==> !faults.dropPartial
  {
    var copied := MakeCopy(m, current, target, faults, before);
    if !copied {
      return Failed;
    }
    RelinkIsSafe(before, current, target, m.host, faults.removeLink, faults.makeLink);
    var linked := m.EnsureAppdataSymlink(target, faults.removeLink, faults.makeLink);
    if !linked {
      return Failed;
    }
    var config := ConfigFor(m.host.config, faults.readConfig, target);
    var saved := SaveConfig(m, config, faults.save, before, current, target);
    outcome := if saved then Moved else Failed;
  }

  /** `run_appdata_relocation`. */
  method Relocate(m: Machine, current: Path, target: Path, affected: seq<(App, bool)>, faults: Faults)
    returns (outcome: Outcome, stopped: seq<App>)
    requires Ready(m.host, current, target)
    modifies m
    // Wherever the engine dies, what it leaves is safe, and so is what it leaves in the end.
    ensures AllSafe(m.passed, old(m.host), current, target)
    ensures Safe(old(m.host), current, target, m.host)
    // Every app that was stopped, and no other, gets one start attempt, in order.
    ensures stopped <= Running(affected) && (outcome.Moved? ==> stopped == Running(affected))
    ensures m.host.stopped == old(m.host.stopped) + stopped
    ensures m.host.startAttempts == old(m.host.startAttempts) + stopped
    ensures outcome.Moved? ==>
              && m.host.link == SymLink(target) && Complete(m.host, target, old(m.host.dirs)[current])
              && m.host.config == ConfigFor(old(m.host.config), faults.readConfig, target)
    // The rest of the config survives exactly if it could be read back before the save.
    ensures outcome.Moved? ==>
              (m.host.config.storagePath == old(m.host.config.storagePath) <==>
               faults.readConfig || old(m.host.config.storagePath) == None)
    // It succeeds exactly when every command does.
    ensures outcome.Moved? <==> AllStop(affected, faults.stop) && DataMoves(old(m.host), current, target, faults)
    // An app that cannot be stopped ends it before anything is touched.
    ensures !AllStop(affected, faults.stop) ==>
              m.host.dirs == old(m.host.dirs) && m.host.link == old(m.host.link) && m.host.config == old(m.host.config)
    // A partial copy stays behind only if it could not be deleted.
    ensures target in m.host.dirs && !Complete(m.host, target, old(m.host.dirs)[current]) ==> !faults.dropPartial
  {
    ghost var before := m.host;
    m.passed := {};
    var ok;
    stopped, ok := StopApps(m, affected, faults.stop, before, current, target);
    outcome := Failed;
    if ok {
      outcome := MoveData(m, current, target, faults, before);
    }
    StartApps(m, stopped, before, current, target);
  }

  // ---- Loss of power ----

  /**
   What a loss of power may leave of `h`, a host that a move from `before` passed through.  What was there before
   the move is on disk; the link is the old one, the new one or none; the copy is safe once `written` back, and
   until then files of it, or the directory itself, may be missing or hold anything.
   */
  ghost predicate PowerLossLeaves(before: Host, target: Path, written: bool, h: Host, after: Host) {
    && after.link in {before.link, NoLink, h.link} && after.config in {before.config, h.config, Torn}
    && before.dirs.Keys <= after.dirs.Keys <= h.dirs.Keys
    && (forall p :: p in before.dirs && p in h.dirs ==> after.dirs[p] == h.dirs[p])
    && (written && target in h.dirs ==> target in after.dirs && after.dirs[target] == h.dirs[target])
    && (target in h.dirs && target in after.dirs ==> after.dirs[target].Keys <= h.dirs[target].Keys)
  }

  ghost predicate LinkIsGood(h: Host, data: Tree) {
    h.link.SymLink? ==> Complete(h, h.link.target, data)
  }

  ghost predicate SurvivesPowerLoss(before: Host, current: Path, target: Path, written: bool, h: Host)
    requires current in before.dirs
  {
    forall after :: PowerLossLeaves(before, target, written, h, after) ==> LinkIsGood(after, before.dirs[current])
  }

  /** The old directory survives every loss of power, whatever becomes of the copy. */
  lemma OldDataSurvives(before: Host, current: Path, target: Path, written: bool, h: Host, after: Host)
    requires Ready(before, current, target) && Safe(before, current, target, h)
    requires PowerLossLeaves(before, target, written, h, after)
    ensures Complete(after, current, before.dirs[current])
  {
  }

  /**
   The move does not wait for the copy to reach the disk.  A loss of power leaves the link absent or at a complete
   copy, whatever it leaves, exactly when the link does not yet lead to the copy or the copy has been written back.
   */
  lemma SurvivesPowerLossIff(before: Host, current: Path, target: Path, written: bool, h: Host)
    requires Ready(before, current, target) && Safe(before, current, target, h)
    ensures SurvivesPowerLoss(before, current, target, written, h) <==> h.link != SymLink(target) || written
  {
    if h.link == SymLink(target) && !written {
      var after := h.(dirs := h.dirs - {target});
      assert PowerLossLeaves(before, target, written, h, after) && !LinkIsGood(after, before.dirs[current]);
    } else {
      forall after | PowerLossLeaves(before, target, written, h, after)
        ensures LinkIsGood(after, before.dirs[current])
      {
      }
    }
  }

  // ---- Healing at boot ----

  predicate ValidFsName(name: string) {
    |name| > 0 && '/' !in name
  }

  function AppdataPath(fsName: string): Path {
    "/fs/" + fsName + "/appdata"
  }

  function UpToSlash(s: string): string {
    if |s| == 0 || s[0] == '/' then "" else [s[0]] + UpToSlash(s[1..])
  }

  /** `fs_root_segment`: the filesystem a path under `/fs/` lies on. */
  function FsRootSegment(path: Path): Option<string> {
    if "/fs/" <= path && |UpToSlash(path[4..])| > 0 then Some(UpToSlash(path[4..])) else None
  }

  lemma {:induction false} UpToSlashStops(name: string, tail: string)
    requires '/' !in name && |tail| > 0 && tail[0] == '/'
    ensures UpToSlash(name + tail) == name
  {
    if |name| == 0 {
      assert name + tail == tail;
    } else {
      assert (name + tail)[1..] == name[1..] + tail;
      UpToSlashStops(name[1..], tail);
    }
  }

  lemma SegmentOfAppdataPath(name: string)
    requires ValidFsName(name)
    ensures FsRootSegment(AppdataPath(name)) == Some(name)
  {
    assert AppdataPath(name)[4..] == name + "/appdata";
    UpToSlashStops(name, "/appdata");
  }

  datatype HealFaults = HealFaults(readConfig: bool, create: bool, removeLink: bool, makeLink: bool, save: SaveFault)

  const ALL_WORKS := HealFaults(true, true, true, true, SaveWorks)

  /** The filesystem the boot path heals for: the config's appdata path, else its storage path. */
  function HealedFs(config: ConfigFile): Option<string> {
    match config
    case Torn => None
    case Config(Some(p), _) => FsRootSegment(p)
    case Config(None, Some(p)) => FsRootSegment(p)
    case Config(None, None) => None
  }

  function ConfigAfter(config: ConfigFile, path: Path, save: SaveFault): ConfigFile {
    if config.Config? && config.appdataPath != Some(path)
    then match save
         case SaveWorks => config.(appdataPath := Some(path))
         case SaveCannotOpen => config
         case SaveBreaksOff => Torn
    else config
  }

  function Healed(h: Host, faults: HealFaults): Host {
    match HealedFs(LoadedConfig(h.config, faults.readConfig))
    case None => h
    case Some(name) =>
      var path := AppdataPath(name);
      if path !in h.dirs && !faults.create then h
      else
        var made := if path in h.dirs then h else h.(dirs := h.dirs[path := map[]]);
        var linked := Relinked(made, path, faults.removeLink, faults.makeLink);
        if !RelinkWorks(made, path, faults.removeLink, faults.makeLink) then linked
        else linked.(config := ConfigAfter(h.config, path, faults.save))
  }

  function ConfigTrace(h: Host, path: Path, save: SaveFault): seq<Host> {
    if h.config.Config? && h.config.appdataPath != Some(path)
    then match save
         case SaveWorks => [h.(config := Torn), h.(config := h.config.(appdataPath := Some(path)))]
         case SaveCannotOpen => []
         case SaveBreaksOff => [h.(config := Torn)]
    else []
  }

  /** The hosts that healing passes through. */
  function HealTrace(h: Host, faults: HealFaults): seq<Host> {
    match HealedFs(LoadedConfig(h.config, faults.readConfig))
    case None => []
    case Some(name) =>
      var path := AppdataPath(name);
      if path !in h.dirs && !faults.create then []
      else
        var made := if path in h.dirs then h else h.(dirs := h.dirs[path := map[]]);
        var linked := Relinked(made, path, faults.removeLink, faults.makeLink);
        (if path in h.dirs then [] else [made])
        + RelinkTrace(made, path, faults.removeLink, faults.makeLink)
        + if RelinkWorks(made, path, faults.removeLink, faults.makeLink)
          then ConfigTrace(linked, path, faults.save)
          else []
  }

  /** The config names the path that was set up, if it did not already. */
  method RememberPath(m: Machine, path: Path, save: SaveFault)
    modifies m
    ensures m.host == old(m.host).(config := ConfigAfter(old(m.host.config), path, save))
    ensures m.passed == old(m.passed) + Hosts(ConfigTrace(old(m.host), path, save))
  {
    var config := m.host.config;
    if config.Config? && config.appdataPath != Some(path) {
      match save {
        case SaveCannotOpen =>
        case SaveBreaksOff =>
          m.Perform(m.host.(config := Torn));
        case SaveWorks =>
          m.Perform(m.host.(config := Torn));
          m.Perform(m.host.(config := config.(appdataPath := Some(path))));
      }
    }
  }

  lemma RelinkKeepsConfig(h: Host, target: Path, removeWorks: bool, makeWorks: bool)
    ensures Relinked(h, target, removeWorks, makeWorks).config == h.config
  {
  }

  /** The appdata part of `restore`. */
  method HealAppdata(m: Machine, faults: HealFaults)
    modifies m
    ensures m.host == Healed(old(m.host), faults)
    ensures m.passed == old(m.passed) + Hosts(HealTrace(old(m.host), faults))
  {
    hide AppdataPath, HealedFs, RelinkTrace, Relinked, RelinkWorks, ConfigAfter, ConfigTrace, Hosts;
    NoHosts();
    var fsName := HealedFs(LoadedConfig(m.host.config, faults.readConfig));
    if fsName.None? {
      return;
    }
    var path := AppdataPath(fsName.value);
    ghost var start: seq<Host> := [];
    if path !in m.host.dirs {
      if !faults.create {
        return;
      }
      m.Perform(m.host.(dirs := m.host.dirs[path := map[]]));
      start := [m.host];
      OneHost(m.host);
    }
    ghost var made := m.host;
    ghost var relinks := RelinkTrace(made, path, faults.removeLink, faults.makeLink);
    HostsOf(start, relinks);
    RelinkKeepsConfig(made, path, faults.removeLink, faults.makeLink);
    var linked := m.EnsureAppdataSymlink(path, faults.removeLink, faults.makeLink);
    ghost var saves: seq<Host> := [];
    if linked {
      saves := ConfigTrace(m.host, path, faults.save);
      RememberPath(m, path, faults.save);
    }
    HostsOf(start + relinks, saves);
    assert HealTrace(old(m.host), faults) == start + relinks + saves;
  }

  lemma NoHosts()
    ensures Hosts([]) == {}
  {
  }

  lemma OneHost(h: Host)
    ensures Hosts([h]) == {h}
  {
  }

  /** In a state that a move can leave, healing only ever touches the link. */
  lemma HealingRelinksOnly(before: Host, from: string, to: string, h: Host, faults: HealFaults)
    requires ValidFsName(from) && ValidFsName(to)
    requires Ready(before, AppdataPath(from), AppdataPath(to)) && Safe(before, AppdataPath(from), AppdataPath(to), h)
    ensures HealTrace(h, faults) == [] ||
            (exists name :: name in {from, to} && AppdataPath(name) in h.dirs && h.config.Config?
               && h.config.appdataPath == Some(AppdataPath(name))
               && HealTrace(h, faults) == RelinkTrace(h, AppdataPath(name), faults.removeLink, faults.makeLink))
  {
    hide RelinkTrace, Relinked, RelinkWorks;
    if h.config.Config? && faults.readConfig {
      var name := if h.config.appdataPath == Some(AppdataPath(from)) then from else to;
      SegmentOfAppdataPath(name);
      hide AppdataPath, FsRootSegment;
      assert LoadedConfig(h.config, true) == h.config && HealedFs(h.config) == Some(name);
      RelinkKeepsConfig(h, AppdataPath(name), faults.removeLink, faults.makeLink);
      var trace := RelinkTrace(h, AppdataPath(name), faults.removeLink, faults.makeLink);
      assert [] + trace + [] == trace;
      assert name in {from, to} && HealTrace(h, faults) == trace;
    }
  }

  /** Every host that healing passes through after a move is again one that a move can leave. */
  lemma HealingIsSafe(before: Host, from: string, to: string, h: Host, faults: HealFaults, x: Host)
    requires ValidFsName(from) && ValidFsName(to)
    requires Ready(before, AppdataPath(from), AppdataPath(to)) && Safe(before, AppdataPath(from), AppdataPath(to), h)
    requires x in HealTrace(h, faults)
    ensures Safe(before, AppdataPath(from), AppdataPath(to), x)
  {
    HealingRelinksOnly(before, from, to, h, faults);
    hide AppdataPath, HealTrace;
  }

  /** `hosts[k + 1]` is what a boot leaves that may end anywhere in healing. */
  ghost predicate Boots(hosts: seq<Host>, faults: seq<HealFaults>, k: nat)
    requires k < |faults| < |hosts|
  {
    hosts[k + 1] == hosts[k] || hosts[k + 1] in HealTrace(hosts[k], faults[k])
  }

  /** However many boots break off in the middle of healing, the state stays one that a move can leave. */
  lemma {:induction false} BrokenBootsAreSafe(
      before: Host, from: string, to: string, hosts: seq<Host>, faults: seq<HealFaults>, k: nat)
    requires ValidFsName(from) && ValidFsName(to) && Ready(before, AppdataPath(from), AppdataPath(to))
    requires |hosts| == |faults| + 1 && k < |hosts| && Safe(before, AppdataPath(from), AppdataPath(to), hosts[0])
    requires forall i :: 0 <= i < |faults| ==> Boots(hosts, faults, i)
    ensures Safe(before, AppdataPath(from), AppdataPath(to), hosts[k])
  {
    hide AppdataPath, HealTrace, Safe, Ready, ValidFsName;
    if k > 0 {
      BrokenBootsAreSafe(before, from, to, hosts, faults, k - 1);
      assert Boots(hosts, faults, k - 1);
      if hosts[k] != hosts[k - 1] {
        HealingIsSafe(before, from, to, hosts[k - 1], faults[k - 1], hosts[k]);
      }
    }
  }

  /**
   Boot after any crash or failure of a move.  Whatever fails, data and config stay and the
   link is absent or leads to a complete copy.  If nothing fails, the link leads to a complete
   copy, and to the one the config names whenever the config can be read.
   */
  lemma HealingAfterMove(before: Host, from: string, to: string, h: Host, faults: HealFaults)
    requires ValidFsName(from) && ValidFsName(to)
    requires Ready(before, AppdataPath(from), AppdataPath(to))
    requires Safe(before, AppdataPath(from), AppdataPath(to), h)
    ensures var g := Healed(h, faults);
            && g.dirs == h.dirs && g.config == h.config
            && (g.link.SymLink? ==> Complete(g, g.link.target, before.dirs[AppdataPath(from)]))
    ensures var g := Healed(h, ALL_WORKS);
            before.link.RealEntry? ||
            (&& g.link.SymLink? && Complete(g, g.link.target, before.dirs[AppdataPath(from)])
             && (g.config.Config? ==> g.config.appdataPath == Some(g.link.target)))
  {
    SegmentOfAppdataPath(from);
    SegmentOfAppdataPath(to);
  }

  /** And one clean boot after them ends with a link to a complete copy. */
  lemma CleanBootAfterBrokenOnes(before: Host, from: string, to: string, hosts: seq<Host>, faults: seq<HealFaults>)
    requires ValidFsName(from) && ValidFsName(to) && Ready(before, AppdataPath(from), AppdataPath(to))
    requires |hosts| == |faults| + 1 && Safe(before, AppdataPath(from), AppdataPath(to), hosts[0])
    requires forall i :: 0 <= i < |faults| ==> Boots(hosts, faults, i)
    ensures var g := Healed(hosts[|faults|], ALL_WORKS);
            before.link.RealEntry? || (g.link.SymLink? && Complete(g, g.link.target, before.dirs[AppdataPath(from)]))
  {
    BrokenBootsAreSafe(before, from, to, hosts, faults, |faults|);
    HealingAfterMove(before, from, to, hosts[|faults|], ALL_WORKS);
    hide AppdataPath, Healed, Complete, Safe;
  }

  // ---- Setting up at boot ----

  lemma {:induction false} UpToSlashIs(name: string, tail: string)
    requires '/' !in name && (|tail| > 0 ==> tail[0] == '/')
    ensures UpToSlash(name + tail) == name
  {
    if |tail| > 0 {
      UpToSlashStops(name, tail);
    } else if |name| == 0 {
      assert name + tail == tail;
    } else {
      assert (name + tail)[1..] == name[1..] + tail;
      UpToSlashIs(name[1..], tail);
    }
  }

  lemma SegmentIs(name: string, tail: string)
    requires ValidFsName(name) && (|tail| > 0 ==> tail[0] == '/')
    ensures FsRootSegment("/fs/" + name + tail) == Some(name)
  {
    assert ("/fs/" + name + tail)[4..] == name + tail;
    UpToSlashIs(name, tail);
  }

  /** The path whose file system a boot sets up appdata on: the one saved for appdata, else the storage path. */
  predicate SetsUpFrom(config: ConfigFile, p: Path) {
    config.Config? && (config.appdataPath == Some(p) || (config.appdataPath.None? && config.storagePath == Some(p)))
  }

  /**
   A boot in which nothing fails: the directory exists, with what it held or else empty, the link leads
   to it, and the config names it.  An entry of the user's in the place of the link stops all but the first.
   */
  lemma CleanBootSetsUp(h: Host, name: string, tail: string)
    requires |name| > 0 && '/' !in name && (|tail| > 0 ==> tail[0] == '/')
    requires SetsUpFrom(h.config, "/fs/" + name + tail)
    ensures var path := "/fs/" + name + "/appdata";
            var dirs := if path in h.dirs then h.dirs else h.dirs[path := map[]];
            Healed(h, ALL_WORKS) ==
            if h.link.RealEntry? then h.(dirs := dirs)
            else Host(dirs, SymLink(path), Config(Some(path), h.config.storagePath), h.stopped, h.startAttempts)
  {
    SegmentIs(name, tail);
    var src := "/fs/" + name + tail;
    hide FsRootSegment;
    assert HealedFs(h.config) == Some(name);
    hide HealedFs;
  }

  /** With no path to set up from, a boot changes nothing, whatever fails. */
  lemma NothingToSetUp(h: Host, faults: HealFaults)
    requires forall p :: SetsUpFrom(h.config, p) ==> !("/fs/" <= p) || "/fs/" == p || p[4] == '/'
    ensures Healed(h, faults) == h && |HealTrace(h, faults)| == 0
  {
    var config := h.config;
    if config.Config? && faults.readConfig && (config.appdataPath.Some? || config.storagePath.Some?) {
      var p := if config.appdataPath.Some? then config.appdataPath.value else config.storagePath.value;
      assert SetsUpFrom(config, p);
      assert FsRootSegment(p).None?;
    }
  }
}
