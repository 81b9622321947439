/**
 Backup runs interleaved with creations, edits, deletions, migrations and repository marks
 of the profile list.  The list is read and replaced under its lock, but a run and an edit
 each do so more than once, and anything may happen in between.
 */
module BackupRuns {
  import opened Wrappers
  import opened StateFile
  import opened Secrets

  /** An update that has read the stored profile and not yet written its own. */
  datatype Edit = Edit(id: string, update: Profile, existing: Profile, seal: Sealer) {
    function Prepared(): Profile {
      Secrets.Prepared(update, existing, seal)
    }
  }

  /** `Recorded` runs have stored a success and are about to prune. */
  datatype Run =
    | Fetched(id: string, profile: Profile)
    | Executing(id: string, profile: Profile)
    | Recorded(profile: Profile)
    | Ended
  {
    predicate InProgress() {
      Fetched? || Executing?
    }
  }

  datatype Prune = Prune(run: nat, definition: Definition)

  datatype World = World(
    profiles: seq<Profile>,
    edits: map<nat, Edit>,
    runs: map<nat, Run>,
    // What each run worked on.
    used: map<nat, Definition>,
    // How each run came out.
    results: map<nat, RunResult>,
    pruned: seq<Prune>,
    urls: Urls)

  datatype Step =
    | Create(profile: Profile, seal: Sealer, outcome: SaveOutcome)
    | EditRead(edit: nat, id: string, update: Profile, seal: Sealer)
    | EditWrite(edit: nat, outcome: SaveOutcome)
    | Delete(id: string, outcome: SaveOutcome)
    | Migrate(seal: Sealer, outcome: SaveOutcome)
    | MarkInitialized(id: string, initialized: Profile, outcome: SaveOutcome)
    | RunFetch(run: nat, id: string)
    | RunRefetch(run: nat)
    | RunFinish(run: nat, success: bool, message: string, outcome: SaveOutcome)
    | RunPrune(run: nat)

  // ---- Looking up profiles ----

  function IndexOf(ps: seq<Profile>, id: string): (r: Option<nat>)
    ensures r.Some? ==> r.value < |ps| && ps[r.value].id == id && forall i :: 0 <= i < r.value ==> ps[i].id != id
    ensures r.None? ==> forall i :: 0 <= i < |ps| ==> ps[i].id != id
    decreases |ps|
  {
    if |ps| == 0 then None
    else
      var before := IndexOf(ps[..|ps| - 1], id);
      if before.Some? then before
      else if ps[|ps| - 1].id == id then Some(|ps| - 1)
      else None
  }

  /** `profile.id == id && backup_definition_matches(profile, executed)`. */
  predicate Unchanged(p: Profile, id: string, executed: Profile) {
    p.id == id && DefinitionMatches(p, executed)
  }

  function IndexUnchanged(ps: seq<Profile>, id: string, executed: Profile): (r: Option<nat>)
    ensures r.Some? ==>
              r.value < |ps| && Unchanged(ps[r.value], id, executed)
              && forall i :: 0 <= i < r.value ==> !Unchanged(ps[i], id, executed)
    ensures r.None? ==> forall i :: 0 <= i < |ps| ==> !Unchanged(ps[i], id, executed)
    decreases |ps|
  {
    if |ps| == 0 then None
    else
      var before := IndexUnchanged(ps[..|ps| - 1], id, executed);
      if before.Some? then before
      else if Unchanged(ps[|ps| - 1], id, executed) then Some(|ps| - 1)
      else None
  }

  function Without(ps: seq<Profile>, id: string): (r: seq<Profile>)
    ensures forall p :: p in r <==> p in ps && p.id != id
  {
    if |ps| == 0 then []
    else
      assert forall p :: p in ps <==> p == ps[0] || p in ps[1..];
      (if ps[0].id != id then [ps[0]] else []) + Without(ps[1..], id)
  }

  // ---- Steps ----

  function Published(ps: seq<Profile>, next: seq<Profile>, outcome: SaveOutcome): seq<Profile> {
    if outcome.Committed() then next else ps
  }

  /** Callers may send any profile, its id and its last run included. */
  predicate Enabled(w: World, step: Step) {
    match step
    case EditRead(e, id, _, _) => e !in w.edits && IndexOf(w.profiles, id).Some?
    case EditWrite(e, _) => e in w.edits
    case RunFetch(r, id) => r !in w.runs && IndexOf(w.profiles, id).Some?
    case RunRefetch(r) => r in w.runs && w.runs[r].Fetched? && IndexOf(w.profiles, w.runs[r].id).Some?
    case RunFinish(r, success, _, _) => r in w.runs && w.runs[r].InProgress() && (w.runs[r].Fetched? ==> !success)
    case RunPrune(r) => r in w.runs && w.runs[r].Recorded?
    case _ => true
  }

  predicate Clashes(ps: seq<Profile>, p: Profile) {
    exists i :: 0 <= i < |ps| && (ps[i].id == p.id || ps[i].name == p.name)
  }

  function Created(ps: seq<Profile>, p: Profile, seal: Sealer): seq<Profile> {
    if Clashes(ps, p) then ps else ps + [Encrypted(p, seal)]
  }

  function Written(ps: seq<Profile>, id: string, prepared: Profile): seq<Profile> {
    match IndexOf(ps, id)
    case None => ps
    case Some(i) => ps[i := prepared]
  }

  function Marked(ps: seq<Profile>, id: string, initialized: Profile): seq<Profile> {
    match IndexOf(ps, id)
    case None => ps
    case Some(i) => if DefinitionMatches(ps[i], initialized) then ps[i := ps[i].(repoInitialized := true)] else ps
  }

  function WithRecord(ps: seq<Profile>, id: string, executed: Profile, result: RunResult): (next: seq<Profile>)
    ensures |next| == |ps|
  {
    match IndexUnchanged(ps, id, executed)
    case None => ps
    case Some(i) => ps[i := ps[i].(lastRun := Some(result))]
  }

  /** The list after `step`. */
  function ProfilesAfter(w: World, step: Step): seq<Profile>
    requires Enabled(w, step)
  {
    match step
    case Create(p, seal, o) => Published(w.profiles, Created(w.profiles, NormalizedProfile(p, w.urls), seal), o)
    case EditWrite(e, o) => Published(w.profiles, Written(w.profiles, w.edits[e].id, w.edits[e].Prepared()), o)
    case Delete(id, o) => Published(w.profiles, Without(w.profiles, id), o)
    case Migrate(seal, o) => Published(w.profiles, Migrated(w.profiles, w.urls, seal), o)
    case MarkInitialized(id, p, o) => Published(w.profiles, Marked(w.profiles, id, p), o)
    case RunFinish(r, success, message, o) =>
      Published(w.profiles, WithRecord(w.profiles, w.runs[r].id, w.runs[r].profile, RunResult(r, success, message)), o)
    case _ => w.profiles
  }

  /** A success whose record found its profile and was saved without error goes on to prune. */
  function AfterFinish(w: World, r: nat, success: bool, outcome: SaveOutcome): Run
    requires r in w.runs && w.runs[r].InProgress()
  {
    if success && outcome == Saved && IndexUnchanged(w.profiles, w.runs[r].id, w.runs[r].profile).Some?
    then Recorded(w.runs[r].profile)
    else Ended
  }

  /** The profile that a lookup by `id` finds. */
  function Found(w: World, id: string): Profile
    requires IndexOf(w.profiles, id).Some?
  {
    w.profiles[IndexOf(w.profiles, id).value]
  }

  function EditsAfter(w: World, step: Step): map<nat, Edit>
    requires Enabled(w, step)
  {
    match step
    case EditRead(e, id, update, seal) =>
      w.edits[e := Edit(id, NormalizedProfile(update, w.urls), Found(w, id), seal)]
    case EditWrite(e, _) => w.edits - {e}
    case _ => w.edits
  }

  function RunsAfter(w: World, step: Step): map<nat, Run>
    requires Enabled(w, step)
  {
    match step
    case RunFetch(r, id) => w.runs[r := Fetched(id, Found(w, id))]
    case RunRefetch(r) => w.runs[r := Executing(w.runs[r].id, Found(w, w.runs[r].id))]
    case RunFinish(r, success, _, o) => w.runs[r := AfterFinish(w, r, success, o)]
    case RunPrune(r) => w.runs[r := Ended]
    case _ => w.runs
  }

  function UsedAfter(w: World, step: Step): map<nat, Definition>
    requires Enabled(w, step)
  {
    match step
    case RunFetch(r, id) => w.used[r := DefinitionOf(Found(w, id), w.urls)]
    case RunRefetch(r) => w.used[r := DefinitionOf(Found(w, w.runs[r].id), w.urls)]
    case _ => w.used
  }

  function ResultsAfter(w: World, step: Step): map<nat, RunResult> {
    if step.RunFinish? then w.results[step.run := RunResult(step.run, step.success, step.message)] else w.results
  }

  function PrunedAfter(w: World, step: Step): seq<Prune>
    requires Enabled(w, step)
  {
    if step.RunPrune? then w.pruned + [Prune(step.run, DefinitionOf(w.runs[step.run].profile, w.urls))] else w.pruned
  }

  function Apply(w: World, step: Step): World
    requires Enabled(w, step)
  {
    World(ProfilesAfter(w, step), EditsAfter(w, step), RunsAfter(w, step), UsedAfter(w, step), ResultsAfter(w, step),
          PrunedAfter(w, step), w.urls)
  }

  ghost predicate Follows(states: seq<World>, steps: seq<Step>, i: nat)
    requires i < |steps| < |states|
  {
    Enabled(states[i], steps[i]) && states[i + 1] == Apply(states[i], steps[i])
  }

  /** The engine starts with a list from disk, results of runs of earlier lives, and nothing under way. */
  predicate Initial(w: World) {
    && w.edits == map[] && w.pruned == []
    && w.runs.Keys == w.used.Keys == w.results.Keys
    && forall r :: r in w.runs ==> w.runs[r].Ended?
  }

  ghost predicate IsHistory(states: seq<World>, steps: seq<Step>) {
    && |states| == |steps| + 1 && Initial(states[0]) && states[0].urls.Lawful()
    && forall i :: 0 <= i < |steps| ==> Follows(states, steps, i)
  }

  // ---- What every history keeps, whatever callers send ----

  /** A run in progress, or about to prune, knows what it worked on. */
  predicate RunSound(w: World, r: nat)
    requires r in w.runs
  {
    match w.runs[r]
    case Ended => r in w.results
    case Recorded(p) => r in w.results && r in w.used && w.used[r] == DefinitionOf(p, w.urls)
    case _ =>
      && r !in w.results && r in w.used
      && w.used[r] == DefinitionOf(w.runs[r].profile, w.urls) && w.runs[r].profile.id == w.runs[r].id
  }

  ghost predicate Inv(w: World) {
    && w.urls.Lawful() && w.used.Keys == w.runs.Keys && w.results.Keys <= w.runs.Keys
    && forall r :: r in w.runs ==> RunSound(w, r)
  }

  lemma RunSoundKept(w: World, step: Step, r: nat)
    requires Inv(w) && Enabled(w, step) && r in Apply(w, step).runs
    ensures RunSound(Apply(w, step), r)
  {
    hide DefinitionOf, ProfilesAfter, EditsAfter, PrunedAfter, IndexUnchanged, IndexOf;
    if r in w.runs {
      assert RunSound(w, r);
    }
  }

  lemma InvKept(w: World, step: Step)
    requires Inv(w) && Enabled(w, step)
    ensures Inv(Apply(w, step))
  {
    hide RunSound, ProfilesAfter, EditsAfter, PrunedAfter, DefinitionOf, IndexOf, IndexUnchanged, AfterFinish;
    forall r | r in Apply(w, step).runs
      ensures RunSound(Apply(w, step), r)
    {
      RunSoundKept(w, step, r);
    }
  }

  lemma {:induction false} InvAlways(states: seq<World>, steps: seq<Step>, k: nat)
    requires IsHistory(states, steps) && k < |states|
    ensures Inv(states[k])
  {
    if k > 0 {
      InvAlways(states, steps, k - 1);
      assert Follows(states, steps, k - 1);
      InvKept(states[k - 1], steps[k - 1]);
    }
  }

  /** Recording touches one field of one profile, and that profile is what the run worked on. */
  lemma RecordOnlyOnMatch(ps: seq<Profile>, id: string, executed: Profile, result: RunResult, i: nat, urls: Urls)
    requires executed.id == id && i < |ps|
    ensures var p := WithRecord(ps, id, executed, result)[i];
            || p == ps[i]
            || (&& p == ps[i].(lastRun := Some(result)) && p.id == id
                && DefinitionOf(p, urls) == DefinitionOf(executed, urls))
  {
  }

  /**
   However creations, edits, deletions and migrations interleave with runs, and whatever they
   send: the result of a run is stored only on a profile with the id, sources, target,
   credentials and CA that the run used, and changes nothing else.
   */
  lemma ResultOnlyOnWhatWasUsed(states: seq<World>, steps: seq<Step>, k: nat, i: nat)
    requires IsHistory(states, steps) && k < |steps| && steps[k].RunFinish? && i < |states[k].profiles|
    ensures |states[k + 1].profiles| == |states[k].profiles| && steps[k].run in states[k].used
    ensures var p, q := states[k].profiles[i], states[k + 1].profiles[i];
            q == p || (q == p.(lastRun := q.lastRun) && DefinitionOf(q, states[k].urls) == states[k].used[steps[k].run])
  {
    InvAlways(states, steps, k);
    assert Follows(states, steps, k);
    var w, r := states[k], steps[k].run;
    assert RunSound(w, r);
    var result := RunResult(r, steps[k].success, steps[k].message);
    RecordOnlyOnMatch(w.profiles, w.runs[r].id, w.runs[r].profile, result, i, w.urls);
  }

  lemma ResultKept(w: World, step: Step, r: nat)
    requires Inv(w) && Enabled(w, step) && r in w.results
    ensures var next := Apply(w, step);
            && r in next.results && next.results[r] == w.results[r]
            && r in w.used && r in next.used && next.used[r] == w.used[r]
  {
    hide ProfilesAfter, EditsAfter, PrunedAfter, RunsAfter, DefinitionOf, IndexOf;
    assert RunSound(w, r);
  }

  /** What a run worked on, and how it came out, is never rewritten once it is over. */
  lemma {:induction false} UsedIsFinal(states: seq<World>, steps: seq<Step>, i: nat, k: nat, r: nat)
    requires IsHistory(states, steps) && i <= k < |states| && r in states[i].results
    ensures r in states[k].results && states[k].results[r] == states[i].results[r]
    ensures r in states[i].used && r in states[k].used && states[k].used[r] == states[i].used[r]
  {
    hide Apply, RunSound, Enabled;
    InvAlways(states, steps, i);
    if i < k {
      UsedIsFinal(states, steps, i, k - 1, r);
      InvAlways(states, steps, k - 1);
      assert Follows(states, steps, k - 1);
      ResultKept(states[k - 1], steps[k - 1], r);
    }
  }

  // ---- Pruning ----

  /** Step `j` stored a success of run `r` on profile `i`, which read as `d` then, without error. */
  ghost predicate StoredSuccess(states: seq<World>, steps: seq<Step>, j: nat, i: nat, r: nat, d: Definition)
    requires IsHistory(states, steps)
  {
    && j < |steps| && steps[j].RunFinish? && steps[j].run == r && steps[j].success && steps[j].outcome == Saved
    && i < |states[j + 1].profiles|
    && states[j + 1].profiles[i].lastRun == Some(RunResult(r, true, steps[j].message))
    && DefinitionOf(states[j + 1].profiles[i], states[j + 1].urls) == d
  }

  lemma InProgressIsSound(w: World, r: nat)
    requires Inv(w) && r in w.runs && w.runs[r].InProgress()
    ensures r in w.used && w.used[r] == DefinitionOf(w.runs[r].profile, w.urls) && w.runs[r].profile.id == w.runs[r].id
  {
    assert RunSound(w, r);
  }

  lemma RecordLands(ps: seq<Profile>, id: string, executed: Profile, result: RunResult, urls: Urls)
    requires executed.id == id && IndexUnchanged(ps, id, executed).Some?
    ensures var p := WithRecord(ps, id, executed, result)[IndexUnchanged(ps, id, executed).value];
            p.lastRun == Some(result) && DefinitionOf(p, urls) == DefinitionOf(executed, urls)
  {
  }

  lemma RecordedWasStored(states: seq<World>, steps: seq<Step>, j: nat, r: nat) returns (i: nat)
    requires IsHistory(states, steps) && j < |steps|
    requires r in states[j + 1].runs && states[j + 1].runs[r].Recorded?
    requires r in states[j].runs ==> !states[j].runs[r].Recorded?
    ensures StoredSuccess(states, steps, j, i, r, DefinitionOf(states[j + 1].runs[r].profile, states[j + 1].urls))
  {
    hide DefinitionOf, EditsAfter, UsedAfter, PrunedAfter, ResultsAfter, Inv;
    InvAlways(states, steps, j);
    assert Follows(states, steps, j);
    InProgressIsSound(states[j], r);
    var run := states[j].runs[r];
    i := IndexUnchanged(states[j].profiles, run.id, run.profile).value;
    RecordLands(states[j].profiles, run.id, run.profile, RunResult(r, true, steps[j].message), states[j].urls);
  }

  lemma {:induction false} RecordedHasRecord(
      states: seq<World>, steps: seq<Step>, k: nat, r: nat) returns (j: nat, i: nat)
    requires IsHistory(states, steps) && k < |states| && r in states[k].runs && states[k].runs[r].Recorded?
    ensures j < k && StoredSuccess(states, steps, j, i, r, DefinitionOf(states[k].runs[r].profile, states[k].urls))
  {
    assert k > 0;
    assert Follows(states, steps, k - 1);
    if r in states[k - 1].runs && states[k - 1].runs[r].Recorded? {
      j, i := RecordedHasRecord(states, steps, k - 1, r);
    } else {
      j := k - 1;
      i := RecordedWasStored(states, steps, j, r);
    }
  }

  lemma RecordedIsSound(states: seq<World>, steps: seq<Step>, k: nat, r: nat)
    requires IsHistory(states, steps) && k < |states| && r in states[k].runs && states[k].runs[r].Recorded?
    ensures r in states[k].results && r in states[k].used
    ensures states[k].used[r] == DefinitionOf(states[k].runs[r].profile, states[k].urls)
  {
    InvAlways(states, steps, k);
    assert RunSound(states[k], r);
  }

  /**
   A prune may come long after the record, with edits and deletions in between.  Still, every
   prune works on the definition its run used, and that run had succeeded and had its record
   stored, without error, on a profile of that definition.
   */
  lemma {:induction false} PruneFollowsRecordedSuccess(states: seq<World>, steps: seq<Step>, k: nat, p: Prune)
    returns (j: nat, i: nat)
    requires IsHistory(states, steps) && k < |states| && p in states[k].pruned
    ensures j < k && StoredSuccess(states, steps, j, i, p.run, p.definition)
    ensures p.run in states[k].results && p.run in states[k].used && states[k].used[p.run] == p.definition
  {
    hide RunSound, StoredSuccess, DefinitionOf, ProfilesAfter, Inv;
    assert k > 0;
    assert Follows(states, steps, k - 1);
    if p in states[k - 1].pruned {
      j, i := PruneFollowsRecordedSuccess(states, steps, k - 1, p);
      UsedIsFinal(states, steps, k - 1, k, p.run);
    } else {
      j, i := RecordedHasRecord(states, steps, k - 1, p.run);
      RecordedIsSound(states, steps, k - 1, p.run);
    }
  }

  // ---- When the last run a profile shows is true of it ----

  /** `record` is how a run came out that worked on `d`. */
  predicate Backed(w: World, record: RunResult, d: Definition) {
    var r := record.run;
    r in w.results && w.results[r] == record && r in w.used && w.used[r] == d
  }

  predicate TrueRecord(w: World, p: Profile) {
    p.lastRun.Some? ==> Backed(w, p.lastRun.value, DefinitionOf(p, w.urls))
  }

  ghost predicate AllTrue(w: World) {
    forall i :: 0 <= i < |w.profiles| ==> TrueRecord(w, w.profiles[i])
  }

  /** A creation stores what the caller sends: no record, or one that a run of this very definition backs. */
  predicate HonestCreate(w: World, p: Profile) {
    Clashes(w.profiles, p) || p.lastRun.None? || Backed(w, p.lastRun.value, DefinitionOf(p, w.urls))
  }

  /** An edit sends no record, changes the definition it read, or sends a record that the definition it leaves backs. */
  predicate HonestEdit(w: World, update: Profile, existing: Profile) {
    var carried := CarriedForward(update, existing);
    || update.lastRun.None?
    || !DefinitionMatches(carried, existing)
    || Backed(w, update.lastRun.value, DefinitionOf(carried, w.urls))
  }

  /** Where credentials move out of the URL of a profile with a record, what a run hands on stays as it was. */
  predicate HonestMigration(w: World) {
    forall i :: 0 <= i < |w.profiles| && w.profiles[i].lastRun.Some? ==> MigrationKeeps(w.profiles[i], w.urls)
  }

  predicate MigrationKeeps(p: Profile, urls: Urls) {
    CarriesUserinfo(p.target, urls) ==>
      ConnectionStays(p.target, urls.read(p.target.url).value, TargetSecretName(p.id, p.target))
  }

  predicate Honest(w: World, step: Step)
    requires Enabled(w, step)
  {
    match step
    case Create(p, _, o) => o.Committed() ==> HonestCreate(w, NormalizedProfile(p, w.urls))
    case EditWrite(e, o) =>
      o.Committed() && IndexOf(w.profiles, w.edits[e].id).Some? ==>
        HonestEdit(w, w.edits[e].update, w.edits[e].existing)
    case Migrate(_, o) => o.Committed() ==> HonestMigration(w)
    case _ => true
  }

  lemma SameRunsSameRecord(w: World, next: World, p: Profile)
    requires next.used == w.used && next.results == w.results && next.urls == w.urls
    ensures TrueRecord(next, p) == TrueRecord(w, p)
  {
  }

  /** What a run still does to `used` and `results` disturbs no record of a run that is over. */
  lemma BackedKept(w: World, step: Step, record: RunResult, d: Definition)
    requires Inv(w) && Enabled(w, step) && Backed(w, record, d)
    ensures Backed(Apply(w, step), record, d)
  {
    hide Apply, Enabled;
    ResultKept(w, step, record.run);
  }

  lemma UrlsKept(w: World, step: Step)
    requires Enabled(w, step)
    ensures Apply(w, step).urls == w.urls
  {
  }

  lemma TrueRecordKept(w: World, step: Step, p: Profile)
    requires Inv(w) && Enabled(w, step) && TrueRecord(w, p)
    ensures TrueRecord(Apply(w, step), p)
  {
    hide Apply, Enabled, Backed, DefinitionOf;
    if p.lastRun.Some? {
      BackedKept(w, step, p.lastRun.value, DefinitionOf(p, w.urls));
      assert Apply(w, step).urls == w.urls by {
        UrlsKept(w, step);
      }
    }
  }

  lemma CreateTrueIff(w: World, p: Profile, seal: Sealer)
    requires AllTrue(w)
    ensures HonestCreate(w, p) <==>
            forall k :: 0 <= k < |Created(w.profiles, p, seal)| ==> TrueRecord(w, Created(w.profiles, p, seal)[k])
  {
    hide Backed, DefinitionOf;
    var next := Created(w.profiles, p, seal);
    if !Clashes(w.profiles, p) {
      EncryptionKeepsDefinition(p, w.urls, seal);
      assert next[|w.profiles|] == Encrypted(p, seal);
    }
  }

  /**
   The caller supplies an update's last run.  The stored record is true exactly when the caller
   supplies none, or the definition changed (and the run is dropped), or the supplied run worked
   on the definition that is stored.
   */
  lemma EditRecordTrueIff(w: World, update: Profile, existing: Profile, seal: Sealer)
    ensures TrueRecord(w, Prepared(update, existing, seal)) <==> HonestEdit(w, update, existing)
  {
    hide Backed, DefinitionOf, Encrypted;
    var carried := CarriedForward(update, existing);
    EncryptionKeepsDefinition(Invalidated(carried, existing), w.urls, seal);
  }

  lemma WriteTrueIff(w: World, id: string, prepared: Profile)
    requires AllTrue(w)
    ensures (IndexOf(w.profiles, id).Some? ==> TrueRecord(w, prepared)) <==>
            var next := Written(w.profiles, id, prepared);
            forall k :: 0 <= k < |next| ==> TrueRecord(w, next[k])
  {
    hide TrueRecord;
    if IndexOf(w.profiles, id).Some? {
      assert Written(w.profiles, id, prepared)[IndexOf(w.profiles, id).value] == prepared;
    }
  }

  lemma MigrationKeepsDefinitionIff(p: Profile, urls: Urls, seal: Sealer)
    requires urls.Lawful()
    ensures DefinitionOf(MigratedProfile(p, urls, seal), urls) == DefinitionOf(p, urls) <==> MigrationKeeps(p, urls)
  {
    var moved := NormalizedProfile(p, urls);
    EncryptionKeepsDefinition(moved, urls, seal);
    if CarriesUserinfo(p.target, urls) {
      NormalizingKeepsConnectionIff(p.target, urls, TargetSecretName(p.id, p.target));
      hide Connects, ConnectionStays, Normalized, Encrypted;
      SameSuffix(p.target, urls);
    }
  }

  lemma SameSuffix(t: Target, urls: Urls)
    requires CarriesUserinfo(t, urls)
    ensures Normalized(t, urls).Rest? && TargetSuffix(Normalized(t, urls)) == TargetSuffix(t)
  {
  }

  lemma MigrateOneTrueIff(w: World, p: Profile, seal: Sealer)
    requires w.urls.Lawful() && TrueRecord(w, p)
    ensures TrueRecord(w, MigratedProfile(p, w.urls, seal)) <==> p.lastRun.None? || MigrationKeeps(p, w.urls)
  {
    MigrationKeepsDefinitionIff(p, w.urls, seal);
    EncryptionKeepsDefinition(NormalizedProfile(p, w.urls), w.urls, seal);
    hide DefinitionOf, MigrationKeeps;
  }

  lemma MigrateTrueIff(w: World, seal: Sealer)
    requires w.urls.Lawful() && AllTrue(w)
    ensures HonestMigration(w) <==>
            forall k :: 0 <= k < |w.profiles| ==> TrueRecord(w, Migrated(w.profiles, w.urls, seal)[k])
  {
    hide TrueRecord, MigrationKeeps, MigratedProfile;
    forall k | 0 <= k < |w.profiles|
      ensures TrueRecord(w, Migrated(w.profiles, w.urls, seal)[k]) <==>
              w.profiles[k].lastRun.None? || MigrationKeeps(w.profiles[k], w.urls)
    {
      MigrateOneTrueIff(w, w.profiles[k], seal);
    }
  }

  /** The list of `next` shows true records in the terms of `w`. */
  ghost predicate TrueList(w: World, ps: seq<Profile>) {
    forall k :: 0 <= k < |ps| ==> TrueRecord(w, ps[k])
  }

  lemma ListTrueIff(w: World, step: Step)
    requires AllTrue(w) && Enabled(w, step) && !step.RunFinish?
    requires w.urls.Lawful()
    ensures TrueList(w, ProfilesAfter(w, step)) <==> Honest(w, step)
  {
    hide TrueRecord, HonestEdit, HonestCreate, HonestMigration, Created, Written, Migrated, Secrets.Prepared;
    match step
    case Create(p, seal, _) => CreateTrueIff(w, NormalizedProfile(p, w.urls), seal);
    case EditWrite(e, _) =>
      WriteTrueIff(w, w.edits[e].id, w.edits[e].Prepared());
      EditRecordTrueIff(w, w.edits[e].update, w.edits[e].existing, w.edits[e].seal);
    case Migrate(seal, _) =>
      MigrateTrueIff(w, seal);
      MigratedLength(w.profiles, w.urls, seal);
    case Delete(id, _) => WithoutTrue(w, id);
    case MarkInitialized(id, p, _) => MarkedTrue(w, id, p);
    case _ =>
  }

  lemma MigratedLength(ps: seq<Profile>, urls: Urls, seal: Sealer)
    ensures |Migrated(ps, urls, seal)| == |ps|
  {
  }

  lemma WithoutTrue(w: World, id: string)
    requires AllTrue(w)
    ensures TrueList(w, Without(w.profiles, id))
  {
    hide TrueRecord;
    var next := Without(w.profiles, id);
    forall k | 0 <= k < |next|
      ensures TrueRecord(w, next[k])
    {
      assert next[k] in w.profiles;
    }
  }

  lemma MarkedTrue(w: World, id: string, initialized: Profile)
    requires AllTrue(w)
    ensures TrueList(w, Marked(w.profiles, id, initialized))
  {
    hide Backed;
    if IndexOf(w.profiles, id).Some? {
      assert TrueRecord(w, w.profiles[IndexOf(w.profiles, id).value]);
    }
  }

  lemma FinishKeepsTrue(w: World, step: Step)
    requires Inv(w) && AllTrue(w) && Enabled(w, step) && step.RunFinish?
    ensures AllTrue(Apply(w, step))
  {
    hide DefinitionOf, EditsAfter, RunsAfter, PrunedAfter, Inv;
    var next, r := Apply(w, step), step.run;
    var id, executed := w.runs[r].id, w.runs[r].profile;
    var result := RunResult(r, step.success, step.message);
    InProgressIsSound(w, r);
    forall k | 0 <= k < |next.profiles|
      ensures TrueRecord(next, next.profiles[k])
    {
      assert TrueRecord(w, w.profiles[k]);
      RecordOnlyOnMatch(w.profiles, id, executed, result, k, w.urls);
      TrueRecordKept(w, step, w.profiles[k]);
    }
  }

  lemma OtherStepsUseNoMore(w: World, step: Step)
    requires Enabled(w, step) && !step.RunFinish? && !step.RunFetch? && !step.RunRefetch?
    ensures Apply(w, step).used == w.used && Apply(w, step).results == w.results && Apply(w, step).urls == w.urls
    ensures Apply(w, step).profiles == ProfilesAfter(w, step)
  {
    hide ProfilesAfter, EditsAfter, RunsAfter, PrunedAfter;
  }

  lemma FetchKeepsTrue(w: World, step: Step)
    requires Inv(w) && AllTrue(w) && Enabled(w, step) && (step.RunFetch? || step.RunRefetch?)
    ensures AllTrue(Apply(w, step))
  {
    hide TrueRecord, Inv;
    forall k | 0 <= k < |w.profiles|
      ensures TrueRecord(Apply(w, step), w.profiles[k])
    {
      TrueRecordKept(w, step, w.profiles[k]);
    }
  }

  lemma SameTerms(w: World, next: World)
    requires next.used == w.used && next.results == w.results && next.urls == w.urls
    ensures AllTrue(next) <==> TrueList(w, next.profiles)
  {
    hide TrueRecord;
    forall k | 0 <= k < |next.profiles|
      ensures TrueRecord(next, next.profiles[k]) == TrueRecord(w, next.profiles[k])
    {
      SameRunsSameRecord(w, next, next.profiles[k]);
    }
  }

  /** One step: given true records and sound runs, every record is true after it if and only if the step is honest. */
  lemma StepTrueIff(w: World, step: Step)
    requires Inv(w) && AllTrue(w) && Enabled(w, step)
    ensures AllTrue(Apply(w, step)) <==> Honest(w, step)
  {
    assert w.urls.Lawful();
    hide AllTrue, TrueList, HonestEdit, HonestCreate, HonestMigration, ProfilesAfter, Inv, Apply;
    if step.RunFinish? {
      FinishKeepsTrue(w, step);
    } else if step.RunFetch? || step.RunRefetch? {
      FetchKeepsTrue(w, step);
    } else {
      ListTrueIff(w, step);
      OtherStepsUseNoMore(w, step);
      SameTerms(w, Apply(w, step));
    }
  }

  // ---- Over whole histories ----

  ghost predicate HonestAt(states: seq<World>, steps: seq<Step>, k: nat)
    requires k < |steps| < |states|
  {
    Follows(states, steps, k) && Honest(states[k], steps[k])
  }

  lemma HistoryStepTrueIff(states: seq<World>, steps: seq<Step>, k: nat)
    requires IsHistory(states, steps) && k < |steps| && AllTrue(states[k])
    ensures AllTrue(states[k + 1]) <==> HonestAt(states, steps, k)
  {
    hide Inv, AllTrue, Honest, Apply, Enabled;
    InvAlways(states, steps, k);
    assert Follows(states, steps, k);
    StepTrueIff(states[k], steps[k]);
  }

  /**
   As long as every creation and edit is honest about its record and no migration moves
   credentials under one, the last run a profile shows is how a run came out that worked on that
   profile's id, sources, target, credentials and CA.
   */
  lemma {:induction false} LastRunDescribesProfile(states: seq<World>, steps: seq<Step>, k: nat)
    requires IsHistory(states, steps) && AllTrue(states[0]) && k < |states|
    requires forall m :: 0 <= m < k ==> HonestAt(states, steps, m)
    ensures AllTrue(states[k])
  {
    hide AllTrue, HonestAt;
    if k > 0 {
      LastRunDescribesProfile(states, steps, k - 1);
      HistoryStepTrueIff(states, steps, k - 1);
    }
  }

  /** And only as long: a history shows true records throughout if and only if every step of it is honest. */
  lemma AlwaysTrueIffHonest(states: seq<World>, steps: seq<Step>)
    requires IsHistory(states, steps) && AllTrue(states[0])
    ensures (forall k :: 0 <= k < |states| ==> AllTrue(states[k])) <==>
            (forall k :: 0 <= k < |steps| ==> HonestAt(states, steps, k))
  {
    hide AllTrue, HonestAt;
    if forall k :: 0 <= k < |states| ==> AllTrue(states[k]) {
      forall k | 0 <= k < |steps|
        ensures HonestAt(states, steps, k)
      {
        HistoryStepTrueIff(states, steps, k);
      }
    }
    if forall k :: 0 <= k < |steps| ==> HonestAt(states, steps, k) {
      forall k | 0 <= k < |states|
        ensures AllTrue(states[k])
      {
        LastRunDescribesProfile(states, steps, k);
      }
    }
  }

  /** Nothing resets the record of a new profile: in an engine that never ran a backup it is shown as it was sent. */
  lemma CreationStoresFalseRecord(p: Profile, urls: Urls, seal: Sealer)
    requires p.lastRun.Some?
    ensures var w := World([], map[], map[], map[], map[], [], urls);
            Initial(w) && AllTrue(w) && !AllTrue(Apply(w, Create(p, seal, Saved)))
  {
    var w := World([], map[], map[], map[], map[], [], urls);
    var next := Apply(w, Create(p, seal, Saved));
    assert next.profiles == [Encrypted(NormalizedProfile(p, urls), seal)];
    assert !TrueRecord(next, next.profiles[0]);
  }

  lemma SameDefinition(p: Profile, q: Profile, urls: Urls)
    requires p.id == q.id && DefinitionMatches(p, q)
    ensures DefinitionOf(p, urls) == DefinitionOf(q, urls)
  {
  }

  /** A record that was true of `first` is sent back over a definition that `other` has changed in the meantime. */
  ghost predicate StaleEdit(w: World, first: Profile, other: Profile, stale: Profile, seal: Sealer) {
    var stored := Prepared(other, first, seal);
    && first.lastRun.Some? && TrueRecord(w, first)
    && stale.lastRun == first.lastRun && stale.id == first.id == other.id
    && !DefinitionMatches(CarriedForward(other, first), first)
    && DefinitionOf(stored, w.urls) != DefinitionOf(first, w.urls)
    && DefinitionMatches(CarriedForward(stale, stored), stored)
  }

  lemma StaleEditIsFalse(w: World, first: Profile, other: Profile, stale: Profile, seal: Sealer)
    requires StaleEdit(w, first, other, stale, seal)
    ensures TrueRecord(w, Prepared(other, first, seal))
    ensures !TrueRecord(w, Prepared(stale, Prepared(other, first, seal), seal))
  {
    var stored := Prepared(other, first, seal);
    assert stored.id == other.id;
    hide Secrets.Prepared;
    EditRecordTrueIff(w, other, first, seal);
    EditRecordTrueIff(w, stale, stored, seal);
    SameDefinition(CarriedForward(stale, stored), stored, w.urls);
  }

  lemma EditOnlyProfile(w: World, p: Profile, update: Profile, e: nat, seal: Sealer)
    requires w.profiles == [p] && w.edits == map[] && update.id == p.id && !CarriesUserinfo(update.target, w.urls)
    ensures Enabled(w, EditRead(e, p.id, update, seal))
    ensures var mid := Apply(w, EditRead(e, p.id, update, seal));
            && Enabled(mid, EditWrite(e, Saved))
            && Apply(mid, EditWrite(e, Saved)) == w.(profiles := [Prepared(update, p, seal)])
  {
    assert IndexOf([p], p.id) == Some(0);
    var mid := Apply(w, EditRead(e, p.id, update, seal));
    assert mid == w.(edits := map[e := Edit(p.id, update, p, seal)]);
    assert mid.edits - {e} == map[];
    assert [p][0 := Prepared(update, p, seal)] == [Prepared(update, p, seal)];
  }

  /**
   A client that read a profile with its record, and sends that record back after someone else changed the
   definition, stores a false one: a history from true records to a false one with nothing but two edits.
   */
  lemma StaleEditStoresFalseRecord(w: World, first: Profile, other: Profile, stale: Profile, seal: Sealer)
    returns (states: seq<World>, steps: seq<Step>)
    requires Initial(w) && w.urls.Lawful() && w.profiles == [first] && StaleEdit(w, first, other, stale, seal)
    requires !CarriesUserinfo(other.target, w.urls) && !CarriesUserinfo(stale.target, w.urls)
    ensures IsHistory(states, steps) && |steps| == 4 && states[0] == w
    ensures AllTrue(states[0]) && AllTrue(states[2]) && !AllTrue(states[4])
  {
    hide Secrets.Prepared, Apply, Enabled, TrueRecord, AllTrue, IsHistory, CarriesUserinfo;
    var id, stored := first.id, Prepared(other, first, seal);
    var again := Prepared(stale, stored, seal);
    PreparedId(other, first, seal);
    StaleEditIsFalse(w, first, other, stale, seal);
    EditsEmpty(w);
    var w2, w4 := w.(profiles := [stored]), w.(profiles := [again]);
    EditOnlyProfile(w, first, other, 0, seal);
    EditOnlyProfile(w2, stored, stale, 1, seal);
    TrueOfOnly(w, first, first);
    TrueOfOnly(w, first, stored);
    TrueOfOnly(w, first, again);
    steps := [EditRead(0, id, other, seal), EditWrite(0, Saved), EditRead(1, id, stale, seal), EditWrite(1, Saved)];
    states := [w, Apply(w, steps[0]), w2, Apply(w2, steps[2]), w4];
    FourSteps(states, steps);
  }

  lemma PreparedId(update: Profile, existing: Profile, seal: Sealer)
    ensures Prepared(update, existing, seal).id == update.id
  {
  }

  lemma TrueOfOnly(w: World, first: Profile, p: Profile)
    requires w.profiles == [first]
    ensures AllTrue(w.(profiles := [p])) <==> TrueRecord(w, p)
    ensures w.(profiles := [first]) == w
  {
    hide TrueRecord;
    var only := w.(profiles := [p]);
    SameRunsSameRecord(w, only, p);
    assert only.profiles[0] == p;
  }

  lemma FourSteps(states: seq<World>, steps: seq<Step>)
    requires |steps| == 4 && |states| == 5 && Initial(states[0]) && states[0].urls.Lawful()
    requires Enabled(states[0], steps[0]) && states[1] == Apply(states[0], steps[0])
    requires Enabled(states[1], steps[1]) && states[2] == Apply(states[1], steps[1])
    requires Enabled(states[2], steps[2]) && states[3] == Apply(states[2], steps[2])
    requires Enabled(states[3], steps[3]) && states[4] == Apply(states[3], steps[3])
    ensures IsHistory(states, steps)
  {
    hide Enabled, Apply, Initial;
    assert Follows(states, steps, 0) && Follows(states, steps, 1);
    assert Follows(states, steps, 2) && Follows(states, steps, 3);
  }

  lemma EditsEmpty(w: World)
    requires Initial(w)
    ensures w.edits == map[]
  {
  }

  // ---- What each change of the list stores ----

  /** `i` is the first place of `id`. */
  ghost predicate FirstWith(ps: seq<Profile>, i: nat, id: string) {
    i < |ps| && ps[i].id == id && forall k :: 0 <= k < i ==> ps[k].id != id
  }

  /** `i` is the first place of `id` with the sources, target, password and certificate of `q`. */
  ghost predicate FirstLike(ps: seq<Profile>, i: nat, id: string, q: Profile) {
    && i < |ps| && ps[i].id == id && SameFourFields(ps[i], q)
    && forall k :: 0 <= k < i && ps[k].id == id ==> !SameFourFields(ps[k], q)
  }

  /** A creation adds what was sent at the end, unless id or name is taken or nothing is committed. */
  lemma CreationStores(w: World, p: Profile, seal: Sealer, o: SaveOutcome)
    ensures var next := ProfilesAfter(w, Create(p, seal, o));
            if o.FailedBeforeRename? || exists q :: q in w.profiles && (q.id == p.id || q.name == p.name)
            then next == w.profiles
            else && |next| == |w.profiles| + 1 && next[..|w.profiles|] == w.profiles
                 && SameButSecrets(next[|w.profiles|], NormalizedProfile(p, w.urls))
                 && next[|w.profiles|].lastRun == p.lastRun
  {
    EncryptionStoresTheRest(NormalizedProfile(p, w.urls), seal);
    hide Encrypted, Normalized;
  }

  lemma EditIsRead(w: World, step: Step)
    requires Enabled(w, step) && step.EditRead?
    ensures var next := Apply(w, step);
            && step.edit in next.edits && next.edits[step.edit].id == step.id
            && next.edits[step.edit].update == NormalizedProfile(step.update, w.urls)
  {
    hide ProfilesAfter, RunsAfter, UsedAfter, ResultsAfter, PrunedAfter, NormalizedProfile;
  }

  lemma EditStays(w: World, step: Step, e: nat)
    requires Enabled(w, step) && e in w.edits && !(step.EditWrite? && step.edit == e)
    ensures e in Apply(w, step).edits && Apply(w, step).edits[e] == w.edits[e]
  {
    hide ProfilesAfter, RunsAfter, UsedAfter, ResultsAfter, PrunedAfter, NormalizedProfile;
  }

  lemma {:induction false} EditIsKept(states: seq<World>, steps: seq<Step>, i: nat, k: nat, e: nat)
    requires IsHistory(states, steps) && i < k < |states| && i < |steps| && steps[i].EditRead? && steps[i].edit == e
    requires forall m :: i < m < k ==> !(steps[m].EditWrite? && steps[m].edit == e)
    ensures e in states[k].edits
    ensures states[k].edits[e].id == steps[i].id
    ensures states[k].edits[e].update == NormalizedProfile(steps[i].update, states[i].urls)
  {
    hide Enabled, Apply, NormalizedProfile;
    assert Follows(states, steps, k - 1);
    if k == i + 1 {
      EditIsRead(states[i], steps[i]);
    } else {
      EditIsKept(states, steps, i, k - 1, e);
      EditStays(states[k - 1], steps[k - 1], e);
    }
  }

  /**
   An edit that is committed while its id is still listed replaces the first profile of that id, and no other,
   by what the caller sent, after URL credentials were moved to their fields.
   */
  lemma EditStores(states: seq<World>, steps: seq<Step>, i: nat, k: nat, x: nat)
    requires IsHistory(states, steps) && i < k < |steps| && steps[i].EditRead? && steps[k].EditWrite?
    requires steps[k].edit == steps[i].edit && !steps[k].outcome.FailedBeforeRename?
    requires forall m :: i < m < k ==> !(steps[m].EditWrite? && steps[m].edit == steps[i].edit)
    requires FirstWith(states[k].profiles, x, steps[i].id)
    ensures |states[k + 1].profiles| == |states[k].profiles|
    ensures SameButSecrets(states[k + 1].profiles[x], NormalizedProfile(steps[i].update, states[i].urls))
    ensures forall y :: 0 <= y < |states[k].profiles| && y != x ==> states[k + 1].profiles[y] == states[k].profiles[y]
  {
    var e := steps[i].edit;
    EditIsKept(states, steps, i, k, e);
    assert Follows(states, steps, k);
    var edit := states[k].edits[e];
    EditStoresWhatWasSent(edit.update, edit.existing, edit.seal);
    hide Secrets.Prepared, NormalizedProfile, SameButSecrets;
    hide RunsAfter, UsedAfter, ResultsAfter, PrunedAfter, EditsAfter;
    assert IndexOf(states[k].profiles, edit.id) == Some(x);
  }

  lemma DeletionOfFirst(ps: seq<Profile>, id: string)
    requires |ps| > 0
    ensures ps[0].id == id ==> Without(ps, id) == Without(ps[1..], id)
    ensures ps[0].id != id ==> Without(ps, id) == [ps[0]] + Without(ps[1..], id)
  {
  }

  /** Deleting takes out the profiles of that id and leaves the others in their order. */
  lemma {:induction false} DeletionKeepsOrder(a: seq<Profile>, p: Profile, b: seq<Profile>, id: string)
    ensures p.id == id ==> Without(a + [p] + b, id) == Without(a + b, id)
    ensures p.id != id && (forall i :: 0 <= i < |a| ==> a[i].id == id) ==>
              Without(a + [p] + b, id) == [p] + Without(b, id)
  {
    if |a| == 0 {
      assert a + b == b && a + [p] + b == [p] + b && ([p] + b)[1..] == b;
      DeletionOfFirst([p] + b, id);
    } else {
      assert (a + [p] + b)[1..] == a[1..] + [p] + b && (a + b)[1..] == a[1..] + b;
      DeletionKeepsOrder(a[1..], p, b, id);
      DeletionOfFirst(a + [p] + b, id);
      DeletionOfFirst(a + b, id);
    }
    hide Without;
  }

  /** A committed deletion leaves exactly the profiles of other ids, and a failed one leaves the list. */
  lemma DeletionStores(w: World, id: string, o: SaveOutcome)
    requires Enabled(w, Delete(id, o))
    ensures var next := ProfilesAfter(w, Delete(id, o));
            && (o.FailedBeforeRename? ==> next == w.profiles)
            && (!o.FailedBeforeRename? ==>
                  next == Without(w.profiles, id) && forall p :: p in next <==> p in w.profiles && p.id != id)
  {
  }

  /** A prune adds one entry, with the definition its run used, and is the last step of the run. */
  lemma PrunesOnce(w: World, r: nat)
    requires Enabled(w, RunPrune(r))
    ensures var next := Apply(w, RunPrune(r));
            && next.pruned == w.pruned + [Prune(r, DefinitionOf(w.runs[r].profile, w.urls))]
            && r in next.runs && next.runs[r].Ended? && !Enabled(next, RunPrune(r))
  {
  }

  /** A repository mark lands on the first profile of the id exactly when the four fields are those initialized. */
  lemma MarkStores(w: World, id: string, q: Profile, o: SaveOutcome, x: nat)
    requires !o.FailedBeforeRename? && FirstWith(w.profiles, x, id)
    ensures ProfilesAfter(w, MarkInitialized(id, q, o)) ==
            if SameFourFields(w.profiles[x], q) then w.profiles[x := w.profiles[x].(repoInitialized := true)]
            else w.profiles
  {
    assert IndexOf(w.profiles, id) == Some(x);
  }

  /** The result of a run lands on the first profile with the four fields the run used, whenever there is one. */
  lemma RecordStores(w: World, r: nat, success: bool, message: string, o: SaveOutcome, x: nat)
    requires Enabled(w, RunFinish(r, success, message, o)) && !o.FailedBeforeRename?
    requires FirstLike(w.profiles, x, w.runs[r].id, w.runs[r].profile)
    ensures ProfilesAfter(w, RunFinish(r, success, message, o)) ==
            w.profiles[x := w.profiles[x].(lastRun := Some(RunResult(r, success, message)))]
    ensures success && o.Saved? ==>
              Enabled(Apply(w, RunFinish(r, success, message, o)), RunPrune(r))
  {
    var id, q := w.runs[r].id, w.runs[r].profile;
    assert Unchanged(w.profiles[x], id, q);
    assert IndexUnchanged(w.profiles, id, q) == Some(x);
  }

  /** And changes nothing when there is none, and then nothing is pruned. */
  lemma RecordNeedsMatch(w: World, r: nat, success: bool, message: string, o: SaveOutcome)
    requires Enabled(w, RunFinish(r, success, message, o))
    requires forall i :: 0 <= i < |w.profiles| && w.profiles[i].id == w.runs[r].id ==>
               !SameFourFields(w.profiles[i], w.runs[r].profile)
    ensures ProfilesAfter(w, RunFinish(r, success, message, o)) == w.profiles
    ensures !Enabled(Apply(w, RunFinish(r, success, message, o)), RunPrune(r))
  {
    var id, q := w.runs[r].id, w.runs[r].profile;
    assert forall i :: 0 <= i < |w.profiles| ==> !Unchanged(w.profiles[i], id, q);
    assert IndexUnchanged(w.profiles, id, q) == None;
  }

  /** A run looks up the first profile of its id; until it begins, it can only fail. */
  lemma RunReadsProfile(w: World, r: nat, id: string, x: nat, message: string, o: SaveOutcome)
    requires r !in w.runs && FirstWith(w.profiles, x, id)
    ensures Enabled(w, RunFetch(r, id))
    ensures var next := Apply(w, RunFetch(r, id));
            && r in next.runs && next.runs[r] == Fetched(id, w.profiles[x])
            && Enabled(next, RunFinish(r, false, message, o)) && !Enabled(next, RunFinish(r, true, message, o))
  {
    assert IndexOf(w.profiles, id) == Some(x);
  }

  /** It begins with the first profile of its id as that is by then, and can end either way. */
  lemma RunBeginsOnProfile(w: World, r: nat, x: nat, success: bool, message: string, o: SaveOutcome)
    requires r in w.runs && w.runs[r].Fetched? && FirstWith(w.profiles, x, w.runs[r].id)
    ensures Enabled(w, RunRefetch(r))
    ensures var next := Apply(w, RunRefetch(r));
            && r in next.runs && next.runs[r] == Executing(w.runs[r].id, w.profiles[x])
            && Enabled(next, RunFinish(r, success, message, o))
  {
    assert IndexOf(w.profiles, w.runs[r].id) == Some(x);
  }

  // ---- Unique ids ----

  ghost predicate UniqueIds(ps: seq<Profile>) {
    forall i, k :: 0 <= i < k < |ps| ==> ps[i].id != ps[k].id
  }

  /** The service does not check an update's id: ids stay unique exactly when no other profile has it. */
  lemma WriteKeepsIdsUniqueIff(ps: seq<Profile>, id: string, prepared: Profile)
    requires UniqueIds(ps) && IndexOf(ps, id).Some?
    ensures UniqueIds(Written(ps, id, prepared)) <==>
            forall i :: 0 <= i < |ps| && ps[i].id != id ==> ps[i].id != prepared.id
  {
    var at := IndexOf(ps, id).value;
    var next := Written(ps, id, prepared);
    forall i | 0 <= i < |ps| && ps[i].id != id
      ensures i != at && next[i] == ps[i] && next[at] == prepared
    {
    }
    if UniqueIds(next) {
      forall i | 0 <= i < |ps| && ps[i].id != id
        ensures ps[i].id != prepared.id
      {
        assert next[i].id != next[at].id;
      }
    }
  }

  /** An edit that sends another profile's id leaves two profiles with it. */
  lemma EditMayDuplicateIds(p: Profile, q: Profile)
    requires p.id != q.id
    ensures UniqueIds([p, q]) && !UniqueIds(Written([p, q], p.id, p.(id := q.id)))
  {
    var ps := [p, q];
    assert IndexOf(ps, p.id) == Some(0) by {
      assert ps[..1] == [p] && [p][..0] == [];
      assert IndexOf([p], p.id) == Some(0);
    }
    var next := Written(ps, p.id, p.(id := q.id));
    assert next[0].id == next[1].id;
  }
}
