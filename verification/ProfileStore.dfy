/**
 The profile list in memory beside its state file.  A change is saved first and published
 to memory only if the save reached the rename, so memory and file agree through any mix
 of failed saves, engine restarts and power cuts - as long as the file can be read at start:
 a file that cannot be read counts as an empty list.
 */
module ProfileStore {
  import opened Wrappers
  import opened StateFile

  /** The JSON encoding of a profile list; encoding may fail, decoding may reject. */
  datatype Codec<!P> = Codec(encode: seq<P> -> Option<string>, decode: string -> Option<seq<P>>)

  ghost predicate RoundTrips<P(!new)>(codec: Codec<P>) {
    forall ps :: codec.encode(ps).Some? ==> codec.decode(codec.encode(ps).value) == Some(ps)
  }

  function Decoded<P>(codec: Codec<P>, content: Option<string>): Option<seq<P>> {
    match content
    case None => Some([])
    case Some(text) => codec.decode(text)
  }

  /** `load_profiles`: a file that cannot be read or decoded counts as no profiles. */
  function Loaded<P>(codec: Codec<P>, d: Disk, readable: bool): seq<P>
    requires d.versions != []
  {
    var list := Decoded(codec, Visible(d, StateName));
    if readable && list.Some? then list.value else []
  }

  datatype Service<P> = Service(disk: Disk, memory: seq<P>)

  datatype Event<P> =
    | Persist(next: seq<P>, faults: Faults)
    | Restart(cleaned: bool, readable: bool)
    | PowerCut(after: Disk, cleaned: bool, readable: bool)
    | Interrupted(next: seq<P>, faults: Faults, change: nat, after: Disk, cleaned: bool, readable: bool)

  /** A stop of the engine or a loss of power turns `d` into `after`. */
  ghost predicate StopLeaves(d: Disk, after: Disk) {
    after == d || AfterPowerCut(d, after)
  }

  /** The disk after change number `change` of a save, if the save gets that far. */
  function DuringSave<P>(codec: Codec<P>, s: Service<P>, next: seq<P>, faults: Faults, change: nat): Option<Disk>
    requires s.disk.versions != []
  {
    match codec.encode(next)
    case None => None
    case Some(json) =>
      var trace := SaveTrace(s.disk, json, faults);
      if change < |trace| then Some(trace[change]) else None
  }

  ghost predicate Possible<P>(s: Service<P>, e: Event<P>, codec: Codec<P>) {
    && s.disk.versions != []
    && (e.PowerCut? ==> AfterPowerCut(s.disk, e.after))
    && (e.Interrupted? ==>
          var d := DuringSave(codec, s, e.next, e.faults, e.change);
          d.Some? && e.after.versions != [] && StopLeaves(d.value, e.after))
  }

  /** How a persist ends, whether or not encoding succeeds. */
  function PersistOutcome<P>(codec: Codec<P>, s: Service<P>, next: seq<P>, faults: Faults): SaveOutcome
    requires s.disk.versions != []
  {
    match codec.encode(next)
    case None => FailedBeforeRename
    case Some(json) => SaveResult(s.disk, json, faults)
  }

  function Persisted<P>(codec: Codec<P>, s: Service<P>, next: seq<P>, faults: Faults): Service<P>
    requires s.disk.versions != []
  {
    match codec.encode(next)
    case None => s
    case Some(json) =>
      Service(
        SaveFinal(s.disk, json, faults),
        if SaveResult(s.disk, json, faults).Committed() then next else s.memory)
  }

  /** Engine start: drop a stale temporary file if that works, then load the state file. */
  function Booted<P>(codec: Codec<P>, d: Disk, cleaned: bool, readable: bool): Service<P>
    requires d.versions != []
  {
    var disk := if cleaned && TempName in Live(d) then Removed(d) else d;
    Service(disk, Loaded(codec, disk, readable))
  }

  function After<P>(codec: Codec<P>, s: Service<P>, e: Event<P>): Service<P>
    requires s.disk.versions != []
    requires e.PowerCut? || e.Interrupted? ==> e.after.versions != []
  {
    match e
    case Persist(next, faults) => Persisted(codec, s, next, faults)
    case Restart(cleaned, readable) => Booted(codec, s.disk, cleaned, readable)
    case PowerCut(after, cleaned, readable) => Booted(codec, after, cleaned, readable)
    case Interrupted(_, _, _, after, cleaned, readable) => Booted(codec, after, cleaned, readable)
  }

  ghost predicate Follows<P>(codec: Codec<P>, states: seq<Service<P>>, events: seq<Event<P>>, i: nat)
    requires i < |events| < |states|
  {
    Possible(states[i], events[i], codec) && states[i + 1] == After(codec, states[i], events[i])
  }

  ghost predicate IsHistory<P>(codec: Codec<P>, states: seq<Service<P>>, events: seq<Event<P>>) {
    |states| == |events| + 1 && forall i :: 0 <= i < |events| ==> Follows(codec, states, events, i)
  }

  /** Whatever a reader or a power cut could find in the state file decodes. */
  ghost predicate DiskSound<P>(codec: Codec<P>, d: Disk) {
    WellFormed(d) && forall c :: SomeVersionReads(d, c) ==> Decoded(codec, c).Some?
  }

  /** Memory is what the file decodes to. */
  ghost predicate InStep<P>(codec: Codec<P>, s: Service<P>) {
    DiskSound(codec, s.disk) && Decoded(codec, Visible(s.disk, StateName)) == Some(s.memory)
  }

  lemma PowerCutKeepsForm(d: Disk, after: Disk)
    requires WellFormed(d) && AfterPowerCut(d, after)
    ensures WellFormed(after)
    ensures forall c :: SomeVersionReads(after, c) ==> c == Visible(after, StateName) && SomeVersionReads(d, c)
  {
  }

  lemma BootKeeps<P>(codec: Codec<P>, d: Disk, cleaned: bool, readable: bool)
    requires WellFormed(d)
    ensures Keeps(d, Booted(codec, d, cleaned, readable).disk)
  {
  }

  lemma VisibleIsAVersion(d: Disk)
    requires d.versions != []
    ensures SomeVersionReads(d, Visible(d, StateName))
  {
    assert Live(d) in d.versions;
  }

  /** A start leaves a sound disk, and memory in step exactly when the file could be read or lists nothing. */
  lemma BootInStepIff<P>(codec: Codec<P>, d: Disk, after: Disk, cleaned: bool, readable: bool)
    requires DiskSound(codec, d) && after.versions != [] && StopLeaves(d, after)
    ensures var s := Booted(codec, after, cleaned, readable);
            && DiskSound(codec, s.disk) && s.disk.versions != []
            && (InStep(codec, s) <==> readable || Decoded(codec, Visible(s.disk, StateName)) == Some([]))
            && forall c :: SomeVersionReads(s.disk, c) ==> SomeVersionReads(d, c)
  {
    if after != d {
      PowerCutKeepsForm(d, after);
    }
    BootKeeps(codec, after, cleaned, readable);
    VisibleIsAVersion(Booted(codec, after, cleaned, readable).disk);
  }

  /** Where no version of the directory has a state file, a start finds no profiles and is in step. */
  lemma FirstStartInStep<P(!new)>(codec: Codec<P>, d: Disk, cleaned: bool, readable: bool)
    requires WellFormed(d) && forall v :: v in d.versions ==> StateName !in v
    ensures var s := Booted(codec, d, cleaned, readable);
            |s.memory| == 0 && InStep(codec, s)
  {
    assert DiskSound(codec, d);
    BootInStepIff(codec, d, d, cleaned, readable);
    var s := Booted(codec, d, cleaned, readable);
    VisibleIsAVersion(s.disk);
    assert Visible(s.disk, StateName).None?;
  }

  /** Every disk on the way of a save can be what the next start finds. */
  lemma SaveCanStopAnywhere<P(!new)>(
      codec: Codec<P>, s: Service<P>, next: seq<P>, faults: Faults, change: nat, cleaned: bool, readable: bool)
    requires s.disk.versions != [] && codec.encode(next).Some?
    requires change < |SaveTrace(s.disk, codec.encode(next).value, faults)|
    requires SaveTrace(s.disk, codec.encode(next).value, faults)[change].versions != []
    ensures var after := SaveTrace(s.disk, codec.encode(next).value, faults)[change];
            && Possible(s, Interrupted(next, faults, change, after, cleaned, readable), codec)
            && After(codec, s, Interrupted(next, faults, change, after, cleaned, readable)) ==
               Booted(codec, after, cleaned, readable)
  {
    hide SaveTrace;
  }

  /** Inside a save the disk shows what it showed before, or the new list. */
  lemma DuringSaveShows<P(!new)>(
      codec: Codec<P>, s: Service<P>, next: seq<P>, faults: Faults, change: nat, c: Option<string>)
    requires RoundTrips(codec) && WellFormed(s.disk) && DuringSave(codec, s, next, faults, change).Some?
    ensures WellFormed(DuringSave(codec, s, next, faults, change).value)
    ensures SomeVersionReads(DuringSave(codec, s, next, faults, change).value, c) ==>
              || SomeVersionReads(s.disk, c)
              || (c == codec.encode(next) && Visible(DuringSave(codec, s, next, faults, change).value, StateName) == c)
  {
    var d := DuringSave(codec, s, next, faults, change).value;
    var json := codec.encode(next).value;
    SaveTraceCases(s.disk, json, faults);
    assert d in SaveTrace(s.disk, json, faults);
  }

  lemma SoundFrom<P(!new)>(codec: Codec<P>, before: Disk, d: Disk, next: seq<P>)
    requires RoundTrips(codec) && DiskSound(codec, before) && WellFormed(d) && codec.encode(next).Some?
    requires forall c :: SomeVersionReads(d, c) ==> SomeVersionReads(before, c) || c == codec.encode(next)
    ensures DiskSound(codec, d)
  {
    hide WellFormed, SomeVersionReads;
  }

  lemma DuringSaveSound<P(!new)>(codec: Codec<P>, s: Service<P>, next: seq<P>, faults: Faults, change: nat)
    requires RoundTrips(codec) && DiskSound(codec, s.disk) && DuringSave(codec, s, next, faults, change).Some?
    ensures DiskSound(codec, DuringSave(codec, s, next, faults, change).value)
  {
    var json := codec.encode(next).value;
    var d := DuringSave(codec, s, next, faults, change).value;
    assert d in SaveTrace(s.disk, json, faults);
    hide SaveTrace, DuringSave, WellFormed, SomeVersionReads, Visible;
    SaveTraceCases(s.disk, json, faults);
    SoundFrom(codec, s.disk, d, next);
  }

  lemma PersistInStepIff<P(!new)>(codec: Codec<P>, s: Service<P>, next: seq<P>, faults: Faults)
    requires RoundTrips(codec) && DiskSound(codec, s.disk)
    ensures DiskSound(codec, Persisted(codec, s, next, faults).disk)
    ensures InStep(codec, Persisted(codec, s, next, faults)) <==>
            InStep(codec, s) || PersistOutcome(codec, s, next, faults).Committed()
  {
    if codec.encode(next).Some? {
      SaveTraceCases(s.disk, codec.encode(next).value, faults);
    }
  }

  /** What brings memory in step, or keeps it there. */
  ghost predicate Settles<P>(codec: Codec<P>, s: Service<P>, e: Event<P>)
    requires Possible(s, e, codec)
  {
    if e.Persist? then InStep(codec, s) || PersistOutcome(codec, s, e.next, e.faults).Committed()
    else BootReads(codec, s, e)
  }

  /** The event is no start of the engine, or one that could read the file, or the file lists nothing. */
  ghost predicate BootReads<P>(codec: Codec<P>, s: Service<P>, e: Event<P>)
    requires Possible(s, e, codec)
  {
    || e.Persist? || e.readable
    || (var d := After(codec, s, e).disk; d.versions != [] && Decoded(codec, Visible(d, StateName)) == Some([]))
  }

  /** The disk stays sound through every event; memory is in step after it exactly when the event settles it. */
  lemma InStepIff<P(!new)>(codec: Codec<P>, s: Service<P>, e: Event<P>)
    requires RoundTrips(codec) && DiskSound(codec, s.disk) && Possible(s, e, codec)
    ensures DiskSound(codec, After(codec, s, e).disk)
    ensures InStep(codec, After(codec, s, e)) <==> Settles(codec, s, e)
  {
    hide InStep, DiskSound, Persisted, Booted;
    match e
    case Persist(next, faults) => PersistInStepIff(codec, s, next, faults);
    case Restart(cleaned, readable) => BootInStepIff(codec, s.disk, s.disk, cleaned, readable);
    case PowerCut(after, cleaned, readable) => BootInStepIff(codec, s.disk, after, cleaned, readable);
    case Interrupted(next, faults, change, after, cleaned, readable) =>
      DuringSaveSound(codec, s, next, faults, change);
      BootInStepIff(codec, DuringSave(codec, s, next, faults, change).value, after, cleaned, readable);
  }

  lemma {:induction false} DiskAlwaysSound<P(!new)>(
      codec: Codec<P>, states: seq<Service<P>>, events: seq<Event<P>>, k: nat)
    requires RoundTrips(codec) && IsHistory(codec, states, events) && DiskSound(codec, states[0].disk) && k < |states|
    ensures DiskSound(codec, states[k].disk)
  {
    hide DiskSound, After, Possible;
    if k > 0 {
      DiskAlwaysSound(codec, states, events, k - 1);
      assert Follows(codec, states, events, k - 1);
      InStepIff(codec, states[k - 1], events[k - 1]);
    }
  }

  ghost predicate ReadsAt<P>(codec: Codec<P>, states: seq<Service<P>>, events: seq<Event<P>>, k: nat)
    requires k < |events| < |states|
  {
    Follows(codec, states, events, k) && BootReads(codec, states[k], events[k])
  }

  lemma HistoryStep<P(!new)>(codec: Codec<P>, states: seq<Service<P>>, events: seq<Event<P>>, k: nat)
    requires RoundTrips(codec) && IsHistory(codec, states, events) && k < |events| && InStep(codec, states[k])
    ensures InStep(codec, states[k + 1]) <==> ReadsAt(codec, states, events, k)
  {
    hide After, Possible;
    assert Follows(codec, states, events, k);
    InStepIff(codec, states[k], events[k]);
  }

  /**
   After every history of saves, failures, restarts, power cuts and saves cut short anywhere, memory equals
   the decoded file, if every start could read the file.
   */
  lemma {:induction false} MemoryMatchesFile<P(!new)>(
      codec: Codec<P>, states: seq<Service<P>>, events: seq<Event<P>>, from: nat, k: nat)
    requires RoundTrips(codec) && IsHistory(codec, states, events) && from <= k < |states|
    requires InStep(codec, states[from])
    requires forall m :: from <= m < k ==> ReadsAt(codec, states, events, m)
    ensures InStep(codec, states[k])
  {
    hide InStep, ReadsAt;
    if from < k {
      MemoryMatchesFile(codec, states, events, from, k - 1);
      HistoryStep(codec, states, events, k - 1);
    }
  }

  /** And only if: memory and file agree throughout a history exactly when every start in it could read the file. */
  lemma AlwaysInStepIff<P(!new)>(codec: Codec<P>, states: seq<Service<P>>, events: seq<Event<P>>)
    requires RoundTrips(codec) && IsHistory(codec, states, events) && InStep(codec, states[0])
    ensures (forall k :: 0 <= k < |states| ==> InStep(codec, states[k])) <==>
            (forall k :: 0 <= k < |events| ==> ReadsAt(codec, states, events, k))
  {
    hide InStep, ReadsAt;
    if forall k :: 0 <= k < |states| ==> InStep(codec, states[k]) {
      forall k | 0 <= k < |events|
        ensures ReadsAt(codec, states, events, k)
      {
        HistoryStep(codec, states, events, k);
      }
    }
    if forall k :: 0 <= k < |events| ==> ReadsAt(codec, states, events, k) {
      forall k | 0 <= k < |states|
        ensures InStep(codec, states[k])
      {
        MemoryMatchesFile(codec, states, events, 0, k);
      }
    }
  }

  // ---- Durability of acknowledged changes ----

  /** The event put its list in the state file: a save that was committed, or cut short after the rename. */
  ghost predicate Reaches<P>(codec: Codec<P>, s: Service<P>, e: Event<P>)
    requires s.disk.versions != []
  {
    || (e.Persist? && PersistOutcome(codec, s, e.next, e.faults).Committed())
    || (&& e.Interrupted?
        && var d := DuringSave(codec, s, e.next, e.faults, e.change);
           d.Some? && d.value.versions != [] && Visible(d.value, StateName) == codec.encode(e.next))
  }

  /** Event `m` put `list` in the state file. */
  ghost predicate Wrote<P>(codec: Codec<P>, states: seq<Service<P>>, events: seq<Event<P>>, m: int, list: seq<P>)
    requires IsHistory(codec, states, events)
  {
    && 0 <= m < |events| && Follows(codec, states, events, m)
    && Reaches(codec, states[m], events[m]) && events[m].next == list
  }

  ghost predicate WroteSince<P>(
    codec: Codec<P>, states: seq<Service<P>>, events: seq<Event<P>>, i: nat, k: nat, list: seq<P>)
    requires IsHistory(codec, states, events)
  {
    exists m :: i <= m < k && Wrote(codec, states, events, m, list)
  }

  /** Event `i` is a change whose save was acknowledged. */
  ghost predicate Acknowledged<P>(codec: Codec<P>, states: seq<Service<P>>, events: seq<Event<P>>, i: nat)
    requires i < |events| < |states|
  {
    && Follows(codec, states, events, i) && events[i].Persist?
    && PersistOutcome(codec, states[i], events[i].next, events[i].faults) == Saved
  }

  /** Everything the disk can show at `k` was written by event `i` or later. */
  ghost predicate ShowsOnlySince<P>(codec: Codec<P>, states: seq<Service<P>>, events: seq<Event<P>>, i: nat, k: nat)
    requires IsHistory(codec, states, events) && k < |states|
  {
    forall c :: SomeVersionReads(states[k].disk, c) ==>
      c.Some? && Decoded(codec, c).Some? && WroteSince(codec, states, events, i, k, Decoded(codec, c).value)
  }

  lemma WroteSinceGrows<P>(
      codec: Codec<P>, states: seq<Service<P>>, events: seq<Event<P>>, i: nat, k: nat, list: seq<P>)
    requires IsHistory(codec, states, events) && WroteSince(codec, states, events, i, k, list)
    ensures WroteSince(codec, states, events, i, k + 1, list)
  {
  }

  /** After an acknowledged save the disk can show nothing else. */
  lemma SavedShowsOnly<P(!new)>(codec: Codec<P>, s: Service<P>, next: seq<P>, faults: Faults, c: Option<string>)
    requires RoundTrips(codec) && DiskSound(codec, s.disk) && PersistOutcome(codec, s, next, faults) == Saved
    requires SomeVersionReads(Persisted(codec, s, next, faults).disk, c)
    ensures c.Some? && Decoded(codec, c) == Some(next)
  {
  }

  lemma ShownSince<P(!new)>(
      codec: Codec<P>, states: seq<Service<P>>, events: seq<Event<P>>, i: nat, k: nat, c: Option<string>)
    requires RoundTrips(codec) && IsHistory(codec, states, events)
    requires i < k < |events| && DiskSound(codec, states[k].disk) && Follows(codec, states, events, k)
    requires ShowsOnlySince(codec, states, events, i, k)
    requires SomeVersionReads(states[k + 1].disk, c)
    ensures c.Some? && Decoded(codec, c).Some? && WroteSince(codec, states, events, i, k + 1, Decoded(codec, c).value)
  {
    ShownBeforeOrWritten(codec, states[k], events[k], c);
    if SomeVersionReads(states[k].disk, c) {
      WroteSinceGrows(codec, states, events, i, k, Decoded(codec, c).value);
    } else {
      assert Wrote(codec, states, events, k, events[k].next);
    }
  }

  lemma {:induction false} ShowsOnlySinceKept<P(!new)>(
      codec: Codec<P>, states: seq<Service<P>>, events: seq<Event<P>>, i: nat, k: nat)
    requires RoundTrips(codec) && IsHistory(codec, states, events) && DiskSound(codec, states[0].disk)
    requires i < k < |states|
    requires Acknowledged(codec, states, events, i)
    ensures ShowsOnlySince(codec, states, events, i, k)
  {
    DiskAlwaysSound(codec, states, events, k - 1);
    assert Follows(codec, states, events, k - 1);
    if i < k - 1 {
      ShowsOnlySinceKept(codec, states, events, i, k - 1);
    }
    forall c | SomeVersionReads(states[k].disk, c)
      ensures c.Some? && Decoded(codec, c).Some? && WroteSince(codec, states, events, i, k, Decoded(codec, c).value)
    {
      if i == k - 1 {
        SavedShowsOnly(codec, states[i], events[i].next, events[i].faults, c);
        assert Wrote(codec, states, events, i, events[i].next);
      } else {
        ShownSince(codec, states, events, i, k - 1, c);
      }
    }
  }

  /** An event adds no possible content but the one it brings to the file. */
  lemma ShownBeforeOrWritten<P(!new)>(codec: Codec<P>, s: Service<P>, e: Event<P>, c: Option<string>)
    requires RoundTrips(codec) && DiskSound(codec, s.disk) && Possible(s, e, codec)
    requires SomeVersionReads(After(codec, s, e).disk, c)
    ensures SomeVersionReads(s.disk, c) || (Reaches(codec, s, e) && c.Some? && Decoded(codec, c) == Some(e.next))
  {
    match e
    case Persist(next, faults) => PersistShows(codec, s, next, faults, c);
    case Restart(cleaned, readable) => BootInStepIff(codec, s.disk, s.disk, cleaned, readable);
    case PowerCut(after, cleaned, readable) => BootInStepIff(codec, s.disk, after, cleaned, readable);
    case Interrupted(next, faults, change, after, cleaned, readable) =>
      DuringSaveSound(codec, s, next, faults, change);
      BootInStepIff(codec, DuringSave(codec, s, next, faults, change).value, after, cleaned, readable);
      DuringSaveShows(codec, s, next, faults, change, c);
  }

  lemma PersistShows<P(!new)>(codec: Codec<P>, s: Service<P>, next: seq<P>, faults: Faults, c: Option<string>)
    requires RoundTrips(codec) && WellFormed(s.disk) && SomeVersionReads(Persisted(codec, s, next, faults).disk, c)
    ensures || SomeVersionReads(s.disk, c)
            || (PersistOutcome(codec, s, next, faults).Committed() && c.Some? && Decoded(codec, c) == Some(next))
  {
    if codec.encode(next).Some? {
      SaveTraceCases(s.disk, codec.encode(next).value, faults);
    }
  }

  /** On disk an acknowledged change is never lost: whatever happens afterwards, the file holds it or a later one. */
  lemma AcknowledgedFileSurvives<P(!new)>(
      codec: Codec<P>, states: seq<Service<P>>, events: seq<Event<P>>, i: nat, k: nat)
    requires RoundTrips(codec) && IsHistory(codec, states, events) && DiskSound(codec, states[0].disk)
    requires i < k < |states| && Acknowledged(codec, states, events, i)
    ensures states[k].disk.versions != []
    ensures var list := Decoded(codec, Visible(states[k].disk, StateName));
            list.Some? && WroteSince(codec, states, events, i, k, list.value)
  {
    ShowsOnlySinceKept(codec, states, events, i, k);
    DiskAlwaysSound(codec, states, events, k);
    VisibleIsAVersion(states[k].disk);
  }

  /** In memory it survives as well, if every start since could read the file. */
  lemma AcknowledgedChangeSurvives<P(!new)>(
      codec: Codec<P>, states: seq<Service<P>>, events: seq<Event<P>>, i: nat, k: nat)
    requires RoundTrips(codec) && IsHistory(codec, states, events) && DiskSound(codec, states[0].disk)
    requires i < k < |states| && Acknowledged(codec, states, events, i)
    requires forall m :: i < m < k ==> ReadsAt(codec, states, events, m)
    ensures WroteSince(codec, states, events, i, k, states[k].memory)
  {
    hide ReadsAt, Acknowledged, WroteSince, DiskSound;
    AcknowledgedFileSurvives(codec, states, events, i, k);
    AcknowledgedIsInStep(codec, states, events, i);
    MemoryMatchesFile(codec, states, events, i + 1, k);
  }

  lemma AcknowledgedIsInStep<P(!new)>(codec: Codec<P>, states: seq<Service<P>>, events: seq<Event<P>>, i: nat)
    requires RoundTrips(codec) && IsHistory(codec, states, events) && DiskSound(codec, states[0].disk)
    requires i < |events| && Acknowledged(codec, states, events, i)
    ensures InStep(codec, states[i + 1])
  {
    hide InStep, DiskSound, Persisted;
    DiskAlwaysSound(codec, states, events, i);
    PersistInStepIff(codec, states[i], events[i].next, events[i].faults);
  }

  /**
   A start that cannot read the file loses acknowledged profiles: memory is empty beside a full file, and
   the next change, made to the empty list, replaces the file for good.
   */
  lemma UnreadableStartLosesProfiles<P(!new)>(codec: Codec<P>, s: Service<P>, p: P)
    requires RoundTrips(codec) && InStep(codec, s) && TempName !in Live(s.disk)
    requires codec.encode([p]).Some?
    ensures var started := After(codec, s, Restart(true, false));
            started.memory == [] && Decoded(codec, Visible(started.disk, StateName)) == Some(s.memory)
    ensures var started := After(codec, s, Restart(true, false));
            var changed := After(codec, started, Persist(started.memory + [p], ALL_CALLS_WORK));
            && PersistOutcome(codec, started, started.memory + [p], ALL_CALLS_WORK) == Saved
            && changed.memory == [p]
            && forall c :: SomeVersionReads(changed.disk, c) ==> Decoded(codec, c) == Some([p])
  {
    var started := After(codec, s, Restart(true, false));
    assert started == Service(s.disk, []) && [] + [p] == [p];
    SavedInFull(codec, started, [p]);
  }

  const ALL_CALLS_WORK := Faults(true, true, 0, true, true, true, true, true)

  lemma SavedInFull<P(!new)>(codec: Codec<P>, s: Service<P>, next: seq<P>)
    requires RoundTrips(codec) && DiskSound(codec, s.disk) && TempName !in Live(s.disk) && codec.encode(next).Some?
    ensures PersistOutcome(codec, s, next, ALL_CALLS_WORK) == Saved
    ensures Persisted(codec, s, next, ALL_CALLS_WORK).memory == next
    ensures forall c :: SomeVersionReads(Persisted(codec, s, next, ALL_CALLS_WORK).disk, c) ==>
              Decoded(codec, c) == Some(next)
  {
    forall c | SomeVersionReads(Persisted(codec, s, next, ALL_CALLS_WORK).disk, c)
      ensures Decoded(codec, c) == Some(next)
    {
      SavedShowsOnly(codec, s, next, ALL_CALLS_WORK, c);
    }
  }

  /** A temporary file left behind blocks every later change until a restart gets rid of it. */
  lemma StaleTempBlocksChanges<P(!new)>(codec: Codec<P>, s: Service<P>, next: seq<P>, faults: Faults)
    requires WellFormed(s.disk) && TempName in Live(s.disk)
    ensures PersistOutcome(codec, s, next, faults) == FailedBeforeRename
    ensures Persisted(codec, s, next, faults) == s
    ensures TempName !in Live(Booted(codec, s.disk, true, true).disk)
  {
  }

  // ---- The service object ----

  class ProfileService<P(!new)> {
    var profiles: seq<P>
    const directory: StateDirectory
    const codec: Codec<P>

    /** Engine start: a stale temporary file is removed if that works, and the list is read if that works. */
    constructor (directory: StateDirectory, codec: Codec<P>, cleaned: bool, readable: bool)
      requires WellFormed(directory.disk)
      modifies directory
      ensures this.directory == directory && this.codec == codec
      ensures Service(directory.disk, profiles) == Booted(codec, old(directory.disk), cleaned, readable)
      ensures DiskSound(codec, old(directory.disk)) ==>
                (InStep(codec, Service(directory.disk, profiles)) <==>
                 readable || Decoded(codec, Visible(directory.disk, StateName)) == Some([]))
    {
      if DiskSound(codec, directory.disk) {
        BootInStepIff(codec, directory.disk, directory.disk, cleaned, readable);
      }
      if cleaned && TempName in Live(directory.disk) {
        directory.disk := Removed(directory.disk);
      }
      var list: seq<P> := [];
      if readable {
        var decoded := Decoded(codec, Visible(directory.disk, StateName));
        if decoded.Some? {
          list := decoded.value;
        }
      }
      this.directory := directory;
      this.codec := codec;
      this.profiles := list;
    }

    method PersistProfiles(next: seq<P>, faults: Faults) returns (outcome: SaveOutcome)
      requires WellFormed(directory.disk)
      modifies this, directory
      ensures outcome == PersistOutcome(codec, old(Service(directory.disk, profiles)), next, faults)
      ensures Service(directory.disk, profiles) ==
              Persisted(codec, old(Service(directory.disk, profiles)), next, faults)
      ensures profiles == if outcome.Committed() then next else old(profiles)
      ensures RoundTrips(codec) && old(InStep(codec, Service(directory.disk, profiles))) ==>
                InStep(codec, Service(directory.disk, profiles))
    {
      if RoundTrips(codec) && InStep(codec, Service(directory.disk, profiles)) {
        PersistInStepIff(codec, Service(directory.disk, profiles), next, faults);
      }
      var json := codec.encode(next);
      if json.None? {
        return FailedBeforeRename;
      }
      ghost var trace;
      outcome, trace := directory.Save(json.value, faults);
      if outcome.Committed() {
        profiles := next;
      }
    }
  }
}
