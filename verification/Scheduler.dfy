/**
 The cron scheduler: which profiles fire on a tick, and what that adds up to over any
 number of ticks when some starts are refused and retried.

 Times are clock ticks.  A schedule is known only through "least occurrence strictly
 after t", which is all the code asks of the cron library.
 */
module Scheduler {
  import opened Wrappers
  import opened Text

  type Time = int

  datatype Schedule = Schedule(next: Time -> Option<Time>)

  /** `t` is an occurrence of the schedule. */
  ghost predicate Occurs(sch: Schedule, t: Time) {
    sch.next(t - 1) == Some(t)
  }

  ghost predicate OccursWithin(sch: Schedule, after: Time, upTo: Time) {
    exists u :: after < u <= upTo && Occurs(sch, u)
  }

  /** `next(t)` really is the least occurrence strictly after `t`, or there is none. */
  ghost predicate LeastAfter(sch: Schedule, t: Time) {
    match sch.next(t)
    case None => forall u :: u > t ==> !Occurs(sch, u)
    case Some(n) => n > t && Occurs(sch, n) && forall u :: t < u < n ==> !Occurs(sch, u)
  }

  ghost predicate Lawful(sch: Schedule) {
    forall t :: LeastAfter(sch, t)
  }

  type Parser = string -> Option<Schedule>

  ghost predicate LawfulParser(parse: Parser) {
    forall expr :: parse(expr).Some? ==> Lawful(parse(expr).value)
  }

  datatype Profile = Profile(id: string, enabled: bool, schedule: Option<string>)

  /** The schedule a profile is evaluated with, if it is evaluated at all. */
  function ActiveSchedule(parse: Parser, p: Profile): Option<Schedule> {
    if !p.enabled || p.schedule.None? || Blank(p.schedule.value) then None else parse(p.schedule.value)
  }

  function ShouldFire(sch: Schedule, last: Time, now: Time): (fire: Option<Time>)
    ensures fire.Some? ==> fire == sch.next(last) && fire.value <= now
  {
    match sch.next(last)
    case Some(n) => if n <= now then Some(n) else None
    case None => None
  }

  /** A profile fires exactly when an occurrence falls in (last, now]; it fires for the earliest one. */
  lemma FiresIffDue(sch: Schedule, last: Time, now: Time)
    requires Lawful(sch)
    ensures ShouldFire(sch, last, now).Some? <==> OccursWithin(sch, last, now)
    ensures ShouldFire(sch, last, now).Some? ==>
              var fire := ShouldFire(sch, last, now).value;
              last < fire <= now && Occurs(sch, fire) && !OccursWithin(sch, last, fire - 1)
  {
    assert LeastAfter(sch, last);
  }

  // ---- One evaluation, as a left-to-right walk ----

  type Attempts = map<string, Time>

  datatype Tick = Tick(last: Attempts, due: seq<string>)

  function LastOf(last: Attempts, startedAt: Time, id: string): Time {
    if id in last then last[id] else startedAt
  }

  function Visit(parse: Parser, startedAt: Time, now: Time, t: Tick, p: Profile): Tick {
    match ActiveSchedule(parse, p)
    case None => t
    case Some(sch) =>
      var last := LastOf(t.last, startedAt, p.id);
      if ShouldFire(sch, last, now).Some?
      then Tick(t.last[p.id := now], t.due + [p.id])
      else Tick(t.last[p.id := last], t.due)
  }

  function Walk(parse: Parser, startedAt: Time, now: Time, last: Attempts, profiles: seq<Profile>): Tick {
    if profiles == [] then Tick(last, [])
    else
      var n := |profiles| - 1;
      Visit(parse, startedAt, now, Walk(parse, startedAt, now, last, profiles[..n]), profiles[n])
  }

  lemma WalkStep(parse: Parser, startedAt: Time, now: Time, last: Attempts, profiles: seq<Profile>, i: nat)
    requires i < |profiles|
    ensures Walk(parse, startedAt, now, last, profiles[..i + 1]) ==
            Visit(parse, startedAt, now, Walk(parse, startedAt, now, last, profiles[..i]), profiles[i])
  {
    assert profiles[..i + 1][..i] == profiles[..i];
  }

  function Ids(profiles: seq<Profile>): set<string> {
    set i | 0 <= i < |profiles| :: profiles[i].id
  }

  function Pruned(last: Attempts, profiles: seq<Profile>): Attempts {
    map id | id in last && id in Ids(profiles) :: last[id]
  }

  function Evaluated(parse: Parser, startedAt: Time, last: Attempts, profiles: seq<Profile>, now: Time): Tick {
    Walk(parse, startedAt, now, Pruned(last, profiles), profiles)
  }

  ghost predicate NoDuplicates(ids: seq<string>) {
    forall i, k :: 0 <= i < k < |ids| ==> ids[i] != ids[k]
  }

  /** Whatever has fired this tick is stamped `now`, and nothing occurs in (now, now]. */
  lemma {:induction false} DueIsStamped(
      parse: Parser, startedAt: Time, now: Time, last: Attempts, profiles: seq<Profile>)
    requires LawfulParser(parse)
    ensures var t := Walk(parse, startedAt, now, last, profiles);
            NoDuplicates(t.due) && forall id :: id in t.due ==> id in t.last && t.last[id] == now
  {
    hide Blank;
    if profiles != [] {
      var n := |profiles| - 1;
      DueIsStamped(parse, startedAt, now, last, profiles[..n]);
      var before := Walk(parse, startedAt, now, last, profiles[..n]);
      var sch := ActiveSchedule(parse, profiles[n]);
      if sch.Some? {
        FiresIffDue(sch.value, LastOf(before.last, startedAt, profiles[n].id), now);
      }
    }
  }

  // ---- One turn of the loop ----

  datatype Round = Round(now: Time, profiles: seq<Profile>, starts: string -> bool)

  function Refused(due: seq<string>, starts: string -> bool): set<string> {
    set id | id in due && !starts(id)
  }

  function DueInRound(parse: Parser, startedAt: Time, last: Attempts, r: Round): seq<string> {
    Evaluated(parse, startedAt, last, r.profiles, r.now).due
  }

  function AfterRound(parse: Parser, startedAt: Time, last: Attempts, r: Round): Attempts {
    Evaluated(parse, startedAt, last, r.profiles, r.now).last
    - Refused(DueInRound(parse, startedAt, last, r), r.starts)
  }

  // ---- The scheduler object ----

  class SchedulerTick {
    var lastAttempted: Attempts
    const startedAt: Time
    const parse: Parser

    constructor (startedAt: Time, parse: Parser)
      ensures lastAttempted == map[] && this.startedAt == startedAt && this.parse == parse
    {
      this.lastAttempted := map[];
      this.startedAt := startedAt;
      this.parse := parse;
    }

    method Evaluate(profiles: seq<Profile>, now: Time) returns (due: seq<string>)
      modifies this
      ensures Tick(lastAttempted, due) == Evaluated(parse, startedAt, old(lastAttempted), profiles, now)
      ensures LawfulParser(parse) ==> NoDuplicates(due)
      ensures LawfulParser(parse) ==>
                forall id :: id in due <==>
                  SomeFires(parse, profiles, id, LastOf(Pruned(old(lastAttempted), profiles), startedAt, id), now)
    {
      hide Blank;
      var live := Ids(profiles);
      lastAttempted := map id | id in lastAttempted && id in live :: lastAttempted[id];
      ghost var pruned := lastAttempted;
      due := [];
      for i := 0 to |profiles|
        invariant Tick(lastAttempted, due) == Walk(parse, startedAt, now, pruned, profiles[..i])
      {
        WalkStep(parse, startedAt, now, pruned, profiles, i);
        var p := profiles[i];
        if p.enabled && p.schedule.Some? && !Blank(p.schedule.value) {
          var sch := parse(p.schedule.value);
          if sch.Some? {
            if p.id !in lastAttempted {
              lastAttempted := lastAttempted[p.id := startedAt];
            }
            if ShouldFire(sch.value, lastAttempted[p.id], now).Some? {
              lastAttempted := lastAttempted[p.id := now];
              due := due + [p.id];
            }
          }
        }
      }
      assert profiles[..|profiles|] == profiles;
      if LawfulParser(parse) {
        DueIsStamped(parse, startedAt, now, pruned, profiles);
        forall id
          ensures id in due <==> SomeFires(parse, profiles, id, LastOf(pruned, startedAt, id), now)
        {
          WalkAny(parse, startedAt, now, pruned, profiles, id);
        }
      }
    }

    method Retry(id: string)
      modifies this
      ensures lastAttempted == old(lastAttempted) - {id}
    {
      lastAttempted := lastAttempted - {id};
    }

    /** One turn of the scheduler loop; `starts(id)` is whether the job start is accepted. */
    method Turn(profiles: seq<Profile>, now: Time, starts: string -> bool) returns (due: seq<string>)
      modifies this
      ensures lastAttempted == AfterRound(parse, startedAt, old(lastAttempted), Round(now, profiles, starts))
      ensures due == DueInRound(parse, startedAt, old(lastAttempted), Round(now, profiles, starts))
    {
      due := Evaluate(profiles, now);
      ghost var stamped := lastAttempted;
      for i := 0 to |due|
        invariant lastAttempted == stamped - Refused(due[..i], starts)
      {
        assert due[..i + 1] == due[..i] + [due[i]];
        if !starts(due[i]) {
          Retry(due[i]);
        }
      }
      assert due[..|due|] == due;
    }
  }

  // ---- Runs of the loop ----

  /** A life of the scheduler: its start and the rounds since. */
  datatype Life = Life(parse: Parser, startedAt: Time, rounds: seq<Round>)

  /** The attempt map before round `k`. */
  function Attempted(l: Life, k: nat): Attempts
    requires k <= |l.rounds|
  {
    if k == 0 then map[] else AfterRound(l.parse, l.startedAt, Attempted(l, k - 1), l.rounds[k - 1])
  }

  function Due(l: Life, k: nat): seq<string>
    requires k < |l.rounds|
  {
    DueInRound(l.parse, l.startedAt, Attempted(l, k), l.rounds[k])
  }

  /** Round `k` started a backup of `id`. */
  predicate Starts(l: Life, k: nat, id: string)
    requires k < |l.rounds|
  {
    id in Due(l, k) && l.rounds[k].starts(id)
  }

  /** When `id` was last started before round `k`; engine start if never. */
  function LastStart(l: Life, k: nat, id: string): Time
    requires k <= |l.rounds|
  {
    if k == 0 then l.startedAt
    else if Starts(l, k - 1, id) then l.rounds[k - 1].now
    else LastStart(l, k - 1, id)
  }

  function Clock(l: Life, k: nat): Time
    requires k <= |l.rounds|
  {
    if k == 0 then l.startedAt else l.rounds[k - 1].now
  }

  predicate ClockHolds(l: Life, k: nat)
    requires k < |l.rounds|
  {
    Clock(l, k) <= l.rounds[k].now
  }

  ghost predicate ClockNeverGoesBack(l: Life) {
    forall k :: 0 <= k < |l.rounds| ==> ClockHolds(l, k)
  }

  /** `id` is listed and enabled, and every entry for it that counts has schedule `sch`. */
  ghost predicate ListedWith(parse: Parser, profiles: seq<Profile>, id: string, sch: Schedule) {
    && (exists i :: 0 <= i < |profiles| && Counts(parse, profiles[i], id))
    && OnlyWith(parse, profiles, id, sch)
  }

  ghost predicate OnlyWith(parse: Parser, profiles: seq<Profile>, id: string, sch: Schedule) {
    forall i :: 0 <= i < |profiles| && Counts(parse, profiles[i], id) ==>
                ActiveSchedule(parse, profiles[i]) == Some(sch)
  }

  ghost predicate ListedInRound(l: Life, k: nat, id: string, sch: Schedule)
    requires k < |l.rounds|
  {
    ListedWith(l.parse, l.rounds[k].profiles, id, sch)
  }

  ghost predicate Steady(l: Life, id: string, sch: Schedule) {
    && Lawful(sch)
    && ClockNeverGoesBack(l)
    && forall k :: 0 <= k < |l.rounds| ==> ListedInRound(l, k, id, sch)
  }

  predicate Counts(parse: Parser, p: Profile, id: string) {
    p.id == id && ActiveSchedule(parse, p).Some?
  }

  /** What a walk has done to one id: nothing before the first entry that counts, one decision after. */
  ghost predicate WalkedOne(
      sch: Schedule, startedAt: Time, now: Time, last: Attempts, t: Tick, id: string, seen: bool)
  {
    var from := LastOf(last, startedAt, id);
    if seen
    then && (id in t.due <==> OccursWithin(sch, from, now))
         && id in t.last && t.last[id] == if id in t.due then now else from
    else id !in t.due && LastOf(t.last, startedAt, id) == from
  }

  lemma VisitOne(
      parse: Parser, sch: Schedule, startedAt: Time, now: Time, last: Attempts, t: Tick, p: Profile,
      id: string, seen: bool)
    requires Lawful(sch) && WalkedOne(sch, startedAt, now, last, t, id, seen)
    requires Counts(parse, p, id) ==> ActiveSchedule(parse, p) == Some(sch)
    ensures WalkedOne(sch, startedAt, now, last, Visit(parse, startedAt, now, t, p), id, seen || Counts(parse, p, id))
  {
    if Counts(parse, p, id) {
      FiresIffDue(sch, LastOf(t.last, startedAt, id), now);
    }
  }

  predicate CountsIn(parse: Parser, profiles: seq<Profile>, id: string) {
    profiles != [] &&
    (CountsIn(parse, profiles[..|profiles| - 1], id) || Counts(parse, profiles[|profiles| - 1], id))
  }

  lemma {:induction false} WalkOne(
      parse: Parser, sch: Schedule, startedAt: Time, now: Time, last: Attempts, profiles: seq<Profile>, id: string)
    requires Lawful(sch) && OnlyWith(parse, profiles, id, sch)
    ensures var t := Walk(parse, startedAt, now, last, profiles);
            WalkedOne(sch, startedAt, now, last, t, id, CountsIn(parse, profiles, id))
  {
    if profiles != [] {
      var n := |profiles| - 1;
      WalkOne(parse, sch, startedAt, now, last, profiles[..n], id);
      VisitOne(parse, sch, startedAt, now, last, Walk(parse, startedAt, now, last, profiles[..n]), profiles[n], id,
               CountsIn(parse, profiles[..n], id));
    }
  }

  lemma {:induction false} ListedCounts(parse: Parser, profiles: seq<Profile>, id: string, i: nat)
    requires i < |profiles| && Counts(parse, profiles[i], id)
    ensures CountsIn(parse, profiles, id)
  {
    var n := |profiles| - 1;
    if i < n {
      ListedCounts(parse, profiles[..n], id, i);
    }
  }

  /** One round, seen from a steadily listed profile. */
  lemma RoundOne(l: Life, k: nat, id: string, sch: Schedule)
    requires Steady(l, id, sch) && k < |l.rounds|
    ensures var from := LastOf(Attempted(l, k), l.startedAt, id);
            var now := l.rounds[k].now;
            var next := Attempted(l, k + 1);
            && (id in Due(l, k) <==> OccursWithin(sch, from, now))
            && (id in next <==> !(id in Due(l, k) && !l.rounds[k].starts(id)))
            && (id in next ==> next[id] == if id in Due(l, k) then now else from)
  {
    var r := l.rounds[k];
    assert ListedInRound(l, k, id, sch);
    var i :| 0 <= i < |r.profiles| && Counts(l.parse, r.profiles[i], id);
    ListedCounts(l.parse, r.profiles, id, i);
    WalkOne(l.parse, sch, l.startedAt, r.now, Pruned(Attempted(l, k), r.profiles), r.profiles, id);
  }

  lemma {:induction false} LastStartInOrder(l: Life, k: nat, id: string)
    requires ClockNeverGoesBack(l) && k <= |l.rounds|
    ensures l.startedAt <= LastStart(l, k, id) <= Clock(l, k)
  {
    if k > 0 {
      LastStartInOrder(l, k - 1, id);
      assert ClockHolds(l, k - 1);
    }
  }

  function Entry(l: Life, k: nat, id: string): Option<Time>
    requires k <= |l.rounds|
  {
    var m := Attempted(l, k);
    if id in m then Some(m[id]) else None
  }

  /** What holds between rounds of an entry, the last accepted start and the clock. */
  ghost predicate Settled(sch: Schedule, entry: Option<Time>, start: Time, clock: Time) {
    match entry
    case Some(t) => t == start && !OccursWithin(sch, start, clock)
    case None => OccursWithin(sch, start, clock)
  }

  /**
   After every round an entry is the last accepted start and everything up to the clock is
   covered, or the entry was forgotten by a retry and an occurrence is waiting.
   */
  lemma {:induction false} BetweenRounds(l: Life, k: nat, id: string, sch: Schedule)
    requires Steady(l, id, sch) && 0 < k <= |l.rounds|
    ensures Settled(sch, Entry(l, k, id), LastStart(l, k, id), Clock(l, k))
  {
    RoundOne(l, k - 1, id, sch);
    LastStartInOrder(l, k - 1, id);
    assert ClockHolds(l, k - 1);
    if k > 1 {
      BetweenRounds(l, k - 1, id, sch);
    }
  }

  /** The profile is offered in round `k` exactly when an occurrence since its last start has come. */
  lemma OfferedIffOwed(l: Life, k: nat, id: string, sch: Schedule)
    requires Steady(l, id, sch) && k < |l.rounds|
    ensures id in Due(l, k) <==> OccursWithin(sch, LastStart(l, k, id), l.rounds[k].now)
  {
    RoundOne(l, k, id, sch);
    LastStartInOrder(l, k, id);
    assert ClockHolds(l, k);
    if k > 0 {
      BetweenRounds(l, k, id, sch);
    }
  }

  lemma {:induction false} LastStartAtLeast(l: Life, i: nat, k: nat, id: string)
    requires ClockNeverGoesBack(l) && i < k <= |l.rounds| && Starts(l, i, id)
    ensures LastStart(l, k, id) >= l.rounds[i].now
  {
    if i + 1 < k {
      LastStartAtLeast(l, i, k - 1, id);
      LastStartInOrder(l, k - 1, id);
      assert ClockHolds(l, k - 1);
    }
  }

  /**
   No occurrence is started twice: each accepted start has an occurrence of its own, after
   every earlier accepted start and after engine start.
   */
  lemma StartHasOwnOccurrence(l: Life, k: nat, id: string, sch: Schedule) returns (u: Time)
    requires Steady(l, id, sch) && k < |l.rounds| && Starts(l, k, id)
    ensures Occurs(sch, u) && l.startedAt < u && LastStart(l, k, id) < u <= l.rounds[k].now
    ensures forall i :: 0 <= i < k && Starts(l, i, id) ==> l.rounds[i].now < u
  {
    OfferedIffOwed(l, k, id, sch);
    LastStartInOrder(l, k, id);
    u :| LastStart(l, k, id) < u <= l.rounds[k].now && Occurs(sch, u);
    forall i | 0 <= i < k && Starts(l, i, id)
      ensures l.rounds[i].now < u
    {
      LastStartAtLeast(l, i, k, id);
    }
  }

  /** An accepted start in round `i` answers for every occurrence since the start before it. */
  predicate Covers(l: Life, i: nat, id: string, u: Time)
    requires i < |l.rounds|
  {
    Starts(l, i, id) && LastStart(l, i, id) < u <= l.rounds[i].now
  }

  lemma {:induction false} CoveredUpToLastStart(l: Life, k: nat, id: string, u: Time) returns (i: nat)
    requires k <= |l.rounds| && l.startedAt < u <= LastStart(l, k, id)
    ensures i < k && Covers(l, i, id, u)
  {
    if Starts(l, k - 1, id) && LastStart(l, k - 1, id) < u {
      i := k - 1;
    } else {
      i := CoveredUpToLastStart(l, k - 1, id, u);
    }
  }

  /**
   No occurrence since engine start is lost: after every round it is covered by an accepted
   start, or it was offered in that round, refused, and is offered again in the next.
   */
  lemma NoOccurrenceLost(l: Life, k: nat, id: string, sch: Schedule, u: Time)
    requires Steady(l, id, sch) && k < |l.rounds|
    requires Occurs(sch, u) && l.startedAt < u <= l.rounds[k].now
    ensures || (exists i :: 0 <= i <= k && Covers(l, i, id, u))
            || (id in Due(l, k) && !Starts(l, k, id) && (k + 1 < |l.rounds| ==> id in Due(l, k + 1)))
  {
    if u <= LastStart(l, k + 1, id) {
      var i := CoveredUpToLastStart(l, k + 1, id, u);
    } else {
      OfferedIffOwed(l, k, id, sch);
      LastStartInOrder(l, k, id);
      assert OccursWithin(sch, LastStart(l, k, id), l.rounds[k].now);
      if k + 1 < |l.rounds| {
        OfferedIffOwed(l, k + 1, id, sch);
        assert ClockHolds(l, k + 1);
      }
    }
  }

  /** Missed runs are not caught up: nothing is offered for an occurrence at or before engine start. */
  lemma NothingBeforeEngineStart(l: Life, k: nat, id: string, sch: Schedule)
    requires Steady(l, id, sch) && k < |l.rounds|
    requires !OccursWithin(sch, l.startedAt, l.rounds[k].now)
    ensures id !in Due(l, k)
  {
    OfferedIffOwed(l, k, id, sch);
    LastStartInOrder(l, k, id);
  }

  // ---- Any life: disabled, edited, removed and repeated profiles ----

  /** The entry belongs to `id`, is enabled, and has a schedule with something written in it that parses. */
  ghost predicate Runnable(parse: Parser, p: Profile, id: string) {
    && p.id == id && p.enabled && p.schedule.Some?
    && (exists i :: 0 <= i < |p.schedule.value| && !IsWhitespace(p.schedule.value[i]))
    && parse(p.schedule.value).Some?
  }

  lemma CountsIffRunnable(parse: Parser, p: Profile, id: string)
    ensures Counts(parse, p, id) <==> Runnable(parse, p, id)
    ensures Runnable(parse, p, id) ==> ActiveSchedule(parse, p) == parse(p.schedule.value)
  {
    if p.schedule.Some? {
      BlankIff(p.schedule.value);
    }
    hide Blank, IsWhitespace;
  }

  /** And that schedule has an occurrence in (since, now]. */
  ghost predicate Fires(parse: Parser, p: Profile, id: string, since: Time, now: Time) {
    Runnable(parse, p, id) && OccursWithin(parse(p.schedule.value).value, since, now)
  }

  ghost predicate SomeFires(parse: Parser, profiles: seq<Profile>, id: string, since: Time, now: Time) {
    exists i :: 0 <= i < |profiles| && Fires(parse, profiles[i], id, since, now)
  }

  /** What a walk has done to one id, whatever its entries are: it is due if one of them fires, and stamped if due. */
  ghost predicate WalkedAny(
      parse: Parser, startedAt: Time, now: Time, since: Time, t: Tick, profiles: seq<Profile>, id: string)
  {
    && (id in t.due <==> SomeFires(parse, profiles, id, since, now))
    && LastOf(t.last, startedAt, id) == if id in t.due then now else since
  }

  lemma SomeFiresOneMore(parse: Parser, profiles: seq<Profile>, id: string, since: Time, now: Time)
    requires |profiles| > 0
    ensures var n := |profiles| - 1;
            SomeFires(parse, profiles, id, since, now) <==>
            SomeFires(parse, profiles[..n], id, since, now) || Fires(parse, profiles[n], id, since, now)
  {
    hide Fires;
    var n := |profiles| - 1;
    if i :| 0 <= i < |profiles| && Fires(parse, profiles[i], id, since, now) {
      assert i < n ==> profiles[..n][i] == profiles[i];
    }
    if i :| 0 <= i < n && Fires(parse, profiles[..n][i], id, since, now) {
      assert profiles[i] == profiles[..n][i];
    }
  }

  lemma VisitAny(parse: Parser, startedAt: Time, now: Time, since: Time, t: Tick, p: Profile, id: string)
    requires LawfulParser(parse) && LastOf(t.last, startedAt, id) == if id in t.due then now else since
    ensures var v := Visit(parse, startedAt, now, t, p);
            && (id in v.due <==> id in t.due || Fires(parse, p, id, since, now))
            && LastOf(v.last, startedAt, id) == if id in v.due then now else since
  {
    CountsIffRunnable(parse, p, id);
    hide Blank, Runnable;
    if Counts(parse, p, id) {
      FiresIffDue(ActiveSchedule(parse, p).value, LastOf(t.last, startedAt, id), now);
    }
  }

  lemma {:induction false} WalkAny(
      parse: Parser, startedAt: Time, now: Time, last: Attempts, profiles: seq<Profile>, id: string)
    requires LawfulParser(parse)
    ensures var t := Walk(parse, startedAt, now, last, profiles);
            WalkedAny(parse, startedAt, now, LastOf(last, startedAt, id), t, profiles, id)
  {
    var since := LastOf(last, startedAt, id);
    if |profiles| > 0 {
      var n := |profiles| - 1;
      WalkAny(parse, startedAt, now, last, profiles[..n], id);
      VisitAny(parse, startedAt, now, since, Walk(parse, startedAt, now, last, profiles[..n]), profiles[n], id);
      SomeFiresOneMore(parse, profiles, id, since, now);
      hide Fires, SomeFires, Visit, LawfulParser;
    }
  }

  predicate Listed(l: Life, k: nat, id: string)
    requires k < |l.rounds|
  {
    id in Ids(l.rounds[k].profiles)
  }

  /**
   From when on round `k` looks for occurrences: the last start that was accepted, unless a refused start or a
   round without the profile came after it - then engine start.
   */
  function Since(l: Life, k: nat, id: string): Time
    requires k <= |l.rounds|
  {
    if k == 0 || !Listed(l, k - 1, id) then l.startedAt
    else if id !in Due(l, k - 1) then Since(l, k - 1, id)
    else if l.rounds[k - 1].starts(id) then l.rounds[k - 1].now
    else l.startedAt
  }

  lemma NotListedNotDue(parse: Parser, profiles: seq<Profile>, id: string, since: Time, now: Time)
    requires id !in Ids(profiles)
    ensures !SomeFires(parse, profiles, id, since, now)
  {
    forall i | 0 <= i < |profiles|
      ensures profiles[i].id != id
    {
      assert profiles[i].id in Ids(profiles);
    }
  }

  lemma RoundAny(l: Life, k: nat, id: string)
    requires LawfulParser(l.parse) && k < |l.rounds|
    ensures var r := l.rounds[k];
            var since := if Listed(l, k, id) then LastOf(Attempted(l, k), l.startedAt, id) else l.startedAt;
            && (id in Due(l, k) <==> SomeFires(l.parse, r.profiles, id, since, r.now))
            && LastOf(Attempted(l, k + 1), l.startedAt, id) ==
               if id !in Due(l, k) then since else if r.starts(id) then r.now else l.startedAt
  {
    var r := l.rounds[k];
    var pruned := Pruned(Attempted(l, k), r.profiles);
    WalkAny(l.parse, l.startedAt, r.now, pruned, r.profiles, id);
    hide Walk, SomeFires, LawfulParser;
  }

  lemma {:induction false} LooksSince(l: Life, k: nat, id: string)
    requires LawfulParser(l.parse) && k <= |l.rounds|
    ensures LastOf(Attempted(l, k), l.startedAt, id) == Since(l, k, id)
  {
    if k > 0 {
      LooksSince(l, k - 1, id);
      RoundAny(l, k - 1, id);
      if !Listed(l, k - 1, id) {
        NotListedNotDue(l.parse, l.rounds[k - 1].profiles, id, l.startedAt, l.rounds[k - 1].now);
      }
      hide Attempted, Due, SomeFires;
    }
  }

  /**
   In every life, whatever is disabled, edited, removed or listed twice and whatever the clock does: a round offers
   an id exactly when an enabled entry of it, with a schedule that parses, has an occurrence since the time that counts.
   */
  lemma OfferedIff(l: Life, k: nat, id: string)
    requires LawfulParser(l.parse) && k < |l.rounds|
    ensures id in Due(l, k) <==> SomeFires(l.parse, l.rounds[k].profiles, id, Since(l, k, id), l.rounds[k].now)
  {
    LooksSince(l, k, id);
    RoundAny(l, k, id);
    if !Listed(l, k, id) {
      NotListedNotDue(l.parse, l.rounds[k].profiles, id, Since(l, k, id), l.rounds[k].now);
    }
    hide Attempted, Due, Since, SomeFires;
  }

  /** A profile whose entries are all disabled is never offered. */
  lemma DisabledIsSilent(l: Life, k: nat, id: string)
    requires LawfulParser(l.parse) && k < |l.rounds|
    requires forall i :: 0 <= i < |l.rounds[k].profiles| && l.rounds[k].profiles[i].id == id ==>
               !l.rounds[k].profiles[i].enabled
    ensures id !in Due(l, k)
  {
    OfferedIff(l, k, id);
    hide Due, Since;
  }

  /** The profile is listed in round `k`, but disabled or without a schedule that parses. */
  ghost predicate Paused(l: Life, k: nat, id: string)
    requires k < |l.rounds|
  {
    Listed(l, k, id) && forall i :: 0 <= i < |l.rounds[k].profiles| ==> !Runnable(l.parse, l.rounds[k].profiles[i], id)
  }

  lemma {:induction false} SinceThroughPause(l: Life, i: nat, k: nat, id: string)
    requires LawfulParser(l.parse) && i < k <= |l.rounds| && Listed(l, i, id) && Starts(l, i, id)
    requires forall m :: i < m < k ==> Paused(l, m, id)
    ensures Since(l, k, id) == l.rounds[i].now
  {
    if i + 1 < k {
      SinceThroughPause(l, i, k - 1, id);
      OfferedIff(l, k - 1, id);
      assert Paused(l, k - 1, id);
    }
  }

  /** A profile that is enabled again is offered for what it missed while it was disabled, up to its last start. */
  lemma ResumedIsOwedThePause(l: Life, i: nat, k: nat, id: string)
    requires LawfulParser(l.parse) && i < k < |l.rounds| && Starts(l, i, id)
    requires forall m :: i < m < k ==> Paused(l, m, id)
    ensures id in Due(l, k) <==> SomeFires(l.parse, l.rounds[k].profiles, id, l.rounds[i].now, l.rounds[k].now)
  {
    if !Listed(l, i, id) {
      OfferedIff(l, i, id);
      NotListedNotDue(l.parse, l.rounds[i].profiles, id, Since(l, i, id), l.rounds[i].now);
    }
    SinceThroughPause(l, i, k, id);
    OfferedIff(l, k, id);
  }
}
