/** Folding a burst of window events into one pending sample (src/providers/windows.rs, `signal`
    and `schedule`). Instants are milliseconds of a monotonic clock. */
module Debounce {
  import opened Options
  import opened Records

  const DEBOUNCE := 300
  const DEBOUNCE_CEILING := 1000

  datatype Application = Application(pid: int, name: Option<string>, bundleId: Option<string>)

  datatype MacEvent =
    | ApplicationActivated(application: Application)
    | FocusedWindowChanged(pid: int)
    | TitleChanged(pid: int)
    | WindowCreated(pid: int)
    | WindowDestroyed(pid: int)
    | DisplaysReconfigured
    | ScreenLocked
    | ScreenUnlocked
    | DidWake
    | WillSleep

  datatype Signal = SampleOf(kind: Kind, application: Option<Application>) | MarkerOf(kind: Kind)

  datatype Pending = Pending(kind: Kind, ts: int, application: Option<Application>, first: int, deadline: int)

  /** An event that asks for a sample, with its time and the clock when it is taken up. */
  datatype Sample =
    | Activated(application: Application, ts: int, now: int)
    | Changed(ts: int, now: int)

  function Min(a: int, b: int): int { if a < b then a else b }

  /** What an event asks for; a sleep is a marker that is waited for. */
  function SignalOf(event: MacEvent): Signal {
    match event
    case ApplicationActivated(application) => SampleOf(Focus, Some(application))
    case ScreenLocked => MarkerOf(Lock)
    case ScreenUnlocked => MarkerOf(Unlock)
    case DidWake => MarkerOf(Wake)
    case WillSleep => MarkerOf(Sleep)
    case _ => SampleOf(StateChange, None)
  }

  function Schedule(
      pending: Option<Pending>, kind: Kind, application: Option<Application>, ts: int, now: int): Pending {
    match pending
    case None => Pending(kind, ts, application, now, now + DEBOUNCE)
    case Some(p) =>
      var activation := kind == Focus;
      Pending(if activation || p.kind == Focus then Focus else StateChange,
              if activation then ts else p.ts,
              application.Or(p.application),
              p.first,
              Min(now + DEBOUNCE, p.first + DEBOUNCE_CEILING))
  }

  function Take(pending: Option<Pending>, e: Sample): Pending {
    match e
    case Activated(application, ts, now) => Schedule(pending, Focus, Some(application), ts, now)
    case Changed(ts, now) => Schedule(pending, StateChange, None, ts, now)
  }

  function Fold(events: seq<Sample>): Pending
    requires events != []
  {
    var last := |events| - 1;
    Take(if last == 0 then None else Some(Fold(events[..last])), events[last])
  }

  /** A burst is a focus exactly when it holds an activation; time and application then come from
      its last one, else the time is the first event's. The deadline follows the last event but
      never passes a second after the first. */
  lemma {:induction false} BurstFolds(events: seq<Sample>)
    requires events != []
    ensures var p := Fold(events);
            var last := events[|events| - 1];
            && (p.kind == Focus <==> exists i :: 0 <= i < |events| && events[i].Activated?)
            && p.kind in {Focus, StateChange}
            && (forall i :: (0 <= i < |events| && events[i].Activated?
                             && forall j :: i < j < |events| ==> events[j].Changed?) ==>
                  p.ts == events[i].ts && p.application == Some(events[i].application))
            && (p.kind != Focus ==> p.ts == events[0].ts && p.application == None)
            && p.first == events[0].now
            && p.deadline == Min(last.now + DEBOUNCE, events[0].now + DEBOUNCE_CEILING)
  {
    var last := |events| - 1;
    if last > 0 {
      var front := events[..last];
      BurstFolds(front);
      assert forall i :: 0 <= i < last ==> front[i] == events[i];
      if Fold(front).kind == Focus {
        var i :| 0 <= i < |front| && front[i].Activated?;
        assert events[i].Activated?;
      }
    }
  }

  // ---- The provider's loop ----

  /** What the loop wakes up for: an event taken up at `now`, or the clock for the deadline. */
  datatype Input = Observed(event: MacEvent, at: int, now: int) | Clock(now: int)

  /** The samples taken, the one pending, and the markers sent with their times. */
  datatype Progress = Progress(fired: seq<Pending>, pending: Option<Pending>, markers: seq<(Kind, int)>)

  /** The clock wakes the loop only once there is a deadline and it is reached. */
  function Advance(p: Progress, input: Input): Progress {
    match input
    case Observed(event, at, now) =>
      (match SignalOf(event)
       case SampleOf(kind, application) => p.(pending := Some(Schedule(p.pending, kind, application, at, now)))
       case MarkerOf(kind) => p.(markers := p.markers + [(kind, at)]))
    case Clock(now) =>
      if p.pending.Some? && now >= p.pending.value.deadline then
          p.(fired := p.fired + [p.pending.value], pending := None)
      else p
  }

  function After(inputs: seq<Input>): Progress {
    if inputs == [] then Progress([], None, []) else Advance(After(inputs[..|inputs| - 1]), inputs[|inputs| - 1])
  }

  /** The loop over what it wakes up for. */
  method Run(inputs: seq<Input>) returns (fired: seq<Pending>, pending: Option<Pending>, markers: seq<(Kind, int)>)
    ensures Progress(fired, pending, markers) == After(inputs)
  {
    fired, pending, markers := [], None, [];
    for i := 0 to |inputs|
      invariant Progress(fired, pending, markers) == After(inputs[..i])
    {
      assert inputs[..i + 1][..i] == inputs[..i];
      match inputs[i]
      case Observed(event, at, now) =>
        match SignalOf(event) {
          case SampleOf(kind, application) =>
            pending := Some(Schedule(pending, kind, application, at, now));
          case MarkerOf(kind) =>
            markers := markers + [(kind, at)];
        }
      case Clock(now) =>
        if pending.Some? && now >= pending.value.deadline {
          fired, pending := fired + [pending.value], None;
        }
    }
    assert inputs[..|inputs|] == inputs;
  }

  /** The events that ask for a sample, in order. */
  function Samples(inputs: seq<Input>): seq<Sample> {
    if inputs == [] then []
    else Samples(inputs[..|inputs| - 1]) + SampleIn(inputs[|inputs| - 1])
  }

  /** An activation, or one of the five changes of windows and displays. */
  function SampleIn(input: Input): seq<Sample> {
    match input
    case Observed(ApplicationActivated(application), at, now) => [Activated(application, at, now)]
    case Observed(FocusedWindowChanged(_), at, now) => [Changed(at, now)]
    case Observed(TitleChanged(_), at, now) => [Changed(at, now)]
    case Observed(WindowCreated(_), at, now) => [Changed(at, now)]
    case Observed(WindowDestroyed(_), at, now) => [Changed(at, now)]
    case Observed(DisplaysReconfigured, at, now) => [Changed(at, now)]
    case _ => []
  }

  /** The locks, unlocks, wakes and sleeps with their times, in order. */
  function MarkersIn(inputs: seq<Input>): seq<(Kind, int)> {
    if inputs == [] then []
    else MarkersIn(inputs[..|inputs| - 1]) +
         match inputs[|inputs| - 1]
         case Observed(ScreenLocked, at, _) => [(Lock, at)]
         case Observed(ScreenUnlocked, at, _) => [(Unlock, at)]
         case Observed(DidWake, at, _) => [(Wake, at)]
         case Observed(WillSleep, at, _) => [(Sleep, at)]
         case _ => []
  }

  /** Bursts that were sampled, and the one still pending. */
  datatype Cut = Cut(closed: seq<seq<Sample>>, open: seq<Sample>)

  function Concat(bursts: seq<seq<Sample>>): seq<Sample> {
    if bursts == [] then [] else Concat(bursts[..|bursts| - 1]) + bursts[|bursts| - 1]
  }

  function Folded(burst: seq<Sample>): Option<Pending> {
    if burst == [] then None else Some(Fold(burst))
  }

  /** The samples are those of the bursts, each event in exactly one of them, in order. */
  ghost predicate Cuts(cut: Cut, samples: seq<Sample>, p: Progress) {
    && Concat(cut.closed) + cut.open == samples
    && |p.fired| == |cut.closed| && (forall i :: 0 <= i < |cut.closed| ==> Folded(cut.closed[i]) == Some(p.fired[i]))
    && p.pending == Folded(cut.open)
  }

  /** When a burst is due: 300 ms after its last event, but a second after its first at the latest. */
  function Due(burst: seq<Sample>): int
    requires burst != []
  {
    Min(burst[|burst| - 1].now + 300, burst[0].now + 1000)
  }

  /** A burst goes on with every event that asks for a sample, until the clock reads that it is due. */
  function CutOf(inputs: seq<Input>): Cut {
    if inputs == [] then Cut([], [])
    else
      var before := CutOf(inputs[..|inputs| - 1]);
      match inputs[|inputs| - 1]
      case Clock(now) =>
        if before.open != [] && now >= Due(before.open) then Cut(before.closed + [before.open], []) else before
      case Observed(_, _, _) => before.(open := before.open + SampleIn(inputs[|inputs| - 1]))
  }

  /** The stream is cut into bursts, and every sample taken is the fold of one. */
  lemma {:induction false} RunCuts(inputs: seq<Input>)
    ensures Cuts(CutOf(inputs), Samples(inputs), After(inputs))
  {
    hide Fold, Schedule, Concat, Due;
    NothingCut();
    if inputs != [] {
      var front, last := inputs[..|inputs| - 1], inputs[|inputs| - 1];
      var before, added := CutOf(front), SampleIn(last);
      RunCuts(front);
      assert Concat(before.closed) + (before.open + added) == Concat(before.closed) + before.open + added;
      assert before.open + [] == before.open && Samples(front) + [] == Samples(front);
      if added != [] {
        FoldMore(before.open, added[0]);
      }
      if before.open != [] {
        DueIsDeadline(before.open);
      }
      ConcatMore(before.closed, before.open);
      assert Concat(before.closed) + before.open + [] == Concat(before.closed) + before.open;
    }
  }

  lemma {:induction false} DueIsDeadline(burst: seq<Sample>)
    requires burst != []
    ensures Fold(burst).deadline == Due(burst)
  {
    BurstFolds(burst);
  }

  /** A clock reading at or after the time the open burst is due takes its sample and leaves nothing
      pending; an earlier reading, or an event, takes none. */
  lemma {:induction false} FiresExactly(inputs: seq<Input>, input: Input)
    ensures var open, before, after := CutOf(inputs).open, After(inputs), After(inputs + [input]);
            if input.Clock? && open != [] && input.now >= Due(open)
            then after.fired == before.fired + [Fold(open)] && after.pending == None
            else after.fired == before.fired && (input.Clock? ==> after.pending == before.pending)
  {
    hide Fold, Schedule, Concat, Due;
    RunCuts(inputs);
    assert (inputs + [input])[..|inputs|] == inputs;
    if CutOf(inputs).open != [] {
      DueIsDeadline(CutOf(inputs).open);
    }
  }

  /** Once the clock was read, what is pending is due later. */
  lemma {:induction false} NothingOverdue(inputs: seq<Input>, now: int)
    ensures var pending := After(inputs + [Clock(now)]).pending;
            pending.Some? ==> now < pending.value.deadline
  {
    assert (inputs + [Clock(now)])[..|inputs|] == inputs;
  }

  /** No sample is taken but when its deadline is read on the clock. */
  lemma {:induction false} FiredWhenDue(inputs: seq<Input>, i: nat) returns (k: nat)
    requires i < |After(inputs).fired|
    ensures k < |inputs| && inputs[k].Clock? && inputs[k].now >= After(inputs).fired[i].deadline
    ensures |After(inputs[..k]).fired| == i && After(inputs[..k]).pending == Some(After(inputs).fired[i])
  {
    hide Schedule;
    var last := |inputs| - 1;
    var front := inputs[..last];
    if i < |After(front).fired| {
      k := FiredWhenDue(front, i);
      assert front[..k] == inputs[..k];
    } else {
      k := last;
    }
  }

  /** The markers sent are the locks, unlocks, wakes and sleeps, each with its time, in order. */
  lemma {:induction false} MarkersExactly(inputs: seq<Input>)
    ensures After(inputs).markers == MarkersIn(inputs)
  {
    hide Schedule;
    if inputs != [] {
      MarkersExactly(inputs[..|inputs| - 1]);
    }
  }

  lemma NothingCut()
    ensures Concat([]) == []
  {
  }

  lemma ConcatMore(bursts: seq<seq<Sample>>, burst: seq<Sample>)
    ensures Concat(bursts + [burst]) == Concat(bursts) + burst
  {
    assert (bursts + [burst])[..|bursts|] == bursts;
  }

  lemma FoldMore(burst: seq<Sample>, e: Sample)
    ensures Fold(burst + [e]) == Take(Folded(burst), e)
  {
    assert (burst + [e])[..|burst|] == burst;
  }

  /** No event is taken up after the deadline that is pending: the clock has gone first. */
  predicate Timely(inputs: seq<Input>) {
    inputs == [] ||
    (var front, last := inputs[..|inputs| - 1], inputs[|inputs| - 1];
     Timely(front) && (last.Observed? && After(front).pending.Some? ==>
         last.now <= After(front).pending.value.deadline))
  }

  /** Every event of a burst is taken up within a second of its first. */
  ghost predicate Brief(burst: seq<Sample>) {
    forall i :: 0 <= i < |burst| ==> burst[i].now <= burst[0].now + DEBOUNCE_CEILING
  }

  /** However late the clock is served, every sample was due within a second of the first event of
      its burst. */
  lemma {:induction false} SamplesDueInTime(inputs: seq<Input>)
    ensures var cut, fired := CutOf(inputs), After(inputs).fired;
            && |fired| == |cut.closed|
            && forall i :: 0 <= i < |cut.closed| ==>
                 cut.closed[i] != [] && fired[i].deadline <= cut.closed[i][0].now + DEBOUNCE_CEILING
  {
    hide Fold, Schedule, Concat;
    RunCuts(inputs);
    var cut, fired := CutOf(inputs), After(inputs).fired;
    forall i | 0 <= i < |cut.closed|
      ensures cut.closed[i] != [] && fired[i].deadline <= cut.closed[i][0].now + DEBOUNCE_CEILING
    {
      assert Folded(cut.closed[i]) == Some(fired[i]);
      BurstFolds(cut.closed[i]);
    }
  }

  /** And when no event overtakes a deadline, every burst is over by then. */
  lemma {:induction false} BurstsAreBrief(inputs: seq<Input>)
    requires Timely(inputs)
    ensures var cut := CutOf(inputs);
            Brief(cut.open) && forall i :: 0 <= i < |cut.closed| ==> Brief(cut.closed[i])
  {
    hide Fold, Schedule, Concat, Brief;
    EmptyIsBrief();
    if inputs != [] {
      var front, last := inputs[..|inputs| - 1], inputs[|inputs| - 1];
      var before, added := CutOf(front), SampleIn(last);
      RunCuts(front);
      BurstsAreBrief(front);
      assert before.open + [] == before.open;
      if added != [] {
        BriefMore(before.open, added[0]);
      }
    }
  }

  lemma EmptyIsBrief()
    ensures Brief([])
  {
  }

  lemma {:induction false} BriefMore(burst: seq<Sample>, e: Sample)
    requires Brief(burst) && (burst != [] ==> e.now <= Fold(burst).deadline)
    ensures Brief(burst + [e])
  {
    hide Fold;
    if burst != [] {
      BurstFolds(burst);
    }
  }
}
