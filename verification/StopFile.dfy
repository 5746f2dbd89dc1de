/**
 * The stop-file handshake between the Windows service wrapper (windows/relaysvc.cs) and the relay it
 * starts (src/stopfile.js), over all interleavings and any number of service runs.
 */
module StopFile {
  import opened Prelude

  /** The file, by the service run whose Halt wrote it; runs count from 1, so 0 is older than any. */
  type File = Option<nat>

  /** Where the relay's watcher stands. */
  datatype Phase = Booting | Removing(found: bool) | Armed | Seen | Unlinked | Fired

  datatype Watch = Watch(phase: Phase, file: File)

  /** The watcher's next step; `ok` says whether a removal succeeds. */
  function Next(w: Watch, isFresh: bool, ok: bool): Watch {
    match w.phase
    case Booting => w.(phase := if isFresh then Armed else Removing(w.file.Some?))
    case Removing(found) => Watch(Armed, if found && ok then None else w.file)
    case Armed => if w.file.Some? then w.(phase := Seen) else w
    case Seen => Watch(Unlinked, if ok then None else w.file)
    case Unlinked => w.(phase := Fired)
    case Fired => w
  }

  // ---- the two programs ------------------------------------------------------------

  class SharedFile {
    var content: File
    constructor (content: File)
      ensures this.content == content
    {
      this.content := content;
    }
  }

  class Watcher {
    const file: SharedFile
    const isFresh: bool
    var phase: Phase
    var stops: nat   // how often onStop was called

    constructor (file: SharedFile, flag: bool)
      ensures this.file == file && isFresh == flag && phase == Booting && stops == 0
    {
      this.file, isFresh, phase, stops := file, flag, Booting, 0;
    }

    method Tick(ok: bool)
      modifies this, file
      ensures Watch(phase, file.content) == Next(old(Watch(phase, file.content)), isFresh, ok)
      ensures stops == old(stops) + if old(phase).Unlinked? then 1 else 0
    {
      match phase {
        case Booting =>
          if isFresh { phase := Armed; } else { phase := Removing(file.content.Some?); }
        case Removing(found) =>
          if found && ok { file.content := None; }
          phase := Armed;
        case Armed =>
          var present := file.content.Some?;
          if present { phase := Seen; }
        case Seen =>
          if ok { file.content := None; }
          phase := Unlinked;
        case Unlinked =>
          phase := Fired;
          stops := stops + 1;
        case Fired =>
      }
    }
  }

  class Wrapper {
    const file: SharedFile
    const run: nat
    var stopping: bool
    var started: bool
    var isFresh: bool

    constructor (file: SharedFile, run: nat)
      ensures this.file == file && this.run == run && !stopping && !started
    {
      this.file, this.run, stopping, started, isFresh := file, run, false, false, false;
    }

    method DeleteStale(ok: bool)
      modifies file
      ensures file.content == if ok then None else old(file.content)
    {
      if file.content.Some? && ok { file.content := None; }
    }

    method Start()
      modifies this
      ensures started && isFresh == file.content.None? && stopping == old(stopping)
    {
      isFresh := file.content.None?;
      started := true;
    }

    /** Asks the relay to leave; it waits for the grace only if there is a relay and the request was written. */
    method Halt(grace: nat, ok: bool) returns (waits: bool)
      modifies this`stopping, file
      ensures stopping && waits == (started && grace > 0 && ok)
      ensures file.content == if waits then Some(run) else old(file.content)
    {
      stopping := true;
      waits := false;
      if started && grace > 0 && ok {
        file.content := Some(run);
        waits := true;
      }
    }
  }

  // ---- all interleavings --------------------------------------------------------------

  datatype Service = Down | Starting | Cleaned | Running

  /** `wrote`: Halt has written the file in this run. `stops`: how often this run's relay called onStop. */
  datatype World = World(run: nat, service: Service, isFresh: bool, file: File, relay: Option<Phase>, wrote: bool, stops: nat)

  datatype Event =
    | StartRun
    | DeleteStale(ok: bool)
    | Spawn
    | Halt(ok: bool)
    | Relay(ok: bool)
    | RelayEnds
    | ServiceEnds

  function Step(w: World, e: Event): World {
    match e
    case StartRun => if w.service.Down? then World(w.run + 1, Starting, false, w.file, None, false, 0) else w
    case DeleteStale(ok) =>
      if w.service.Starting? then w.(service := Cleaned, file := if ok then None else w.file) else w
    case Spawn => if w.service.Cleaned? then w.(service := Running, isFresh := w.file.None?, relay := Some(Booting)) else w
    case Halt(ok) => if w.service.Running? && ok then w.(file := Some(w.run), wrote := true) else w
    case Relay(ok) =>
      if w.relay.Some? then
        var next := Next(Watch(w.relay.value, w.file), w.isFresh, ok);
        w.(relay := Some(next.phase), file := next.file, stops := w.stops + if w.relay.value.Unlinked? then 1 else 0)
      else w
    case RelayEnds => w.(relay := None)
    case ServiceEnds => if w.service.Running? then w.(service := Down, relay := None) else w
  }

  function Run(w: World, events: seq<Event>): World {
    if events == [] then w else Step(Run(w, events[..|events| - 1]), events[|events| - 1])
  }

  /** No run yet; a file may be left over from before. */
  predicate Initial(w: World) {
    w.run == 0 && w.service.Down? && w.relay.None? && !w.wrote && w.stops == 0 && (w.file.Some? ==> w.file.value == 0)
  }

  /** The file is there and older than this run. */
  predicate Stale(w: World) {
    w.file.Some? && w.file.value != w.run
  }

  /** The relay has found a file and is about to remove it. */
  predicate Removes(w: World, e: Event) {
    e.Relay? && w.relay == Some(Removing(true))
  }

  /** A relay's own removal of a file older than this run does not fail; what becomes of a newer one is no matter. */
  predicate RemovalWorks(w: World, e: Event) {
    Removes(w, e) && Stale(w) ==> e.ok
  }

  /** The relay has stopped although Halt has written nothing in this run. */
  predicate Unasked(w: World) {
    w.stops > 0 && !w.wrote
  }

  ghost predicate RemovalsWork(w: World, events: seq<Event>) {
    forall i :: 0 <= i < |events| ==> RemovalWorks(Run(w, events[..i]), events[i])
  }

  predicate Watching(p: Phase) {
    p.Armed? || p.Seen? || p.Unlinked? || p.Fired?
  }

  ghost predicate Sound(w: World) {
    && (w.file.Some? ==> w.file.value <= w.run)
    && (w.file == Some(w.run) && w.run > 0 ==> w.wrote)
    && (w.wrote ==> w.service.Running? || w.service.Down?)
    && (w.relay.Some? ==> w.service.Running?)
    && (w.relay.Some? && (w.isFresh || Watching(w.relay.value)) && w.file.Some? ==> w.file.value == w.run)
    && (w.relay.Some? && !w.isFresh && w.relay == Some(Removing(false)) && w.file.Some? ==> w.file.value == w.run)
    && (w.relay.Some? && (w.relay.value.Seen? || w.relay.value.Unlinked? || w.relay.value.Fired?) ==> w.wrote)
    && w.stops <= 1 && (w.stops == 1 ==> w.wrote)
    && (w.relay.Some? ==> (w.stops == 1 <==> w.relay.value.Fired?))
    && (w.run == 0 ==> w.service.Down?)
    && (w.relay.Some? && w.relay.value.Removing? ==> !w.isFresh)
  }

  lemma StepSound(w: World, e: Event)
    requires Sound(w) && RemovalWorks(w, e)
    ensures Sound(Step(w, e))
  {
  }

  /**
   * Over every interleaving, provided no removal of a stale file fails: the relay calls onStop at most
   * once, and only if Halt wrote the file in this very run.
   */
  lemma {:induction false} StopsOnlyWhenAsked(w: World, events: seq<Event>)
    requires Initial(w) && RemovalsWork(w, events)
    ensures Sound(Run(w, events)) && Run(w, events).stops <= 1 && (Run(w, events).stops == 1 ==> Run(w, events).wrote)
  {
    if events != [] {
      var init := events[..|events| - 1];
      forall i | 0 <= i < |init| ensures RemovalWorks(Run(w, init[..i]), init[i]) {
        assert events[..i] == init[..i];
        assert RemovalWorks(Run(w, events[..i]), events[i]);
      }
      StopsOnlyWhenAsked(w, init);
      assert RemovalWorks(Run(w, init), events[|init|]);
      StepSound(Run(w, init), events[|init|]);
    }
  }

  ghost predicate Reached(w: World) {
    exists w0, events :: Initial(w0) && RemovalsWork(w0, events) && w == Run(w0, events)
  }

  lemma ReachedSound(w: World)
    requires Reached(w)
    ensures Sound(w)
  {
    var w0, events :| Initial(w0) && RemovalsWork(w0, events) && w == Run(w0, events);
    StopsOnlyWhenAsked(w0, events);
  }

  /** A request of this run leaves the disk only on its way to onStop, or as mistaken for a stale one by a relay started with flag 0. */
  lemma RequestDeleted(w: World, e: Event)
    requires Reached(w) && w.run > 0 && w.file == Some(w.run) && Step(w, e).file == None
    ensures e == Relay(true) && w.relay.Some?
    ensures || (w.relay.value.Seen? && Step(w, e).relay == Some(Unlinked))
            || (w.relay.value == Removing(true) && !w.isFresh)
  {
    ReachedSound(w);
  }

  /** With flag 1 every file the watcher finds is a request of this run, and it is never removed unhonoured. */
  lemma FreshNeverLost(w: World, e: Event)
    requires Reached(w) && w.isFresh && w.relay.Some? && w.file.Some?
    ensures w.file == Some(w.run) && w.wrote
    ensures Step(w, e).file.Some? || (w.relay == Some(Seen) && Step(w, e).relay == Some(Unlinked))
  {
    ReachedSound(w);
  }

  /** A request pending while the relay boots survives the arming of its watcher exactly when the flag is 1. */
  lemma ArmingKeepsRequest(w: World)
    requires w.relay == Some(Booting) && w.file.Some?
    ensures var armed := if w.isFresh then Step(w, Relay(true)) else Step(Step(w, Relay(true)), Relay(true));
            armed.relay == Some(Armed) && (armed.file == w.file <==> w.isFresh)
  {
  }

  /** With flag 0 a request written between the relay's look and its removal survives exactly when the look found nothing. */
  lemma RacingRequest(w: World, found: bool)
    requires w.relay == Some(Removing(found)) && w.service.Running?
    ensures var armed := Step(Step(w, Halt(true)), Relay(true));
            armed.relay == Some(Armed) && (armed.file == Some(w.run) <==> !found)
  {
  }

  // ---- a request is honoured --------------------------------------------------------------

  function RelaySteps(events: seq<Event>): nat {
    if events == [] then 0 else RelaySteps(events[..|events| - 1]) + if events[|events| - 1].Relay? then 1 else 0
  }

  /** How many of its own steps a fresh watcher with a request before it has taken. */
  function Progress(p: Phase): nat {
    match p
    case Booting => 0
    case Removing(_) => 0
    case Armed => 1
    case Seen => 2
    case Unlinked => 3
    case Fired => 4
  }

  /** The relay has a request before it and has taken n of its own steps towards onStop. */
  ghost predicate Honouring(w: World, n: nat) {
    && w.relay.Some? && !w.relay.value.Removing? && w.isFresh
    && Progress(w.relay.value) == (if n < 4 then n else 4)
    && (n <= 2 ==> w.file.Some?)
    && w.stops == if n >= 4 then 1 else 0
  }

  /**
   * A request that arrives while a relay with flag 1 boots is honoured: whatever Halts and failing
   * removals come between, after four steps of its own the relay has called onStop once.
   */
  lemma {:induction false} BootRequestHonoured(w: World, events: seq<Event>)
    requires Honouring(w, 0)
    requires forall i :: 0 <= i < |events| ==> events[i].Halt? || events[i].Relay?
    ensures Honouring(Run(w, events), RelaySteps(events))
  {
    if events != [] {
      BootRequestHonoured(w, events[..|events| - 1]);
      HonouringStep(Run(w, events[..|events| - 1]), RelaySteps(events[..|events| - 1]), events[|events| - 1]);
    }
  }

  lemma HonouringStep(w: World, n: nat, e: Event)
    requires Honouring(w, n) && (e.Halt? || e.Relay?)
    ensures Honouring(Step(w, e), if e.Relay? then n + 1 else n)
  {
  }

  /** So many steps of the relay, each removal succeeding. */
  function OwnSteps(n: nat): (s: seq<Event>)
    ensures |s| == n && forall i :: 0 <= i < n ==> s[i] == Relay(true)
  {
    if n == 0 then [] else OwnSteps(n - 1) + [Relay(true)]
  }

  lemma {:induction false} OwnRelaySteps(n: nat)
    ensures RelaySteps(OwnSteps(n)) == n
  {
    if n > 0 { OwnRelaySteps(n - 1); }
  }

  lemma {:induction false} ArmedIdles(w: World, n: nat)
    requires n >= 2 && w.relay == Some(Booting) && w.file.Some? && !w.isFresh && w.stops == 0
    ensures var v := Run(w, OwnSteps(n)); v.relay == Some(Armed) && v.file == None && v.stops == 0
  {
    if n == 2 {
      ArmingKeepsRequest(w);
      assert OwnSteps(2) == [Relay(true)] + [Relay(true)] && OwnSteps(1) == [Relay(true)];
      assert Run(w, OwnSteps(1)) == Step(w, Relay(true)) by { OneMore(w, [], Relay(true)); }
      OneMore(w, [Relay(true)], Relay(true));
    } else {
      ArmedIdles(w, n - 1);
      OneMore(w, OwnSteps(n - 1), Relay(true));
    }
  }

  /** A request pending while the relay boots is honoured, left to itself, exactly when the flag is 1. */
  lemma BootRequestExactly(w: World, n: nat)
    requires w.relay == Some(Booting) && w.file.Some? && w.stops == 0 && n >= 4
    ensures Run(w, OwnSteps(n)).stops == if w.isFresh then 1 else 0
  {
    if w.isFresh {
      BootRequestHonoured(w, OwnSteps(n));
      OwnRelaySteps(n);
    } else {
      ArmedIdles(w, n);
    }
  }

  // ---- when a relay stops unasked ---------------------------------------------------------

  /** What holds in every run, whatever fails. */
  ghost predicate Ordered(w: World) {
    && (w.file.Some? ==> w.file.value <= w.run)
    && (w.relay.Some? ==> w.service.Running?)
    && (w.service.Starting? || w.service.Cleaned? ==> !w.wrote && w.stops == 0)
    && (w.relay.Some? && !Watching(w.relay.value) && w.wrote ==> w.file == Some(w.run))
    && (w.relay.Some? ==> w.stops == if w.relay.value.Fired? then 1 else 0)
  }

  lemma {:induction false} RunOrdered(w: World, events: seq<Event>)
    requires Initial(w)
    ensures Ordered(Run(w, events))
  {
    if events != [] { RunOrdered(w, events[..|events| - 1]); }
  }

  /** A watcher that sees a file nobody wrote in this run stops, whatever its removals do. */
  lemma ArmedStopsUnasked(w: World, a: bool, b: bool, c: bool)
    requires w.relay == Some(Armed) && w.file.Some? && !w.wrote
    ensures Unasked(Step(Step(Step(w, Relay(a)), Relay(b)), Relay(c)))
  {
  }

  lemma OneMore(w: World, events: seq<Event>, e: Event)
    ensures Run(w, events + [e]) == Step(Run(w, events), e)
  {
    assert (events + [e])[..|events|] == events;
  }

  lemma FourMore(w: World, events: seq<Event>, e: Event, a: bool, b: bool, c: bool)
    ensures Run(w, events + [e] + [Relay(a), Relay(b), Relay(c)])
            == Step(Step(Step(Step(Run(w, events), e), Relay(a)), Relay(b)), Relay(c))
  {
    hide Run, Step;
    OneMore(w, events, e);
    OneMore(w, events + [e], Relay(a));
    OneMore(w, events + [e] + [Relay(a)], Relay(b));
    OneMore(w, events + [e] + [Relay(a)] + [Relay(b)], Relay(c));
    assert events + [e] + [Relay(a), Relay(b), Relay(c)] == events + [e] + [Relay(a)] + [Relay(b)] + [Relay(c)];
  }

  /** In any run, when a relay removes a file older than this run, three more of its steps stop it unasked exactly if the removal fails. */
  lemma RemovalDecides(w0: World, events: seq<Event>, ok: bool, a: bool, b: bool, c: bool)
    requires Initial(w0) && Removes(Run(w0, events), Relay(ok)) && Stale(Run(w0, events))
    ensures Unasked(Run(w0, events + [Relay(ok)] + [Relay(a), Relay(b), Relay(c)])) <==> !ok
  {
    var w := Run(w0, events);
    RunOrdered(w0, events);
    FourMore(w0, events, Relay(ok), a, b, c);
    if !ok { ArmedStopsUnasked(Step(w, Relay(ok)), a, b, c); }
  }

  /**
   * For every run: while no removal of a stale file fails, no relay has stopped unasked at any moment of it;
   * and wherever one does fail, three more steps of that relay stop it unasked.
   */
  lemma UnaskedExactly(w0: World, events: seq<Event>)
    requires Initial(w0)
    ensures RemovalsWork(w0, events)
            <==> forall i :: 0 <= i < |events| && Removes(Run(w0, events[..i]), events[i]) && Stale(Run(w0, events[..i])) ==>
                   !Unasked(Run(w0, events[..i] + [events[i]] + [Relay(true), Relay(true), Relay(true)]))
    ensures RemovalsWork(w0, events) ==> forall n :: 0 <= n <= |events| ==> !Unasked(Run(w0, events[..n]))
  {
    hide Run, Step;
    forall i | 0 <= i < |events| && Removes(Run(w0, events[..i]), events[i]) && Stale(Run(w0, events[..i]))
      ensures Unasked(Run(w0, events[..i] + [events[i]] + [Relay(true), Relay(true), Relay(true)])) <==> !events[i].ok
    {
      RemovalDecides(w0, events[..i], events[i].ok, true, true, true);
    }
    if RemovalsWork(w0, events) {
      forall n | 0 <= n <= |events| ensures !Unasked(Run(w0, events[..n])) {
        forall i | 0 <= i < n ensures RemovalWorks(Run(w0, events[..n][..i]), events[..n][i]) {
          assert events[..n][..i] == events[..i];
          assert RemovalWorks(Run(w0, events[..i]), events[i]);
        }
        StopsOnlyWhenAsked(w0, events[..n]);
      }
    }
  }

  /** Why the removal must work: a stale file that neither side can remove stops a relay nobody asked to stop. */
  lemma UnremovableStaleFile()
    ensures var w := World(0, Down, false, Some(0), None, false, 0);
            var started := Step(Step(Step(w, StartRun), DeleteStale(false)), Spawn);
            var armed := Step(Step(started, Relay(true)), Relay(false));
            var stopped := Step(Step(Step(armed, Relay(false)), Relay(false)), Relay(false));
            Initial(w) && stopped.stops == 1 && !stopped.wrote
  {
  }
}
