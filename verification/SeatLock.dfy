/**
 * The lock file that gives one live process an author key (src/mcp-session.js), and every
 * interleaving of the processes that claim, share, release, crash and take it over.
 */
module SeatLock {
  import opened Prelude

  /** `Garbage` is a file that does not parse, or whose pid is not an integer. */
  datatype Lock = Absent | Garbage | Held(pid: int, handle: Option<string>)

  datatype Config = Config(handle: Option<string>, strict: bool, shared: bool, usingDefault: bool)

  /** `Unlinking` is a release that has read its own pid and not yet removed the file. */
  datatype Role = Idle | Owner | Joined | Unlinking | Released

  datatype Outcome = Takes | Joins | Refused | StrictlyRefused

  function Decide(lock: Lock, me: int, c: Config, live: set<int>): Outcome {
    if c.strict && c.usingDefault then StrictlyRefused
    else if lock.Held? && lock.pid != me && lock.pid > 0 && lock.pid in live then
      if c.shared && !c.usingDefault && lock.handle == c.handle then Joins else Refused
    else Takes
  }

  function RoleAfter(o: Outcome): Role {
    match o
    case Takes => Owner
    case Joins => Joined
    case _ => Idle
  }

  // ---- one server and the file it shares ------------------------------------------

  class LockFile {
    var content: Lock
    constructor (content: Lock)
      ensures this.content == content
    {
      this.content := content;
    }
  }

  class Server {
    const pid: int
    const config: Config
    const file: LockFile
    var role: Role

    constructor (pid: int, config: Config, file: LockFile)
      ensures this.pid == pid && this.config == config && this.file == file && role == Idle
    {
      this.pid, this.config, this.file, role := pid, config, file, Idle;
    }

    method Claim(live: set<int>) returns (o: Outcome)
      requires role == Idle
      modifies this`role, file
      ensures o == Decide(old(file.content), pid, config, live)
      ensures role == RoleAfter(o)
      ensures file.content == if o == Takes then Held(pid, config.handle) else old(file.content)
    {
      if config.strict && config.usingDefault { return StrictlyRefused; }
      var held := file.content;
      if held.Held? && held.pid != pid && held.pid > 0 && held.pid in live {
        if config.shared && !config.usingDefault && held.handle == config.handle {
          role := Joined;
          return Joins;
        }
        return Refused;
      }
      file.content := Held(pid, config.handle);
      role := Owner;
      return Takes;
    }

    /** The first half of a release: a joiner's does nothing, a holder's looks whose lock it is. */
    method ReleaseRead()
      modifies this`role
      ensures role == AfterRead(old(role), pid, file.content)
    {
      if role == Joined {
        role := Released;
      } else if role == Owner || role == Released {
        role := if Names(file.content, pid) then Unlinking else Released;
      }
    }

    /** The second half: removes whatever the file then holds, unless the removal fails. */
    method Unlink(succeeds: bool)
      requires role == Unlinking
      modifies this`role, file
      ensures role == Released
      ensures file.content == if succeeds then Absent else old(file.content)
    {
      if succeeds { file.content := Absent; }
      role := Released;
    }
  }

  function AfterRead(role: Role, me: int, lock: Lock): Role {
    match role
    case Joined => Released
    case Owner => if Names(lock, me) then Unlinking else Released
    case Released => if Names(lock, me) then Unlinking else Released
    case _ => role
  }

  // ---- all processes at once ---------------------------------------------------------

  datatype Proc = Proc(config: Config, role: Role)

  /** Live servers by pid, and the pids of live processes that are not servers. */
  datatype World = World(lock: Lock, procs: map<int, Proc>, others: set<int>)

  datatype Event =
    | Start(pid: int, config: Config)
    | OtherStart(pid: int)
    | OtherEnd(pid: int)
    | Claim(pid: int)
    | ReleaseRead(pid: int)
    | Unlink(pid: int, succeeds: bool)
    | End(pid: int)   // exit or crash, at any moment

  function Live(w: World): set<int> {
    w.procs.Keys + w.others
  }

  function WithRole(w: World, pid: int, role: Role): World
    requires pid in w.procs
  {
    w.(procs := w.procs[pid := w.procs[pid].(role := role)])
  }

  function Step(w: World, e: Event): World {
    match e
    case Start(pid, c) => if pid > 0 && pid !in Live(w) then w.(procs := w.procs[pid := Proc(c, Idle)]) else w
    case OtherStart(pid) => if pid > 0 && pid !in Live(w) then w.(others := w.others + {pid}) else w
    case OtherEnd(pid) => w.(others := w.others - {pid})
    case Claim(pid) => if pid in w.procs && w.procs[pid].role == Idle then Claimed(w, pid) else w
    case ReleaseRead(pid) =>
      if pid in w.procs then WithRole(w, pid, AfterRead(w.procs[pid].role, pid, w.lock)) else w
    case Unlink(pid, succeeds) =>
      if pid in w.procs && w.procs[pid].role == Unlinking
      then WithRole(w, pid, Released).(lock := if succeeds then Absent else w.lock) else w
    case End(pid) => w.(procs := w.procs - {pid})
  }

  function Claimed(w: World, pid: int): World
    requires pid in w.procs
  {
    var c := w.procs[pid].config;
    var o := Decide(w.lock, pid, c, Live(w));
    WithRole(w, pid, RoleAfter(o)).(lock := if o == Takes then Held(pid, c.handle) else w.lock)
  }

  function Run(w: World, events: seq<Event>): World {
    if events == [] then w else Step(Run(w, events[..|events| - 1]), events[|events| - 1])
  }

  /** Nobody runs yet; the file may hold anything an earlier life left behind. */
  predicate Initial(w: World) {
    w.procs == map[] && w.others == {}
  }

  predicate HasRole(w: World, pid: int, role: Role) {
    pid in w.procs && w.procs[pid].role == role
  }

  predicate Holder(w: World, pid: int) {
    HasRole(w, pid, Owner) || HasRole(w, pid, Unlinking)
  }

  predicate Signs(w: World, pid: int) {
    HasRole(w, pid, Owner) || HasRole(w, pid, Joined)
  }

  predicate Names(lock: Lock, pid: int) {
    lock.Held? && lock.pid == pid
  }

  ghost predicate Named(w: World) {
    && (forall p :: Holder(w, p) ==> w.lock == Held(p, w.procs[p].config.handle))
    && (forall p :: p in w.procs && w.procs[p].role != Idle && Names(w.lock, p)
                    ==> w.lock.handle == w.procs[p].config.handle)
    && (forall p :: HasRole(w, p, Joined) ==> !Names(w.lock, p))
    && (forall p :: p in w.procs ==> p > 0 && p !in w.others)
  }

  /** Strict seats never fall back to the default key, and nobody shares it. */
  ghost predicate Explicit(w: World) {
    && (forall p :: Signs(w, p) && w.procs[p].config.usingDefault ==> !w.procs[p].config.strict)
    && (forall p :: HasRole(w, p, Joined) ==> w.procs[p].config.shared && !w.procs[p].config.usingDefault)
  }

  lemma StepNamed(w: World, e: Event)
    requires Named(w)
    ensures Named(Step(w, e))
  {
    var v := Step(w, e);
    if e.Claim? && HasRole(w, e.pid, Idle) {
      forall p | Holder(v, p) ensures v.lock == Held(p, v.procs[p].config.handle) {
        if p != e.pid { assert Holder(w, p) && p in Live(w); }
      }
    } else {
      forall p | Holder(v, p) ensures v.lock == Held(p, v.procs[p].config.handle) {
        if e.ReleaseRead? && p == e.pid {
          assert Holder(w, p) || Names(w.lock, p);
        } else {
          assert Holder(w, p);
          if e.Unlink? && HasRole(w, e.pid, Unlinking) { assert Holder(w, e.pid); }
        }
      }
    }
  }

  /**
   * Over every run of every number of processes, with crashes, reused pids and failing removals:
   * each live server that holds the seat, or is between the two halves of giving it up, is the one
   * the file names.
   */
  lemma {:induction false} RunNamed(w: World, events: seq<Event>)
    requires Initial(w)
    ensures Named(Run(w, events))
  {
    if events != [] {
      RunNamed(w, events[..|events| - 1]);
      StepNamed(Run(w, events[..|events| - 1]), events[|events| - 1]);
    }
  }

  /** Some run of some processes leads here. */
  ghost predicate Reached(w: World) {
    exists w0, events :: Initial(w0) && w == Run(w0, events)
  }

  lemma ReachedNamed(w: World)
    requires Reached(w)
    ensures Named(w) && Explicit(w)
  {
    var w0, events :| Initial(w0) && w == Run(w0, events);
    RunNamed(w0, events);
    RunExplicit(w0, events);
  }

  lemma OneHolder(w: World, p: int, q: int)
    requires Reached(w) && Holder(w, p) && Holder(w, q)
    ensures p == q
  {
    ReachedNamed(w);
  }

  /** The file is written only over a lock whose pid is dead, malformed or one's own, and removed only by the process it names. */
  lemma FileChanges(w: World, e: Event)
    requires Reached(w) && Step(w, e).lock != w.lock
    ensures (&& e.Claim? && HasRole(w, e.pid, Idle) && Step(w, e).lock == Held(e.pid, w.procs[e.pid].config.handle)
             && (w.lock.Held? && w.lock.pid != e.pid ==> w.lock.pid !in Live(w) || w.lock.pid <= 0))
            || (e.Unlink? && HasRole(w, e.pid, Unlinking) && Names(w.lock, e.pid) && Step(w, e).lock == Absent)
  {
    hide Explicit;
    ReachedNamed(w);
    if e.Unlink? { assert Holder(w, e.pid); }
  }

  /** While a live server holds the seat, no step of another process touches the file. */
  lemma SeatHeldFast(w: World, p: int, e: Event)
    requires Reached(w) && Holder(w, p) && e.pid != p
    ensures Step(w, e).lock == w.lock && Holder(Step(w, e), p)
  {
    hide Explicit;
    ReachedNamed(w);
    assert p in Live(w);
    assert Holder(w, e.pid) <==> HasRole(w, e.pid, Owner) || HasRole(w, e.pid, Unlinking);
  }

  /** A joiner never changes the file. */
  lemma JoinerLeavesFile(w: World, p: int, e: Event)
    requires HasRole(w, p, Joined) && e.pid == p
    ensures Step(w, e).lock == w.lock && (HasRole(Step(w, e), p, Joined) || HasRole(Step(w, e), p, Released) || e == End(p))
  {
  }

  /** A release of a process that the file no longer names does nothing. */
  lemma SecondReleaseIdle(w: World, p: int)
    requires HasRole(w, p, Released) && !Names(w.lock, p)
    ensures Step(w, ReleaseRead(p)) == w
  {
    assert w.procs[p := w.procs[p].(role := Released)] == w.procs;
  }

  /** A process that has joined, or has given the seat up, and that the file does not name. */
  predicate Bystander(w: World, p: int) {
    (HasRole(w, p, Joined) || HasRole(w, p, Released)) && !Names(w.lock, p)
  }

  lemma StepBystander(w: World, e: Event, p: int)
    requires Bystander(w, p) && e != End(p)
    ensures Bystander(Step(w, e), p) && (HasRole(w, p, Released) ==> HasRole(Step(w, e), p, Released))
    ensures e.pid == p ==> Step(w, e).lock == w.lock
  {
    if e.pid == p {
      if HasRole(w, p, Joined) {
        JoinerLeavesFile(w, p, e);
      } else if e.ReleaseRead? {
        SecondReleaseIdle(w, p);
      }
    }
  }

  lemma {:induction false} BystanderForLife(w: World, events: seq<Event>, p: int)
    requires Bystander(w, p) && End(p) !in events
    ensures Bystander(Run(w, events), p) && (HasRole(w, p, Released) ==> HasRole(Run(w, events), p, Released))
  {
    if events != [] {
      var init, e := events[..|events| - 1], events[|events| - 1];
      assert events == init + [e];
      BystanderForLife(w, init, p);
      StepBystander(Run(w, init), e, p);
    }
  }

  /** From joining to its end, through releases and whatever others do to the seat, a joiner never changes the file. */
  lemma JoinerNeverWrites(w: World, events: seq<Event>, p: int, i: nat)
    requires Reached(w) && HasRole(w, p, Joined) && End(p) !in events
    requires i < |events| && events[i].pid == p
    ensures Run(w, events[..i + 1]).lock == Run(w, events[..i]).lock
  {
    ReachedNamed(w);
    assert events[..i + 1][..i] == events[..i];
    BystanderForLife(w, events[..i], p);
    StepBystander(Run(w, events[..i]), events[i], p);
  }

  /** Once clean, a released process stays clean whatever the others do: its own pid cannot come back into the file. */
  lemma ReleasedStaysClean(w: World, events: seq<Event>, p: int)
    requires HasRole(w, p, Released) && !Names(w.lock, p) && End(p) !in events
    ensures HasRole(Run(w, events), p, Released) && !Names(Run(w, events).lock, p)
  {
    BystanderForLife(w, events, p);
  }

  /** After both halves of a release, a replacement gets the seat while the old process still lives. */
  lemma ReplacementSeated(w: World, p: int, q: int)
    requires Reached(w) && HasRole(w, p, Owner) && HasRole(w, q, Idle)
    ensures var c := w.procs[q].config;
            var after := Step(Step(Step(w, ReleaseRead(p)), Unlink(p, true)), Claim(q));
            && HasRole(after, p, Released)
            && (HasRole(after, q, Owner) <==> !(c.strict && c.usingDefault))
            && (HasRole(after, q, Owner) ==> after.lock == Held(q, c.handle))
  {
    ReachedNamed(w);
    assert Holder(w, p);
    assert Step(w, ReleaseRead(p)) == WithRole(w, p, Unlinking);
    assert Step(Step(w, ReleaseRead(p)), Unlink(p, true)).lock == Absent;
  }

  lemma StepExplicit(w: World, e: Event)
    requires Explicit(w)
    ensures Explicit(Step(w, e))
  {
    var v := Step(w, e);
    forall p | Signs(v, p)
      ensures v.procs[p].config.usingDefault ==> !v.procs[p].config.strict
      ensures HasRole(v, p, Joined) ==> v.procs[p].config.shared && !v.procs[p].config.usingDefault
    {
      assert Signs(w, p) || e == Claim(p);
    }
  }

  lemma {:induction false} RunExplicit(w: World, events: seq<Event>)
    requires Initial(w)
    ensures Explicit(Run(w, events))
  {
    if events != [] {
      RunExplicit(w, events[..|events| - 1]);
      StepExplicit(Run(w, events[..|events| - 1]), events[|events| - 1]);
    }
  }

  // ---- one handle per key -------------------------------------------------------------

  ghost predicate OneHandle(w: World) {
    forall p, q :: Signs(w, p) && Signs(w, q) ==> w.procs[p].config.handle == w.procs[q].config.handle
  }

  /** Whoever joins has the handle of the live owner, if there is one. */
  lemma JoinerMatchesOwner(w: World, p: int, o: int)
    requires Reached(w) && HasRole(w, o, Owner)
    requires HasRole(w, p, Idle) && HasRole(Step(w, Claim(p)), p, Joined)
    ensures w.procs[p].config.handle == w.procs[o].config.handle
  {
    ReachedNamed(w);
    assert Holder(w, o);
  }

  /** Server `p` begins to sign although a live joiner, left behind by its own owner, has another handle. */
  ghost predicate Clashes(w: World, e: Event) {
    && e.Claim? && HasRole(w, e.pid, Idle)
    && Decide(w.lock, e.pid, w.procs[e.pid].config, Live(w)) in {Takes, Joins}
    && exists j :: HasRole(w, j, Joined) && w.procs[j].config.handle != w.procs[e.pid].config.handle
  }

  /**
   * The signers of a key agree on its handle until, and only until, a process begins to sign past a
   * joiner that outlived its owner with another handle.
   */
  lemma HandlesAgree(w: World, e: Event)
    requires Reached(w) && OneHandle(w)
    ensures OneHandle(Step(w, e)) <==> !Clashes(w, e)
  {
    ReachedNamed(w);
    StepAgrees(w, e);
  }

  lemma StepAgrees(w: World, e: Event)
    requires Named(w) && OneHandle(w)
    ensures OneHandle(Step(w, e)) <==> !Clashes(w, e)
  {
    var v := Step(w, e);
    if Clashes(w, e) {
      var j :| HasRole(w, j, Joined) && w.procs[j].config.handle != w.procs[e.pid].config.handle;
      assert Signs(v, j) && Signs(v, e.pid);
    } else {
      forall p, q | Signs(v, p) && Signs(v, q) ensures v.procs[p].config.handle == v.procs[q].config.handle {
        SignerBefore(w, e, p);
        SignerBefore(w, e, q);
      }
    }
  }

  /** A signer after a step signed before it, or has just begun, with the handle of all who sign. */
  lemma SignerBefore(w: World, e: Event, p: int)
    requires Named(w) && OneHandle(w) && !Clashes(w, e) && Signs(Step(w, e), p)
    ensures p in w.procs && Step(w, e).procs[p].config == w.procs[p].config
    ensures Signs(w, p) || e == Claim(p)
    ensures e == Claim(p) && !Signs(w, p)
            ==> forall q :: Signs(w, q) ==> w.procs[q].config.handle == w.procs[p].config.handle
  {
    if e == Claim(p) && !Signs(w, p) {
      forall q | Signs(w, q) ensures w.procs[q].config.handle == w.procs[p].config.handle {
        if HasRole(w, q, Owner) { assert Holder(w, q) && q in Live(w); }
      }
    }
  }

  /** It does happen: an owner leaves, its joiner stays, and a seat with another handle takes the key. */
  lemma OrphanedJoinerExample()
    ensures var aster := Config(Some("Aster"), false, true, false);
            var orion := Config(Some("Orion"), false, false, false);
            var behind := Step(Step(Step(Step(World(Absent, map[], {}),
                            Start(1, aster)), Claim(1)), Start(2, aster)), Claim(2));
            var orphaned := Step(Step(behind, End(1)), Start(3, orion));
            OneHandle(orphaned) && Clashes(orphaned, Claim(3))
  {
    var aster, orion := Config(Some("Aster"), false, true, false), Config(Some("Orion"), false, false, false);
    var w1 := Step(Step(World(Absent, map[], {}), Start(1, aster)), Claim(1));
    assert w1 == World(Held(1, Some("Aster")), map[1 := Proc(aster, Owner)], {});
    var w2 := Step(Step(w1, Start(2, aster)), Claim(2));
    assert w2 == World(w1.lock, map[1 := Proc(aster, Owner), 2 := Proc(aster, Joined)], {});
    var w3 := Step(Step(w2, End(1)), Start(3, orion));
    assert w3 == World(w1.lock, map[2 := Proc(aster, Joined), 3 := Proc(orion, Idle)], {});
    assert HasRole(w3, 2, Joined);
  }

  // ---- who gets the seat ---------------------------------------------------------------

  /** The file stands for a claim against this process: it names another process, and that one lives. */
  predicate HeldByAnother(lock: Lock, me: int, live: set<int>) {
    lock.Held? && lock.pid != me && lock.pid > 0 && lock.pid in live
  }

  /** A claim is refused for a strict seat on the default path, takes what no other live process holds, and joins its own handle's seat if told to. */
  lemma ClaimMeans(lock: Lock, me: int, c: Config, live: set<int>)
    ensures var o := Decide(lock, me, c, live);
            && (o == StrictlyRefused <==> c.strict && c.usingDefault)
            && (o == Takes <==> !(c.strict && c.usingDefault) && !HeldByAnother(lock, me, live))
            && (o == Joins <==> !(c.strict && c.usingDefault) && HeldByAnother(lock, me, live)
                                && c.shared && !c.usingDefault && lock.handle == c.handle)
            && (o == Refused <==> !(c.strict && c.usingDefault) && HeldByAnother(lock, me, live)
                                  && !(c.shared && !c.usingDefault && lock.handle == c.handle))
  {
  }

  /** In any reachable world a lock that is absent, malformed or of a process that is gone does not keep anybody from the seat. */
  lemma DeadSeatTaken(w: World, p: int)
    requires Reached(w) && HasRole(w, p, Idle)
    requires w.lock.Absent? || w.lock.Garbage? || w.lock.pid !in Live(w) || w.lock.pid == p
    ensures var c := w.procs[p].config;
            && (HasRole(Step(w, Claim(p)), p, Owner) <==> !(c.strict && c.usingDefault))
            && (HasRole(Step(w, Claim(p)), p, Owner) ==> Step(w, Claim(p)).lock == Held(p, c.handle))
  {
    ClaimMeans(w.lock, p, w.procs[p].config, Live(w));
    hide Reached;
  }

  /** A release ends a joiner's signing, and an owner's at once, whatever becomes of the file. */
  lemma ReleaseEndsSigning(w: World, p: int)
    requires Signs(w, p)
    ensures !Signs(Step(w, ReleaseRead(p)), p) && Step(w, ReleaseRead(p)).lock == w.lock
    ensures HasRole(w, p, Joined) ==> HasRole(Step(w, ReleaseRead(p)), p, Released)
  {
  }
}
