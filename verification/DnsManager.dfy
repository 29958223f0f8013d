/** The CoreDNS process manager as a system of steps: callers of Start and Stop and one watcher
    per process ever started take turns under one mutex, while processes exit when they like.
    `Wait` on a process is taken to return only after that process has exited. */
module DnsManager {
  import opened Text

  type Pid = nat

  datatype Process = Alive | Exited(error: Option<string>)

  /** A watcher goroutine: in `Wait`, past it but without the mutex, or finished. */
  datatype Watcher = Waiting | Woken | Finished

  datatype Call = StartCall | StopCall

  /** Who holds the mutex: nobody; a call waiting for the process it signalled; a call past
      `stopLocked`; a Start whose process runs but is not yet recorded. */
  datatype Mutex =
    | Free
    | Stopping(call: Call, pid: Pid)
    | Stopped(call: Call)
    | Spawned(pid: Pid, listen: string)

  datatype World = World(
    mutex: Mutex, cmd: Option<Pid>, running: bool, lastError: string, listen: string,
    processes: map<Pid, Process>, watchers: map<Pid, Watcher>)

  datatype Event =
    | Lock(call: Call)                  // a call gets the mutex and enters stopLocked
    | Exit(pid: Pid, error: Option<string>)  // a process exits, signalled or not
    | StopReturns                       // stopLocked's Wait returns
    | StopUnlocks                       // Stop returns
    | StartFails(message: string)       // any error return of Start after stopLocked
    | Spawn(pid: Pid, listen: string)   // cmd.Start succeeds
    | StartRecords                      // Start records the process, launches its watcher, returns
    | WatcherWakes(pid: Pid)            // a watcher's Wait returns
    | WatcherActs(pid: Pid)             // it takes the mutex and compares m.cmd with its own

  const INITIAL := World(Free, None, false, "", "", map[], map[])

  function Next(w: World, e: Event): Option<World> {
    match e
    case Lock(call) =>
      if !w.mutex.Free? then None
      else if w.cmd.None? then Some(w.(running := false, mutex := Stopped(call)))
      else Some(w.(mutex := Stopping(call, w.cmd.value)))
    case Exit(pid, error) =>
      if pid !in w.processes || w.processes[pid] != Alive then None
      else Some(w.(processes := w.processes[pid := Exited(error)]))
    case StopReturns =>
      if !w.mutex.Stopping? || w.mutex.pid !in w.processes || w.processes[w.mutex.pid] == Alive then None
      else Some(w.(cmd := None, running := false, mutex := Stopped(w.mutex.call)))
    case StopUnlocks =>
      if w.mutex != Stopped(StopCall) then None else Some(w.(mutex := Free))
    case StartFails(message) =>
      if w.mutex != Stopped(StartCall) then None else Some(w.(lastError := message, mutex := Free))
    case Spawn(pid, listen) =>
      if w.mutex != Stopped(StartCall) || pid in w.processes then None
      else Some(w.(processes := w.processes[pid := Alive], mutex := Spawned(pid, listen)))
    case StartRecords =>
      if !w.mutex.Spawned? then None
      else Some(w.(cmd := Some(w.mutex.pid), running := true, lastError := "", listen := w.mutex.listen,
                   watchers := w.watchers[w.mutex.pid := Waiting], mutex := Free))
    case WatcherWakes(pid) =>
      if pid !in w.watchers || w.watchers[pid] != Waiting || pid !in w.processes || w.processes[pid] == Alive then None
      else Some(w.(watchers := w.watchers[pid := Woken]))
    case WatcherActs(pid) =>
      if !w.mutex.Free? || pid !in w.watchers || w.watchers[pid] != Woken || pid !in w.processes then None
      else
        var done := w.(watchers := w.watchers[pid := Finished]);
        if w.cmd != Some(pid) then Some(done)
        else
          var failed := w.processes[pid].Exited? && w.processes[pid].error.Some?;
          Some(done.(running := false, cmd := None,
                     lastError := if failed then w.processes[pid].error.value else w.lastError))
  }

  /** The manager's fields and the critical sections that change them, each matching one event. */
  class Manager {
    var cmd: Option<Pid>
    var running: bool
    var lastError: string
    var listen: string

    /** The world with this object's fields in it. */
    function Shown(w: World): World
      reads this
    {
      w.(cmd := cmd, running := running, lastError := lastError, listen := listen)
    }

    constructor ()
      ensures Shown(INITIAL) == INITIAL
    {
      cmd, running, lastError, listen := None, false, "", "";
    }

    /** `stopLocked` up to its wait: the process to wait for, if one is recorded. */
    method BeginStop(call: Call, ghost w: World) returns (waitFor: Option<Pid>)
      requires Shown(w) == w && w.mutex.Free?
      modifies this
      ensures Next(w, Lock(call)) ==
              Some(Shown(w).(mutex := if waitFor.Some? then Stopping(call, waitFor.value) else Stopped(call)))
    {
      if cmd.None? {
        running := false;
        return None;
      }
      waitFor := cmd;
    }

    /** The end of `stopLocked`, once the wait has returned. */
    method FinishStop(ghost w: World)
      requires Shown(w) == w && Next(w, StopReturns).Some?
      modifies this
      ensures Next(w, StopReturns) == Some(Shown(w).(mutex := Stopped(w.mutex.call)))
    {
      cmd := None;
      running := false;
    }

    /** An error return of `Start`. */
    method FailStart(message: string, ghost w: World)
      requires Shown(w) == w && w.mutex == Stopped(StartCall)
      modifies this
      ensures Next(w, StartFails(message)) == Some(Shown(w).(mutex := Free))
    {
      lastError := message;
    }

    /** The end of `Start`. */
    method RecordStart(pid: Pid, addr: string, ghost w: World)
      requires Shown(w) == w && w.mutex == Spawned(pid, addr)
      modifies this
      ensures Next(w, StartRecords) == Some(Shown(w).(watchers := w.watchers[pid := Waiting], mutex := Free))
    {
      cmd := Some(pid);
      running := true;
      lastError := "";
      listen := addr;
    }

    /** `watchProcess` after its wait, under the mutex. */
    method Watched(pid: Pid, error: Option<string>, ghost w: World)
      requires Shown(w) == w && Next(w, WatcherActs(pid)).Some? && w.processes[pid] == Exited(error)
      modifies this
      ensures Next(w, WatcherActs(pid)) == Some(Shown(w).(watchers := w.watchers[pid := Finished]))
    {
      if cmd == Some(pid) {
        running := false;
        cmd := None;
        if error.Some? { lastError := error.value; }
      }
    }
  }

  function Run(w: World, es: seq<Event>): Option<World> {
    if es == [] then Some(w)
    else match Run(w, es[..|es| - 1])
      case None => None
      case Some(v) => Next(v, es[|es| - 1])
  }

  predicate IsAlive(w: World, pid: Pid) { pid in w.processes && w.processes[pid] == Alive }

  /** The process the manager answers for: the recorded one, or the one Start has just spawned. */
  predicate Tracked(w: World, pid: Pid) {
    w.cmd == Some(pid) || (w.mutex.Spawned? && w.mutex.pid == pid)
  }

  ghost predicate Sound(w: World) {
    && (forall p :: IsAlive(w, p) ==> Tracked(w, p))
    && (w.running <==> w.cmd.Some?)
    && (w.cmd.Some? ==> w.cmd.value in w.processes && w.cmd.value in w.watchers && w.watchers[w.cmd.value] != Finished)
    && (forall p :: p in w.watchers ==> p in w.processes && (w.watchers[p] != Waiting ==> !IsAlive(w, p)))
    && (match w.mutex
        case Free => true
        case Stopping(_, p) => w.cmd == Some(p)
        case Stopped(_) => w.cmd.None?
        case Spawned(p, _) => w.cmd.None? && p in w.processes && p !in w.watchers)
  }

  lemma SoundStep(w: World, e: Event)
    requires Sound(w) && Next(w, e).Some?
    ensures Sound(Next(w, e).value)
  {
    var v := Next(w, e).value;
    forall p | IsAlive(v, p) ensures Tracked(v, p) {
      if IsAlive(w, p) { assert Tracked(w, p); }
    }
  }

  lemma {:induction false} SoundRun(es: seq<Event>)
    requires Run(INITIAL, es).Some?
    ensures Sound(Run(INITIAL, es).value)
  {
    hide Next, Sound;
    if es == [] {
      InitiallySound();
    } else {
      SoundRun(es[..|es| - 1]);
      SoundStep(Run(INITIAL, es[..|es| - 1]).value, es[|es| - 1]);
    }
  }

  lemma InitiallySound()
    ensures Sound(INITIAL)
  {
  }

  /** In every interleaving at most one process is alive; while the mutex is free it is the
      recorded one, and `running` says exactly whether a process is recorded. */
  lemma AtMostOneProcess(es: seq<Event>, p: Pid, q: Pid)
    requires Run(INITIAL, es).Some?
    ensures var w := Run(INITIAL, es).value;
            && (IsAlive(w, p) && IsAlive(w, q) ==> p == q)
            && (w.mutex.Free? && IsAlive(w, p) ==> w.cmd == Some(p))
            && (w.running <==> w.cmd.Some?)
  {
    hide Next, Run;
    SoundRun(es);
    var w := Run(INITIAL, es).value;
    assert IsAlive(w, p) ==> Tracked(w, p);
    assert IsAlive(w, q) ==> Tracked(w, q);
  }

  /** A step of the watcher of a process that is not recorded (any more). */
  predicate OldWatcher(w: World, e: Event) { e.WatcherActs? && w.cmd != Some(e.pid) }

  /** A run without the steps of old watchers. */
  function WithoutOld(es: seq<Event>): seq<Event> {
    if es == [] then []
    else
      var init, e := es[..|es| - 1], es[|es| - 1];
      if Run(INITIAL, init).Some? && OldWatcher(Run(INITIAL, init).value, e) then WithoutOld(init)
      else WithoutOld(init) + [e]
  }

  /** Worlds that differ at most in watchers of old processes, which one of them has not finished. */
  predicate SameManager(w: World, v: World) {
    && v == w.(watchers := v.watchers)
    && v.watchers.Keys == w.watchers.Keys
    && forall p :: p in w.watchers && v.watchers[p] != w.watchers[p] ==>
         w.watchers[p] == Finished && v.watchers[p] == Woken && w.cmd != Some(p)
  }

  lemma OldWatcherHarmless(w: World, v: World, e: Event)
    requires SameManager(w, v) && OldWatcher(w, e) && Next(w, e).Some?
    ensures SameManager(Next(w, e).value, v)
  {
  }

  lemma SameManagerStep(w: World, v: World, e: Event)
    requires SameManager(w, v) && !OldWatcher(w, e) && Next(w, e).Some?
    ensures Next(v, e).Some? && SameManager(Next(w, e).value, Next(v, e).value)
  {
    hide Next, SameManager, OldWatcher;
    if e.WatcherWakes? || e.WatcherActs? || e.StartRecords? {
      SameWatcherStep(w, v, e);
    } else if e.Exit? || e.Spawn? {
      SameProcessStep(w, v, e);
    } else {
      SameLockStep(w, v, e);
    }
  }

  lemma SameProcessStep(w: World, v: World, e: Event)
    requires SameManager(w, v) && (e.Exit? || e.Spawn?) && Next(w, e).Some?
    ensures Next(v, e).Some? && SameManager(Next(w, e).value, Next(v, e).value)
  {
  }

  lemma SameLockStep(w: World, v: World, e: Event)
    requires SameManager(w, v) && (e.Lock? || e.StopReturns? || e.StopUnlocks? || e.StartFails?) && Next(w, e).Some?
    ensures Next(v, e).Some? && SameManager(Next(w, e).value, Next(v, e).value)
  {
  }

  lemma SameWatcherStep(w: World, v: World, e: Event)
    requires SameManager(w, v) && !OldWatcher(w, e) && Next(w, e).Some?
    requires e.WatcherWakes? || e.WatcherActs? || e.StartRecords?
    ensures Next(v, e).Some? && SameManager(Next(w, e).value, Next(v, e).value)
  {
  }

  /** Old watchers never disturb the manager: leaving all their steps out of a run gives a run
      with the same fields, the same lock and the same processes. */
  lemma {:induction false} OldWatchersNeverDisturb(es: seq<Event>)
    requires Run(INITIAL, es).Some?
    ensures Run(INITIAL, WithoutOld(es)).Some?
    ensures SameManager(Run(INITIAL, es).value, Run(INITIAL, WithoutOld(es)).value)
  {
    hide Next, SameManager;
    if es == [] {
      SameInitially();
    } else {
      var init, e := es[..|es| - 1], es[|es| - 1];
      OldWatchersNeverDisturb(init);
      var w, v := Run(INITIAL, init).value, Run(INITIAL, WithoutOld(init)).value;
      if OldWatcher(w, e) {
        OldWatcherHarmless(w, v, e);
      } else {
        SameManagerStep(w, v, e);
        assert (WithoutOld(init) + [e])[..|WithoutOld(init)|] == WithoutOld(init);
      }
    }
  }

  lemma SameInitially()
    ensures SameManager(INITIAL, INITIAL)
  {
  }

  /** A process loses its record only by exiting: to a watcher of its own, or to a call that has
      waited for its exit. */
  lemma RecordDroppedAfterExit(es: seq<Event>, e: Event, p: Pid)
    requires Run(INITIAL, es).Some? && Next(Run(INITIAL, es).value, e).Some?
    requires Run(INITIAL, es).value.cmd == Some(p) && Next(Run(INITIAL, es).value, e).value.cmd != Some(p)
    ensures (e == WatcherActs(p) || e == StopReturns)
            && !IsAlive(Run(INITIAL, es).value, p) && Next(Run(INITIAL, es).value, e).value.cmd == None
  {
    hide Run;
    SoundRun(es);
  }

  /** When Stop returns nothing is alive. */
  lemma StopLeavesNothing(es: seq<Event>, p: Pid)
    requires Run(INITIAL, es).Some? && Next(Run(INITIAL, es).value, StopUnlocks).Some?
    ensures !IsAlive(Next(Run(INITIAL, es).value, StopUnlocks).value, p)
  {
    hide Run;
    SoundRun(es);
    var w := Run(INITIAL, es).value;
    assert IsAlive(w, p) ==> Tracked(w, p);
  }

  /** No watcher can take a step. */
  ghost predicate WatchersSettled(w: World) {
    forall p :: p in w.watchers ==> Next(w, WatcherWakes(p)).None? && Next(w, WatcherActs(p)).None?
  }

  /** Once the mutex is free and the watchers have caught up, `running` tells the truth: it holds
      exactly when a process is alive, and then that process is the recorded one. */
  lemma SettledStatusIsTrue(es: seq<Event>)
    requires Run(INITIAL, es).Some?
    requires var w := Run(INITIAL, es).value; w.mutex.Free? && WatchersSettled(w)
    ensures var w := Run(INITIAL, es).value;
            && (w.running <==> exists p :: IsAlive(w, p))
            && (w.running ==> w.cmd.Some? && IsAlive(w, w.cmd.value))
  {
    hide Run;
    SoundRun(es);
    var w := Run(INITIAL, es).value;
    if w.running {
      var p := w.cmd.value;
      assert Next(w, WatcherWakes(p)).None? && Next(w, WatcherActs(p)).None?;
      assert IsAlive(w, p);
    }
    if p :| IsAlive(w, p) { assert Tracked(w, p); }
  }

  /** And they can always catch up: if the recorded process has exited while the mutex is free,
      at most two steps of its own watcher clear the record. */
  lemma ExitIsNoticed(es: seq<Event>, p: Pid)
    requires Run(INITIAL, es).Some?
    requires var w := Run(INITIAL, es).value; w.mutex.Free? && w.cmd == Some(p) && !IsAlive(w, p)
    ensures exists more :: |more| <= 2 && Run(INITIAL, es + more).Some?
                           && !Run(INITIAL, es + more).value.running && Run(INITIAL, es + more).value.cmd.None?
  {
    hide Run;
    SoundRun(es);
    var w := Run(INITIAL, es).value;
    var more := if w.watchers[p] == Waiting then [WatcherWakes(p), WatcherActs(p)] else [WatcherActs(p)];
    RunTwo(es, more);
    assert |more| <= 2;
  }

  lemma RunTwo(es: seq<Event>, more: seq<Event>)
    requires 1 <= |more| <= 2 && Run(INITIAL, es).Some?
    ensures Run(INITIAL, es + more) ==
            if |more| == 1 then Next(Run(INITIAL, es).value, more[0])
            else match Next(Run(INITIAL, es).value, more[0]) case None => None case Some(v) => Next(v, more[1])
  {
    hide Next;
    var one := es + [more[0]];
    assert one[..|one| - 1] == es;
    var all := es + more;
    if |more| == 1 {
      assert all == one;
    } else {
      assert all[..|all| - 1] == one;
    }
  }

  /* ---------- what the status shows ---------- */

  /** The error the latest exit of a process came with. */
  function ExitTold(es: seq<Event>, pid: Pid): Option<string> {
    if es == [] then None
    else
      var e := es[|es| - 1];
      if e.Exit? && e.pid == pid then e.error else ExitTold(es[..|es| - 1], pid)
  }

  /** The listening address of the latest process that was started. */
  function SpawnTold(es: seq<Event>): string {
    if es == [] then ""
    else if es[|es| - 1].Spawn? then es[|es| - 1].listen
    else SpawnTold(es[..|es| - 1])
  }

  /** The process on record after a run. */
  function Recorded(es: seq<Event>): Option<Pid> {
    match Run(INITIAL, es) case Some(w) => w.cmd case None => None
  }

  /** The latest thing to tell: the error of a failed start, nothing after a start that went well, and the
      error with which the recorded process ended. */
  function ErrorTold(es: seq<Event>): string {
    if es == [] then ""
    else
      var init, e := es[..|es| - 1], es[|es| - 1];
      match e
      case StartFails(message) => message
      case StartRecords => ""
      case WatcherActs(pid) =>
        if Recorded(init) == Some(pid) && ExitTold(init, pid).Some? then ExitTold(init, pid).value else ErrorTold(init)
      case _ => ErrorTold(init)
  }

  /** The address of the latest start that went well. */
  function ListenTold(es: seq<Event>): string {
    if es == [] then ""
    else if es[|es| - 1].StartRecords? then SpawnTold(es[..|es| - 1])
    else ListenTold(es[..|es| - 1])
  }

  predicate TextsTold(w: World, es: seq<Event>) {
    && w.lastError == ErrorTold(es) && w.listen == ListenTold(es)
    && (w.mutex.Spawned? ==> w.mutex.listen == SpawnTold(es))
  }

  ghost predicate ExitsTold(w: World, es: seq<Event>) {
    && (forall p :: p in w.processes && w.processes[p].Exited? ==> w.processes[p].error == ExitTold(es, p))
    && (forall p :: p !in w.processes || w.processes[p] == Alive ==> ExitTold(es, p) == None)
  }

  ghost predicate Told(w: World, es: seq<Event>) { TextsTold(w, es) && ExitsTold(w, es) }

  lemma ToldStep(w: World, es: seq<Event>)
    requires es != [] && Run(INITIAL, es[..|es| - 1]) == Some(w) && Told(w, es[..|es| - 1])
    requires Next(w, es[|es| - 1]).Some?
    ensures Told(Next(w, es[|es| - 1]).value, es)
  {
    hide Run, Next, TextsTold, ExitsTold;
    TextsToldStep(w, es);
    ExitsToldStep(w, es);
  }

  lemma ExitsToldStep(w: World, es: seq<Event>)
    requires es != [] && ExitsTold(w, es[..|es| - 1]) && Next(w, es[|es| - 1]).Some?
    ensures ExitsTold(Next(w, es[|es| - 1]).value, es)
  {
    hide ErrorTold, ListenTold, SpawnTold, Recorded;
    var e := es[|es| - 1];
    forall p ensures ExitTold(es, p) ==
                     if e.Exit? && e.pid == p then e.error else ExitTold(es[..|es| - 1], p) {}
    hide ExitTold;
  }

  lemma TextsToldStep(w: World, es: seq<Event>)
    requires es != [] && Run(INITIAL, es[..|es| - 1]) == Some(w) && Told(w, es[..|es| - 1])
    requires Next(w, es[|es| - 1]).Some?
    ensures TextsTold(Next(w, es[|es| - 1]).value, es)
  {
    hide Run, ExitTold;
    if es[|es| - 1].WatcherActs? { assert Recorded(es[..|es| - 1]) == w.cmd; }
  }

  /** In every run the status shows the latest error and the address of the latest start. */
  lemma {:induction false} StatusTold(es: seq<Event>)
    requires Run(INITIAL, es).Some?
    ensures Told(Run(INITIAL, es).value, es)
  {
    hide Next, Told;
    if es == [] {
      NothingTold();
    } else {
      StatusTold(es[..|es| - 1]);
      ToldStep(Run(INITIAL, es[..|es| - 1]).value, es);
    }
  }

  lemma NothingTold()
    ensures Told(INITIAL, [])
  {
  }
}
