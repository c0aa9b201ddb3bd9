module Handoff {

  /**
   The update handoff between the running desktop app (the launcher) and its replacement: files request, ready and
   proceed in a private directory, polled by several processes.  Every read, write, move, time-out, signal and exit is a
   step of its own, and each process may be overtaken between any two of them.

   Any number of processes may acknowledge the handoff, each under its own process id; the launcher has started one of
   them.  Others who do not know the token may write what they like into ready.json and proceed.json at any time.
   */

  import opened Common

  /** The content of ready.json and of proceed.json. */
  datatype Ready = Ready(token: nat, pid: nat)

  datatype Error = Cancelled | ChildClosed | BadResponse | WriteFailed | StartFailed | DeleteFailed | Uncertain

  /** Where LaunchAsync stands; `Cleanup` and `Waiting` are in its finally block with started == false. */
  datatype Launcher =
    | Idle
    | Requested
    | Polling
    | Confirming(ready: Ready)
    | Accepted(ready: Ready)
    | ProceedReady(ready: Ready)
    | Cleanup(cause: Error)
    | Waiting(cause: Error)
    | Gone(cause: Error)
    | Launched
    | LaunchFailed(error: Error)

  /** Where AcknowledgeAsync stands in one process. */
  datatype Child =
    | NotStarted
    | Started
    | RequestRead(token: nat)
    | ReadyWritten(token: nat)
    | AwaitingProceed(token: nat)
    | ProceedSeen(token: nat)
    | Confirmed(token: nat)
    | Completed
    | Exited(completed: bool)

  datatype Files = Files(present: bool, request: Option<nat>, ready: Option<Ready>, proceed: Option<Ready>)

  const NO_FILES := Files(false, None, None, None)

  /** `token` is the launcher's, `pid` the id of the process it starts. */
  datatype State = State(token: nat, pid: nat, launcher: Launcher, processes: map<nat, Child>, files: Files)

  function Initial(token: nat, pid: nat): State { State(token, pid, Idle, map[], NO_FILES) }

  function At(s: State, p: nat): Child { if p in s.processes then s.processes[p] else NotStarted }

  function Moved(s: State, p: nat, c: Child): State { s.(processes := s.processes[p := c]) }

  datatype Step =
    // LaunchAsync
    | WriteRequest | RequestFails | StartProcess | StartFails
    | GiveUp | SeeExit | SeeReady | RejectReady | AcceptReady | RefuseReady
    | WriteProceed | ProceedFails | MoveProceed | MoveFails
    | ProcessGone | SendTerm | TermFails | WaitTimesOut | DeleteDirectory | DeleteFails
    // AcknowledgeAsync in process p
    | ReadRequest(p: nat) | WriteReady(p: nat) | MoveReady(p: nat)
    | SeeProceed(p: nat) | ReadProceed(p: nat) | RemoveDirectory(p: nat) | ProcessExits(p: nat)
    // everybody else
    | OtherStarts(p: nat) | PlaceReady(content: Option<Ready>) | PlaceProceed(content: Option<Ready>)

  predicate Alive(c: Child) { !c.NotStarted? && !c.Exited? }

  predicate Foreign(s: State, content: Option<Ready>) { content.Some? ==> content.value.token != s.token }

  /** A move does not overwrite. */
  predicate Enabled(s: State, step: Step) {
    match step
    case WriteRequest => s.launcher.Idle?
    case RequestFails => s.launcher.Idle?
    case StartProcess => s.launcher.Requested?
    case StartFails => s.launcher.Requested?
    case GiveUp => s.launcher.Polling?
    case SeeExit => s.launcher.Polling? && !Alive(At(s, s.pid))
    case SeeReady => s.launcher.Polling? && s.files.ready.Some?
    case RejectReady => s.launcher.Polling? && s.files.ready.Some?
    case AcceptReady => s.launcher.Confirming? && s.launcher.ready.token == s.token && s.launcher.ready.pid == s.pid
    case RefuseReady => s.launcher.Confirming? && (s.launcher.ready.token != s.token || s.launcher.ready.pid != s.pid)
    case WriteProceed => s.launcher.Accepted?
    case ProceedFails => s.launcher.Accepted?
    case MoveProceed => s.launcher.ProceedReady? && s.files.present && s.files.proceed.None?
    case MoveFails => s.launcher.ProceedReady?
    case ProcessGone => (s.launcher.Cleanup? || s.launcher.Waiting?) && !Alive(At(s, s.pid))
    case SendTerm => s.launcher.Cleanup? && Alive(At(s, s.pid))
    case TermFails => s.launcher.Cleanup? && Alive(At(s, s.pid))
    case WaitTimesOut => s.launcher.Waiting? && Alive(At(s, s.pid))
    case DeleteDirectory => s.launcher.Gone?
    case DeleteFails => s.launcher.Gone?
    case ReadRequest(p) => At(s, p).Started? && s.files.request.Some?
    case WriteReady(p) => At(s, p).RequestRead? && s.files.present
    case MoveReady(p) => At(s, p).ReadyWritten? && s.files.present && s.files.ready.None?
    case SeeProceed(p) => At(s, p).AwaitingProceed? && s.files.proceed.Some?
    case ReadProceed(p) =>
      && At(s, p).ProceedSeen? && s.files.proceed.Some?
      && s.files.proceed.value.token == At(s, p).token && s.files.proceed.value.pid == p
    case RemoveDirectory(p) => At(s, p).Confirmed?
    case ProcessExits(p) => Alive(At(s, p))
    case OtherStarts(p) => p != s.pid && At(s, p).NotStarted?
    case PlaceReady(content) => s.files.present && Foreign(s, content)
    case PlaceProceed(content) => s.files.present && Foreign(s, content)
  }

  /** Any failure in a process, its own time-out and a signal all show as `ProcessExits`. */
  function Next(s: State, step: Step): State
    requires Enabled(s, step)
  {
    match step
    case WriteRequest => s.(launcher := Requested, files := Files(true, Some(s.token), None, None))
    case RequestFails => s.(launcher := LaunchFailed(WriteFailed))
    case StartProcess => Moved(s, s.pid, Started).(launcher := Polling)
    case StartFails => s.(launcher := Cleanup(StartFailed))
    case GiveUp => s.(launcher := Cleanup(Cancelled))
    case SeeExit => s.(launcher := Cleanup(ChildClosed))
    case SeeReady => s.(launcher := Confirming(s.files.ready.value))
    case RejectReady => s.(launcher := Cleanup(BadResponse))
    case AcceptReady => s.(launcher := Accepted(s.launcher.ready))
    case RefuseReady => s.(launcher := Cleanup(BadResponse))
    case WriteProceed => s.(launcher := ProceedReady(s.launcher.ready))
    case ProceedFails => s.(launcher := Cleanup(WriteFailed))
    case MoveProceed => s.(launcher := Launched, files := s.files.(proceed := Some(s.launcher.ready)))
    case MoveFails => s.(launcher := Cleanup(WriteFailed))
    case ProcessGone => s.(launcher := Gone(s.launcher.cause))
    case SendTerm => s.(launcher := Waiting(s.launcher.cause))
    case TermFails => s.(launcher := LaunchFailed(Uncertain))
    case WaitTimesOut => s.(launcher := LaunchFailed(Uncertain))
    case DeleteDirectory => s.(launcher := LaunchFailed(s.launcher.cause), files := NO_FILES)
    case DeleteFails => s.(launcher := LaunchFailed(DeleteFailed))
    case ReadRequest(p) => Moved(s, p, RequestRead(s.files.request.value))
    case WriteReady(p) => Moved(s, p, ReadyWritten(At(s, p).token))
    case MoveReady(p) =>
      Moved(s, p, AwaitingProceed(At(s, p).token)).(files := s.files.(ready := Some(Ready(At(s, p).token, p))))
    case SeeProceed(p) => Moved(s, p, ProceedSeen(At(s, p).token))
    case ReadProceed(p) => Moved(s, p, Confirmed(At(s, p).token))
    case RemoveDirectory(p) => Moved(s, p, Completed).(files := NO_FILES)
    case ProcessExits(p) => Moved(s, p, Exited(At(s, p).Completed?))
    case OtherStarts(p) => Moved(s, p, Started)
    case PlaceReady(content) => s.(files := s.files.(ready := content))
    case PlaceProceed(content) => s.(files := s.files.(proceed := content))
  }

  // ----- what every step keeps

  /** The process has accepted the launcher's permission, or has acted on it. */
  predicate PastPermission(c: Child) { c.Confirmed? || c.Completed? || c == Exited(true) }

  /** LaunchAsync is still inside its try block, with the directory in place. */
  predicate InTry(l: Launcher) { l.Requested? || l.Polling? || l.Confirming? || l.Accepted? || l.ProceedReady? }

  predicate BeforeStart(l: Launcher) { l.Idle? || l.Requested? }

  /** The launcher has given up, and knows that the process it started is not running. */
  predicate NoChildLeft(l: Launcher) { l.Gone? || (l.LaunchFailed? && l.error != Uncertain) }

  predicate HasToken(c: Child, token: nat) {
    (c.RequestRead? || c.ReadyWritten? || c.AwaitingProceed? || c.ProceedSeen? || c.Confirmed?) ==> c.token == token
  }

  /** A proceed.json that bears the token is the launcher's own. */
  predicate FilesOk(s: State) {
    && (s.files.request.Some? ==> s.files.request.value == s.token)
    && (s.files.proceed.Some? && s.files.proceed.value.token == s.token ==>
          s.files.proceed.value.pid == s.pid && s.launcher.Launched?)
    && (InTry(s.launcher) ==> s.files.present)
  }

  predicate LauncherOk(s: State) {
    && (s.launcher.Accepted? || s.launcher.ProceedReady? ==> s.launcher.ready == Ready(s.token, s.pid))
    && (BeforeStart(s.launcher) ==> At(s, s.pid).NotStarted?)
    && (NoChildLeft(s.launcher) ==> !Alive(At(s, s.pid)))
    && (s.launcher.Cleanup? || s.launcher.Waiting? || s.launcher.Gone? ==> s.launcher.cause != Uncertain)
  }

  ghost predicate ProcessesOk(s: State) {
    forall p :: HasToken(At(s, p), s.token) && (PastPermission(At(s, p)) ==> p == s.pid && s.launcher.Launched?)
  }

  ghost predicate Inv(s: State) { FilesOk(s) && LauncherOk(s) && ProcessesOk(s) }

  lemma InitialOk(token: nat, pid: nat)
    ensures Inv(Initial(token, pid))
  {
  }

  lemma StepKeeps(s: State, step: Step)
    requires Inv(s) && Enabled(s, step)
    ensures Inv(Next(s, step))
  {
    var s' := Next(s, step);
    forall p
      ensures HasToken(At(s', p), s'.token) && (PastPermission(At(s', p)) ==> p == s'.pid && s'.launcher.Launched?)
    {
      assert HasToken(At(s, p), s.token) && (PastPermission(At(s, p)) ==> p == s.pid && s.launcher.Launched?);
    }
  }

  /** Once the started process is known to be gone, it does not come back. */
  lemma StaysGone(s: State, step: Step)
    requires Inv(s) && Enabled(s, step) && NoChildLeft(s.launcher)
    ensures NoChildLeft(Next(s, step).launcher) && At(Next(s, step), s.pid) == At(s, s.pid)
  {
  }

  // ----- whole runs

  ghost predicate Run(s: State, steps: seq<Step>)
    decreases |steps|
  {
    steps == [] || (Enabled(s, steps[0]) && Run(Next(s, steps[0]), steps[1..]))
  }

  ghost function After(s: State, steps: seq<Step>): State
    requires Run(s, steps)
    decreases |steps|
  {
    if steps == [] then s else After(Next(s, steps[0]), steps[1..])
  }

  lemma {:induction false} InvAlways(s: State, steps: seq<Step>)
    requires Inv(s) && Run(s, steps)
    ensures Inv(After(s, steps))
    decreases |steps|
  {
    if steps != [] {
      StepKeeps(s, steps[0]);
      InvAlways(Next(s, steps[0]), steps[1..]);
    }
  }

  lemma {:induction false} RunSplit(s: State, a: seq<Step>, b: seq<Step>)
    requires Run(s, a + b)
    ensures Run(s, a) && Run(After(s, a), b) && After(s, a + b) == After(After(s, a), b)
    decreases |a|
  {
    if a == [] {
      assert a + b == b;
    } else {
      assert (a + b)[1..] == a[1..] + b;
      RunSplit(Next(s, a[0]), a[1..], b);
    }
  }

  /** The step at which the launcher gives permission. */
  lemma {:induction false} FirstLaunch(s: State, steps: seq<Step>) returns (i: nat)
    requires Run(s, steps) && !s.launcher.Launched? && After(s, steps).launcher.Launched?
    ensures i < |steps| && steps[i] == MoveProceed && Run(s, steps[..i])
    ensures !After(s, steps[..i]).launcher.Launched? && Enabled(After(s, steps[..i]), MoveProceed)
    decreases |steps|
  {
    var s' := Next(s, steps[0]);
    if s'.launcher.Launched? {
      i := 0;
    } else {
      var j := FirstLaunch(s', steps[1..]);
      i := j + 1;
      assert steps[..i][1..] == steps[1..][..j];
    }
  }

  /**
   A process gets past waiting only if it is the one the launcher started, and only after the launcher has moved into
   place a proceed.json that bears this handoff's token and that process's id.  No process was past waiting before.
   */
  lemma {:induction false} CompletesOnlyWithPermission(token: nat, pid: nat, steps: seq<Step>, p: nat) returns (i: nat)
    requires Run(Initial(token, pid), steps) && PastPermission(At(After(Initial(token, pid), steps), p))
    ensures p == pid
    ensures i < |steps| && steps[i] == MoveProceed && Run(Initial(token, pid), steps[..i])
    ensures var s := After(Initial(token, pid), steps[..i]);
            && Enabled(s, MoveProceed) && Next(s, MoveProceed).files.proceed == Some(Ready(token, p))
            && forall q :: !PastPermission(At(s, q))
  {
    var s0 := Initial(token, pid);
    InitialOk(token, pid);
    InvAlways(s0, steps);
    TokenFixed(s0, steps);
    assert HasToken(At(After(s0, steps), p), token);
    i := FirstLaunch(s0, steps);
    InvAlways(s0, steps[..i]);
    TokenFixed(s0, steps[..i]);
    forall q ensures !PastPermission(At(After(s0, steps[..i]), q)) {
      assert HasToken(At(After(s0, steps[..i]), q), token);
    }
  }

  lemma {:induction false} TokenFixed(s: State, steps: seq<Step>)
    requires Run(s, steps)
    ensures After(s, steps).token == s.token && After(s, steps).pid == s.pid
    decreases |steps|
  {
    if steps != [] { TokenFixed(Next(s, steps[0]), steps[1..]); }
  }

  /**
   An error from LaunchAsync, the uncertain one included, means that no process gets past waiting, now or after any
   continuation.  Unless it is the uncertain one, the started process is also gone for good.
   */
  lemma {:induction false} FailureMeansGone(token: nat, pid: nat, steps: seq<Step>, more: seq<Step>)
    requires Run(Initial(token, pid), steps + more)
    requires Run(Initial(token, pid), steps) && After(Initial(token, pid), steps).launcher.LaunchFailed?
    ensures var s := After(Initial(token, pid), steps + more);
            && (forall p :: !PastPermission(At(s, p)))
            && (After(Initial(token, pid), steps).launcher.error != Uncertain ==>
                  At(s, pid) == NotStarted || At(s, pid) == Exited(false))
  {
    var s0 := Initial(token, pid);
    RunSplit(s0, steps, more);
    InitialOk(token, pid);
    InvAlways(s0, steps);
    TokenFixed(s0, steps);
    var s := After(s0, steps);
    InvAlways(s, more);
    StaysFailed(s, more);
    forall p ensures !PastPermission(At(After(s, more), p)) {
      assert HasToken(At(After(s, more), p), After(s, more).token);
    }
    if s.launcher.error != Uncertain { GoneForever(s, more); }
  }

  lemma {:induction false} StaysFailed(s: State, steps: seq<Step>)
    requires Run(s, steps) && s.launcher.LaunchFailed?
    ensures After(s, steps).launcher == s.launcher
    decreases |steps|
  {
    if steps != [] { StaysFailed(Next(s, steps[0]), steps[1..]); }
  }

  lemma {:induction false} GoneForever(s: State, steps: seq<Step>)
    requires Inv(s) && Run(s, steps) && NoChildLeft(s.launcher)
    ensures At(After(s, steps), s.pid) == At(s, s.pid)
    decreases |steps|
  {
    if steps != [] {
      StepKeeps(s, steps[0]);
      StaysGone(s, steps[0]);
      GoneForever(Next(s, steps[0]), steps[1..]);
    }
  }

  /** The launcher never gets stuck: until it returns or throws, it has a step of its own. */
  predicate Finished(l: Launcher) { l.Launched? || l.LaunchFailed? }

  lemma LauncherCanMove(s: State) returns (step: Step)
    requires Inv(s) && !Finished(s.launcher)
    ensures Enabled(s, step) && Next(s, step).launcher != s.launcher
  {
    match s.launcher
    case Idle => step := WriteRequest;
    case Requested => step := StartProcess;
    case Polling => step := GiveUp;
    case Confirming(r) => step := if r == Ready(s.token, s.pid) then AcceptReady else RefuseReady;
    case Accepted(_) => step := WriteProceed;
    case ProceedReady(_) => step := if s.files.proceed.None? then MoveProceed else MoveFails;
    case Cleanup(_) => step := if Alive(At(s, s.pid)) then SendTerm else ProcessGone;
    case Waiting(_) => step := if Alive(At(s, s.pid)) then WaitTimesOut else ProcessGone;
    case Gone(_) => step := DeleteDirectory;
  }

  /** How far the launcher still has to go; every step of its own brings it closer to the end. */
  function Rank(l: Launcher): nat {
    match l
    case Idle => 9
    case Requested => 8
    case Polling => 7
    case Confirming(_) => 6
    case Accepted(_) => 5
    case ProceedReady(_) => 4
    case Cleanup(_) => 3
    case Waiting(_) => 2
    case Gone(_) => 1
    case Launched => 0
    case LaunchFailed(_) => 0
  }

  lemma LauncherAdvances(s: State, step: Step)
    requires Inv(s) && Enabled(s, step)
    ensures Rank(Next(s, step).launcher) <= Rank(s.launcher)
    ensures Next(s, step).launcher != s.launcher ==> Rank(Next(s, step).launcher) < Rank(s.launcher)
  {
  }

  lemma Prepend(s: State, step: Step, rest: seq<Step>) returns (steps: seq<Step>)
    requires Enabled(s, step) && Run(Next(s, step), rest)
    ensures steps == [step] + rest && Run(s, steps) && After(s, steps) == After(Next(s, step), rest)
  {
    steps := [step] + rest;
    assert steps[1..] == rest;
  }

  /** Process p has answered and waits; the launcher has started its own process. */
  function Answered(token: nat, pid: nat, p: nat): State {
    State(token, pid, Polling, map[pid := Started][p := AwaitingProceed(token)],
          Files(true, Some(token), Some(Ready(token, p)), None))
  }

  /** Process p runs; the launcher has started its own process. */
  function Running(token: nat, pid: nat, p: nat): State {
    State(token, pid, Polling, map[pid := Started][p := Started], Files(true, Some(token), None, None))
  }

  lemma ProcessRuns(token: nat, pid: nat, p: nat, rest: seq<Step>) returns (steps: seq<Step>)
    requires Run(Running(token, pid, p), rest)
    ensures Run(Initial(token, pid), steps) && After(Initial(token, pid), steps) == After(Running(token, pid, p), rest)
  {
    var s0 := Initial(token, pid);
    var s1 := Next(s0, WriteRequest);
    var s2 := Next(s1, StartProcess);
    steps := rest;
    if p != pid {
      assert Next(s2, OtherStarts(p)) == Running(token, pid, p);
      steps := Prepend(s2, OtherStarts(p), steps);
    } else {
      assert s2 == Running(token, pid, p);
    }
    steps := Prepend(s1, StartProcess, steps);
    steps := Prepend(s0, WriteRequest, steps);
  }

  /** The started process answers, or another one that was given the same directory. */
  lemma FirstHalf(token: nat, pid: nat, p: nat, rest: seq<Step>) returns (steps: seq<Step>)
    requires Run(Answered(token, pid, p), rest)
    ensures Run(Initial(token, pid), steps) && After(Initial(token, pid), steps) == After(Answered(token, pid, p), rest)
  {
    var s0 := Running(token, pid, p);
    var s1 := Next(s0, ReadRequest(p));
    var s2 := Next(s1, WriteReady(p));
    var s3 := Next(s2, MoveReady(p));
    assert s3 == Answered(token, pid, p);
    steps := Prepend(s2, MoveReady(p), rest);
    steps := Prepend(s1, WriteReady(p), steps);
    steps := Prepend(s0, ReadRequest(p), steps);
    steps := ProcessRuns(token, pid, p, steps);
  }

  /** The launcher has given permission to the process it started. */
  function Permitted(token: nat, pid: nat): State {
    State(token, pid, Launched, map[pid := AwaitingProceed(token)],
          Files(true, Some(token), Some(Ready(token, pid)), Some(Ready(token, pid))))
  }

  lemma PermissionUsed(token: nat, pid: nat) returns (steps: seq<Step>)
    ensures Run(Permitted(token, pid), steps)
    ensures After(Permitted(token, pid), steps) == State(token, pid, Launched, map[pid := Completed], NO_FILES)
  {
    var s0 := Permitted(token, pid);
    var s1 := Next(s0, SeeProceed(pid));
    var s2 := Next(s1, ReadProceed(pid));
    assert Next(s2, RemoveDirectory(pid)).processes == map[pid := Completed];
    steps := [];
    steps := Prepend(s2, RemoveDirectory(pid), steps);
    steps := Prepend(s1, ReadProceed(pid), steps);
    steps := Prepend(s0, SeeProceed(pid), steps);
  }

  lemma SecondHalf(token: nat, pid: nat) returns (steps: seq<Step>)
    ensures Run(Answered(token, pid, pid), steps)
    ensures After(Answered(token, pid, pid), steps) == State(token, pid, Launched, map[pid := Completed], NO_FILES)
  {
    var s0 := Answered(token, pid, pid);
    var s1 := Next(s0, SeeReady);
    var s2 := Next(s1, AcceptReady);
    var s3 := Next(s2, WriteProceed);
    assert Next(s3, MoveProceed).processes == map[pid := AwaitingProceed(token)];
    steps := PermissionUsed(token, pid);
    steps := Prepend(s3, MoveProceed, steps);
    steps := Prepend(s2, WriteProceed, steps);
    steps := Prepend(s1, AcceptReady, steps);
    steps := Prepend(s0, SeeReady, steps);
  }

  /** A handoff without failures completes. */
  lemma GoodRun(token: nat, pid: nat) returns (steps: seq<Step>)
    ensures Run(Initial(token, pid), steps)
    ensures After(Initial(token, pid), steps) == State(token, pid, Launched, map[pid := Completed], NO_FILES)
  {
    steps := SecondHalf(token, pid);
    steps := FirstHalf(token, pid, pid, steps);
  }

  /** The identity check is needed: another process that knows the token can answer first, and is refused. */
  lemma WrongProcessIsRefused(token: nat, pid: nat, p: nat) returns (steps: seq<Step>)
    requires p != pid
    ensures Run(Initial(token, pid), steps)
    ensures var s := After(Initial(token, pid), steps);
            s.launcher == Confirming(Ready(token, p)) && Enabled(s, RefuseReady) && !Enabled(s, AcceptReady)
  {
    steps := [];
    steps := Prepend(Answered(token, pid, p), SeeReady, steps);
    steps := FirstHalf(token, pid, p, steps);
  }

  // ----- activation and rollback

  type Bytes = seq<nat>

  /** How an atomic write can end: done, failed with the old file in place, or failed after its move. */
  datatype Write = Done | FailedBefore | FailedAfter

  /** What happens around the launch during one activation. */
  datatype Course = Course(cancelled: bool, icon: Write, launcher: Write, restoreLauncher: Write, restoreIcon: Write)

  /** Everything up to the launch succeeds. */
  predicate Installed(c: Course) { !c.cancelled && c.icon.Done? && c.launcher.Done? }

  /** The desktop entry is the new one in the end: its write failed after the move, or was not undone. */
  predicate EntryReplaced(c: Course, launch: Launcher) {
    && !c.cancelled && c.icon.Done?
    && (c.launcher.FailedAfter? || (c.launcher.Done? && (launch.Launched? || c.restoreLauncher.FailedBefore?)))
  }

  /** The icon is the new one in the end; an exception while the desktop entry is restored also leaves the icon. */
  predicate IconReplaced(c: Course, launch: Launcher) {
    && !c.cancelled
    && (|| c.icon.FailedAfter?
        || (c.icon.Done? && Installed(c) && launch.Launched?)
        || (c.icon.Done? && c.launcher.Done? && !c.restoreLauncher.Done?)
        || (c.icon.Done? && c.restoreIcon.FailedBefore?))
  }

  /** The desktop entry and its icon; None stands for no file. */
  class Desktop {
    var launcher: Option<Bytes>
    var icon: Option<Bytes>

    /** The try block and the catch block of ActivateAndLaunchAsync; `launch` is where LaunchAsync ends. */
    method Activate(entry: Bytes, iconBytes: Bytes, c: Course, launch: Launcher) returns (ok: bool)
      requires Finished(launch)
      modifies this
      ensures ok <==> Installed(c) && launch.Launched?
      ensures launcher == if EntryReplaced(c, launch) then Some(entry) else old(launcher)
      ensures icon == if IconReplaced(c, launch) then Some(iconBytes) else old(icon)
    {
      var previousLauncher, previousIcon := launcher, icon;
      var wroteIcon, wroteLauncher := false, false;
      ok := !c.cancelled;
      if ok {
        if !c.icon.FailedBefore? { icon := Some(iconBytes); }
        wroteIcon := c.icon.Done?;
        ok := wroteIcon;
      }
      if ok {
        if !c.launcher.FailedBefore? { launcher := Some(entry); }
        wroteLauncher := c.launcher.Done?;
        ok := wroteLauncher;
      }
      if ok { ok := launch.Launched?; }
      if !ok {
        if wroteLauncher {
          if !c.restoreLauncher.FailedBefore? { launcher := previousLauncher; }
          if !c.restoreLauncher.Done? { return; }
        }
        if wroteIcon {
          if !c.restoreIcon.FailedBefore? { icon := previousIcon; }
        }
      }
    }
  }

  /** No write failed after its move, and no restore that was needed failed. */
  predicate CleanCourse(c: Course) {
    || c.cancelled || c.icon.FailedBefore?
    || (c.icon.Done? && c.launcher.FailedBefore? && !c.restoreIcon.FailedBefore?)
    || (c.icon.Done? && c.launcher.Done? && c.restoreLauncher.Done? && !c.restoreIcon.FailedBefore?)
  }

  /** A failed activation leaves both files as they were exactly on a clean course. */
  lemma RolledBackExactly(c: Course, launch: Launcher)
    requires Finished(launch) && !(Installed(c) && launch.Launched?)
    ensures !EntryReplaced(c, launch) && !IconReplaced(c, launch) <==> CleanCourse(c)
  {
  }

  /** Courses that leave the new icon beside the old desktop entry, although the activation failed. */
  lemma HalfRolledBack(error: Error)
    ensures var late := Course(false, FailedAfter, Done, Done, Done);
            !EntryReplaced(late, LaunchFailed(error)) && IconReplaced(late, LaunchFailed(error))
    ensures var thrown := Course(false, Done, Done, FailedAfter, Done);
            !EntryReplaced(thrown, LaunchFailed(error)) && IconReplaced(thrown, LaunchFailed(error))
  {
  }

  /**
   Update and handoff together: on a clean course on which the files were written, the new files stay if and only if
   the launcher gave permission; otherwise the old files are back and no process ever gets past waiting.
   */
  lemma UpdateIsAllOrNothing(token: nat, pid: nat, steps: seq<Step>, more: seq<Step>, c: Course)
    requires Run(Initial(token, pid), steps) && Run(Initial(token, pid), steps + more)
    requires Installed(c) && CleanCourse(c) && Finished(After(Initial(token, pid), steps).launcher)
    ensures var launch := After(Initial(token, pid), steps).launcher;
            && EntryReplaced(c, launch) == IconReplaced(c, launch) == launch.Launched?
            && (!launch.Launched? ==> forall p :: !PastPermission(At(After(Initial(token, pid), steps + more), p)))
  {
    if !After(Initial(token, pid), steps).launcher.Launched? {
      FailureMeansGone(token, pid, steps, more);
    }
  }
}
