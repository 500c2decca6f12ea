/**
 The sequencer-state file: write a temporary file, sync it, rename it into place, all under a lock.

 Any number of callers run concurrently. Each system call is a step of its own and may fail. The
 machine may crash between any two steps: data that was not synced is then lost or garbled, and
 renames that the file system has not yet made durable are undone. Nothing syncs the directory, so
 the file system makes renames durable whenever it likes (`Flush`).
 */
module Persistence {
  import opened Prelude

  datatype RunningState = StateUnset | StateStarted | StateStopped

  /** What the JSON decoder makes of a text: an error, or the field's value, which may be missing. */
  type Decoder = string -> Option<Option<bool>>

  function Encode(started: bool): string {
    if started then "{\"sequencerStarted\":true}" else "{\"sequencerStarted\":false}"
  }

  /** The text is a JSON object with the one field. */
  lemma EncodedText(started: bool)
    ensures Encode(started) == "{\"sequencerStarted\":" + (if started then "true}" else "false}")
  {
  }

  /** The decoder reads back what the encoder writes. */
  ghost predicate ReadsBack(decode: Decoder) {
    forall b :: decode(Encode(b)) == Some(Some(b))
  }

  // ---------- the disk ----------

  /** `synced` tells whether the data would survive a crash. */
  datatype File = File(data: string, synced: bool)

  /** The state file and the temporary file as seen by processes, and the state file as it would survive a crash. */
  datatype Disk = Disk(state: Option<File>, tmp: Option<File>, durable: Option<File>)

  function OpenTmp(d: Disk): Disk { d.(tmp := Some(File("", false))) }

  function WriteTmp(d: Disk, data: string): Disk { d.(tmp := Some(File(data, false))) }

  function SyncTmp(d: Disk): Disk {
    match d.tmp
    case None => d
    case Some(f) => d.(tmp := Some(File(f.data, true)))
  }

  function Rename(d: Disk): Disk { d.(state := d.tmp, tmp := None) }

  /** A crash garbles unsynced data into anything. */
  function AfterCrash(d: Disk, garbled: string, tmp: Option<File>): Disk {
    var state := if d.durable.Some? && !d.durable.value.synced then Some(File(garbled, true)) else d.durable;
    Disk(state, tmp, state)
  }

  datatype ReadResult = ReadOk(state: RunningState) | ReadErr

  /** What reading the state file gives, when the read itself succeeds. */
  function ReadState(decode: Decoder, state: Option<File>): ReadResult {
    match state
    case None => ReadOk(StateUnset)
    case Some(f) =>
      match decode(f.data)
      case Some(Some(b)) => ReadOk(if b then StateStarted else StateStopped)
      case _ => ReadErr
  }

  /** Only a missing file reads as unset; text that does not decode and text without the field are errors. */
  lemma ReadMeans(decode: Decoder, state: Option<File>, b: bool)
    ensures ReadState(decode, state) == ReadOk(StateUnset) <==> state.None?
    ensures ReadState(decode, state) == ReadOk(StateOf(Some(b)))
       <==> state.Some? && decode(state.value.data) == Some(Some(b))
    ensures ReadState(decode, state) == ReadErr
       <==> state.Some? && (decode(state.value.data) == None || decode(state.value.data) == Some(None))
  {
  }

  // ---------- callers ----------

  type Pid = nat

  datatype Request = Persist(started: bool) | Read

  datatype Outcome = Wrote(started: bool) | WriteFailed | Saw(state: RunningState) | ReadFailed

  /** How far the holder of the lock has come. */
  datatype Point = Locked | DirMade | Opened | Written | Synced | Closed | Finished(outcome: Outcome)

  datatype Proc = Idle | Waiting(req: Request) | Holding(req: Request, at: Point)

  /**
   `initial` is the value when the machine last started; `log` lists the values renamed into place
   since, of which `flushed` are durable; `done` lists the outcomes that callers were given since.
   */
  datatype System = System(
    disk: Disk,
    lock: Option<Pid>,
    procs: map<Pid, Proc>,
    initial: Option<bool>,
    log: seq<bool>,
    flushed: nat,
    done: seq<Outcome>)

  datatype Step =
    | Invoke(pid: Pid, req: Request)
    | Acquire(pid: Pid)
    | Syscall(pid: Pid)
    | Fault(pid: Pid, partial: string)
    | Release(pid: Pid)
    | Flush
    | Crash(garbled: string, tmp: Option<File>)

  function ProcOf(s: System, p: Pid): Proc {
    if p in s.procs then s.procs[p] else Idle
  }

  function SetProc(s: System, p: Pid, proc: Proc): System { s.(procs := s.procs[p := proc]) }

  /** The next system call of a caller that holds the lock succeeds. */
  function Succeed(decode: Decoder, s: System, p: Pid, req: Request, at: Point): Option<System> {
    match (req, at)
    case (Persist(b), Locked) => Some(SetProc(s, p, Holding(req, DirMade)))
    case (Persist(b), DirMade) => Some(SetProc(s.(disk := OpenTmp(s.disk)), p, Holding(req, Opened)))
    case (Persist(b), Opened) => Some(SetProc(s.(disk := WriteTmp(s.disk, Encode(b))), p, Holding(req, Written)))
    case (Persist(b), Written) => Some(SetProc(s.(disk := SyncTmp(s.disk)), p, Holding(req, Synced)))
    case (Persist(b), Synced) => Some(SetProc(s, p, Holding(req, Closed)))
    case (Persist(b), Closed) =>
      Some(SetProc(s.(disk := Rename(s.disk), log := s.log + [b]), p, Holding(req, Finished(Wrote(b)))))
    case (Read, Locked) =>
      var r := ReadState(decode, s.disk.state);
      Some(SetProc(s, p, Holding(req, Finished(if r.ReadOk? then Saw(r.state) else ReadFailed))))
    case _ => None
  }

  /** The next system call fails. A failed write may have written anything. */
  function Fail(s: System, p: Pid, req: Request, at: Point, partial: string): Option<System> {
    if at.Finished? then None
    else
      var outcome := if req.Read? then ReadFailed else WriteFailed;
      var disk := if at.Opened? then WriteTmp(s.disk, partial) else s.disk;
      Some(SetProc(s.(disk := disk), p, Holding(req, Finished(outcome))))
  }

  /** One step of the system; None when it is not possible. */
  function Do(decode: Decoder, s: System, step: Step): Option<System> {
    match step
    case Invoke(p, req) => if ProcOf(s, p).Idle? then Some(SetProc(s, p, Waiting(req))) else None
    case Acquire(p) =>
      (match ProcOf(s, p)
       case Waiting(req) => if s.lock.None? then Some(SetProc(s.(lock := Some(p)), p, Holding(req, Locked))) else None
       case _ => None)
    case Syscall(p) =>
      (match ProcOf(s, p)
       case Holding(req, at) => Succeed(decode, s, p, req, at)
       case _ => None)
    case Fault(p, partial) =>
      (match ProcOf(s, p)
       case Holding(req, at) => Fail(s, p, req, at, partial)
       case _ => None)
    case Release(p) =>
      (match ProcOf(s, p)
       case Holding(_, Finished(outcome)) => Some(SetProc(s.(lock := None, done := s.done + [outcome]), p, Idle))
       case _ => None)
    case Flush => Some(s.(disk := s.disk.(durable := s.disk.state), flushed := |s.log|))
    case Crash(garbled, tmp) =>
      if s.flushed <= |s.log|
      then Some(System(AfterCrash(s.disk, garbled, tmp), None, map[], Last(s.initial, s.log[..s.flushed]), [], 0, []))
      else None
  }

  function DoAll(decode: Decoder, s: System, steps: seq<Step>): Option<System>
    decreases |steps|
  {
    if steps == [] then Some(s)
    else
      match Do(decode, s, steps[0])
      case None => None
      case Some(t) => DoAll(decode, t, steps[1..])
  }

  // ---------- what every run keeps ----------

  /** The value after the writes in `log`. */
  function Last(initial: Option<bool>, log: seq<bool>): Option<bool> {
    if log == [] then initial else Some(log[|log| - 1])
  }

  function StateOf(v: Option<bool>): RunningState {
    match v
    case None => StateUnset
    case Some(true) => StateStarted
    case Some(false) => StateStopped
  }

  /** The file that a successful write leaves. */
  function NewFile(b: bool): Option<File> {
    Some(File(Encode(b), true))
  }

  /**
   The file holds the value `v` completely and safely: it is missing, or its synced text is one that the
   decoder accepts, whoever wrote it.
   */
  predicate Complete(decode: Decoder, f: Option<File>, v: Option<bool>) {
    match v
    case None => f.None?
    case Some(b) => f.Some? && f.value.synced && decode(f.value.data) == Some(Some(b))
  }

  /** The values written by the completed calls. */
  function Writes(done: seq<Outcome>): seq<bool> {
    if done == [] then []
    else
      var o := done[|done| - 1];
      Writes(done[..|done| - 1]) + (if o.Wrote? then [o.started] else [])
  }

  /** Every completed read saw the last write that completed before it. */
  ghost predicate ReadsSeeLastWrite(initial: Option<bool>, done: seq<Outcome>) {
    forall i :: 0 <= i < |done| && done[i].Saw? ==> done[i].state == StateOf(Last(initial, Writes(done[..i])))
  }

  /** The temporary file suits the point that a persisting caller has reached. */
  ghost predicate TmpReady(s: System, b: bool, at: Point) {
    match at
    case Written => s.disk.tmp.Some? && s.disk.tmp.value.data == Encode(b)
    case Synced => s.disk.tmp == Some(File(Encode(b), true))
    case Closed => s.disk.tmp == Some(File(Encode(b), true))
    case _ => true
  }

  /** The outcome that the lock holder is about to return fits what it did. */
  ghost predicate Pending(s: System, req: Request, at: Point) {
    match at
    case Finished(Wrote(b)) => req == Persist(b) && s.log == Writes(s.done) + [b]
    case Finished(Saw(st)) => s.log == Writes(s.done) && st == StateOf(Last(s.initial, s.log))
    case _ => s.log == Writes(s.done)
  }

  /** Only the holder of the lock is past waiting. */
  ghost predicate LockInv(s: System) {
    && (forall p: Pid :: ProcOf(s, p).Holding? ==> s.lock == Some(p))
    && (s.lock.Some? ==> ProcOf(s, s.lock.value).Holding?)
  }

  /** The files hold complete values, and the lock holder's work fits its progress. */
  ghost predicate DataInv(decode: Decoder, s: System) {
    && s.flushed <= |s.log|
    && Complete(decode, s.disk.state, Last(s.initial, s.log))
    && Complete(decode, s.disk.durable, Last(s.initial, s.log[..s.flushed]))
    && (s.lock.None? ==> s.log == Writes(s.done))
    && (s.lock.Some? && ProcOf(s, s.lock.value).Holding? ==>
          var proc := ProcOf(s, s.lock.value);
          && Pending(s, proc.req, proc.at)
          && (proc.req.Persist? ==> TmpReady(s, proc.req.started, proc.at)))
  }

  ghost predicate Inv(decode: Decoder, s: System) {
    LockInv(s) && DataInv(decode, s) && ReadsSeeLastWrite(s.initial, s.done)
  }

  /** The state file is absent or holds one complete value, written by hand or not; no caller is active. */
  ghost predicate Init(decode: Decoder, s: System) {
    && s.disk.state == s.disk.durable
    && Complete(decode, s.disk.state, s.initial)
    && s.lock.None? && s.procs == map[] && s.log == [] && s.flushed == 0 && s.done == []
  }

  lemma CompleteIsReadable(decode: Decoder, f: Option<File>, v: Option<bool>)
    requires Complete(decode, f, v)
    ensures ReadState(decode, f) == ReadOk(StateOf(v))
  {
  }

  lemma StepLockInv(decode: Decoder, s: System, step: Step)
    requires LockInv(s) && Do(decode, s, step).Some?
    ensures LockInv(Do(decode, s, step).value)
  {
    hide ReadState;
  }

  lemma SyscallDataInv(decode: Decoder, s: System, p: Pid)
    requires ReadsBack(decode) && LockInv(s) && DataInv(decode, s) && Do(decode, s, Syscall(p)).Some?
    ensures DataInv(decode, Do(decode, s, Syscall(p)).value)
  {
    hide ReadState, Complete, Writes;
    CompleteIsReadable(decode, s.disk.state, Last(s.initial, s.log));
    NewFileIsComplete(decode);
    var t := Do(decode, s, Syscall(p)).value;
    assert t.log[..t.flushed] == s.log[..s.flushed];
  }

  lemma NewFileIsComplete(decode: Decoder)
    requires ReadsBack(decode)
    ensures forall b :: Complete(decode, NewFile(b), Some(b))
  {
  }

  lemma ReleaseDataInv(decode: Decoder, s: System, p: Pid)
    requires LockInv(s) && DataInv(decode, s) && Do(decode, s, Release(p)).Some?
    ensures DataInv(decode, Do(decode, s, Release(p)).value)
  {
    hide Complete;
    var t := Do(decode, s, Release(p)).value;
    assert t.done[..|s.done|] == s.done;
  }

  lemma ReleaseReads(decode: Decoder, s: System, p: Pid)
    requires Inv(decode, s) && Do(decode, s, Release(p)).Some?
    ensures ReadsSeeLastWrite(s.initial, Do(decode, s, Release(p)).value.done)
  {
    hide Writes, Complete, TmpReady;
    var t := Do(decode, s, Release(p)).value;
    var n := |s.done|;
    assert t.done[..n] == s.done;
    forall i | 0 <= i < |t.done| && t.done[i].Saw?
      ensures t.done[i].state == StateOf(Last(s.initial, Writes(t.done[..i])))
    {
      if i < n {
        assert t.done[i] == s.done[i] && t.done[..i] == s.done[..i];
      }
    }
  }

  lemma StepReads(decode: Decoder, s: System, step: Step)
    requires Inv(decode, s) && Do(decode, s, step).Some?
    ensures var t := Do(decode, s, step).value; ReadsSeeLastWrite(t.initial, t.done)
  {
    hide LockInv, DataInv, Writes, ReadState;
    if step.Release? {
      ReleaseReads(decode, s, step.pid);
    }
  }

  lemma StepInv(decode: Decoder, s: System, step: Step)
    requires ReadsBack(decode) && Inv(decode, s) && Do(decode, s, step).Some?
    ensures Inv(decode, Do(decode, s, step).value)
  {
    hide Do, LockInv, DataInv;
    StepLockInv(decode, s, step);
    StepReads(decode, s, step);
    match step
    case Syscall(p) =>
      SyscallDataInv(decode, s, p);
    case Release(p) =>
      ReleaseDataInv(decode, s, p);
    case _ =>
      OtherDataInv(decode, s, step);
  }

  lemma OtherDataInv(decode: Decoder, s: System, step: Step)
    requires !step.Syscall? && !step.Release? && LockInv(s) && DataInv(decode, s) && Do(decode, s, step).Some?
    ensures DataInv(decode, Do(decode, s, step).value)
  {
    if step.Flush? {
      assert s.log[..|s.log|] == s.log;
    }
  }

  /**
   For every interleaving of callers, faults, flushes and crashes: the state file and its durable
   version each hold one complete value, reading the file never fails to make sense of it, and
   every completed read saw the last completed write since the machine started.
   */
  lemma {:induction false} EveryRunIsSafe(decode: Decoder, s: System, steps: seq<Step>)
    requires ReadsBack(decode) && Inv(decode, s) && DoAll(decode, s, steps).Some?
    ensures var t := DoAll(decode, s, steps).value;
            && Inv(decode, t)
            && ReadState(decode, t.disk.state) == ReadOk(StateOf(Last(t.initial, t.log)))
            && ReadState(decode, t.disk.durable) == ReadOk(StateOf(Last(t.initial, t.log[..t.flushed])))
            && ReadsSeeLastWrite(t.initial, t.done)
    decreases |steps|
  {
    if steps == [] {
      CompleteIsReadable(decode, s.disk.state, Last(s.initial, s.log));
      CompleteIsReadable(decode, s.disk.durable, Last(s.initial, s.log[..s.flushed]));
    } else {
      StepInv(decode, s, steps[0]);
      EveryRunIsSafe(decode, Do(decode, s, steps[0]).value, steps[1..]);
    }
  }

  lemma InitInv(decode: Decoder, s: System)
    requires Init(decode, s)
    ensures Inv(decode, s)
  {
  }

  /** The machine does not crash, and `p` does not let go of the lock. */
  predicate Undisturbed(step: Step, p: Pid) {
    !step.Crash? && step != Release(p)
  }

  /** The state file while `p` persists `b`: the one from before until `p` has renamed, and then its own. */
  function StateDuring(s: System, p: Pid, b: bool, before: Option<File>): Option<File> {
    if ProcOf(s, p) == Holding(Persist(b), Finished(Wrote(b))) then NewFile(b) else before
  }

  /**
   From the moment a caller has the lock until it lets go of it, a persist that has not renamed, and in
   particular one that failed, has left the file unchanged; one that succeeded has replaced it by
   its own.
   */
  lemma {:induction false} PersistIsAllOrNothing(decode: Decoder, s: System, steps: seq<Step>, p: Pid, b: bool)
    requires ReadsBack(decode) && Inv(decode, s) && ProcOf(s, p) == Holding(Persist(b), Locked)
    requires DoAll(decode, s, steps).Some? && forall i :: 0 <= i < |steps| ==> Undisturbed(steps[i], p)
    ensures var t := DoAll(decode, s, steps).value;
            && ProcOf(t, p).Holding? && ProcOf(t, p).req == Persist(b)
            && t.log == s.log + (if ProcOf(t, p).at == Finished(Wrote(b)) then [b] else [])
            && t.disk.state == (if ProcOf(t, p).at == Finished(Wrote(b)) then NewFile(b) else s.disk.state)
  {
    HolderRun(decode, s, steps, p, b, s.disk.state);
    EveryRunIsSafe(decode, s, steps);
  }

  lemma HolderStep(decode: Decoder, s: System, step: Step, p: Pid, b: bool, before: Option<File>)
    requires LockInv(s) && DataInv(decode, s) && Undisturbed(step, p) && Do(decode, s, step).Some?
    requires ProcOf(s, p).Holding? && ProcOf(s, p).req == Persist(b) && s.disk.state == StateDuring(s, p, b, before)
    ensures var t := Do(decode, s, step).value;
            && ProcOf(t, p).Holding? && ProcOf(t, p).req == Persist(b)
            && t.done == s.done && t.initial == s.initial
            && t.disk.state == StateDuring(t, p, b, before)
  {
    hide ReadState, Complete, Writes;
  }

  lemma {:induction false} HolderRun(
    decode: Decoder, s: System, steps: seq<Step>, p: Pid, b: bool, before: Option<File>)
    requires ReadsBack(decode) && Inv(decode, s)
    requires ProcOf(s, p).Holding? && ProcOf(s, p).req == Persist(b) && s.disk.state == StateDuring(s, p, b, before)
    requires DoAll(decode, s, steps).Some? && forall i :: 0 <= i < |steps| ==> Undisturbed(steps[i], p)
    ensures var t := DoAll(decode, s, steps).value;
            && ProcOf(t, p).Holding? && ProcOf(t, p).req == Persist(b)
            && t.done == s.done && t.initial == s.initial
            && t.disk.state == StateDuring(t, p, b, before)
    decreases |steps|
  {
    if steps != [] {
      hide Do, StateDuring;
      assert Undisturbed(steps[0], p);
      HolderStep(decode, s, steps[0], p, b, before);
      StepInv(decode, s, steps[0]);
      HolderRun(decode, Do(decode, s, steps[0]).value, steps[1..], p, b, before);
    }
  }

  // ---------- what a crash brings back ----------

  /**
   After a crash the state file is complete and holds the last value that was renamed before the file system
   last made renames durable. So the value survives exactly if that one is the same.
   */
  lemma CrashKeepsOldOrNew(decode: Decoder, s: System, garbled: string, tmp: Option<File>)
    requires Inv(decode, s)
    ensures var t := Do(decode, s, Crash(garbled, tmp));
            && t.Some? && Inv(decode, t.value)
            && t.value.disk.state == s.disk.durable
            && t.value.initial == Last(s.initial, s.log[..s.flushed])
            && ReadState(decode, t.value.disk.state) == ReadOk(StateOf(t.value.initial))
            && (ReadState(decode, t.value.disk.state) == ReadState(decode, s.disk.state)
                <==> Last(s.initial, s.log[..s.flushed]) == Last(s.initial, s.log))
  {
    var t := Do(decode, s, Crash(garbled, tmp)).value;
    CompleteIsReadable(decode, t.disk.state, t.initial);
    CompleteIsReadable(decode, s.disk.state, Last(s.initial, s.log));
  }

  /** No crash, and nothing becomes durable. */
  predicate Unflushed(step: Step) {
    !step.Flush? && !step.Crash?
  }

  lemma {:induction false} UnflushedRun(decode: Decoder, s: System, steps: seq<Step>)
    requires DoAll(decode, s, steps).Some? && forall i :: 0 <= i < |steps| ==> Unflushed(steps[i])
    ensures DoAll(decode, s, steps).value.disk.durable == s.disk.durable
    decreases |steps|
  {
    if steps != [] {
      assert Unflushed(steps[0]);
      UnflushedRun(decode, Do(decode, s, steps[0]).value, steps[1..]);
    }
  }

  lemma {:induction false} DoAllConcat(decode: Decoder, s: System, a: seq<Step>, b: seq<Step>)
    ensures DoAll(decode, s, a + b)
         == match DoAll(decode, s, a) case None => None case Some(t) => DoAll(decode, t, b)
    decreases |a|
  {
    hide Do;
    if a == [] {
      assert a + b == b;
    } else {
      assert (a + b)[1..] == a[1..] + b;
      if Do(decode, s, a[0]).Some? {
        DoAllConcat(decode, Do(decode, s, a[0]).value, a[1..], b);
      }
    }
  }

  /**
   Over runs: a crash brings back the very file that was in place when renames last became durable, at the
   `k`-th step. The value that callers saw last survives exactly if it is the one in place then: if no rename
   followed, or the last one wrote that value again.
   */
  lemma {:induction false} CrashBringsBackFlushed(
    decode: Decoder, s: System, steps: seq<Step>, k: nat, garbled: string, tmp: Option<File>)
    requires ReadsBack(decode) && Inv(decode, s) && DoAll(decode, s, steps).Some?
    requires k < |steps| && steps[k] == Flush && forall i :: k < i < |steps| ==> Unflushed(steps[i])
    ensures DoAll(decode, s, steps[..k]).Some?
    ensures var m, t := DoAll(decode, s, steps[..k]).value, DoAll(decode, s, steps).value;
            var u := Do(decode, t, Crash(garbled, tmp));
            && u.Some?
            && u.value.disk.state == m.disk.state
            && (ReadState(decode, u.value.disk.state) == ReadState(decode, t.disk.state)
                <==> Last(m.initial, m.log) == Last(t.initial, t.log))
  {
    hide ReadState, Inv;
    var rest := steps[k + 1..];
    assert steps == steps[..k] + ([Flush] + rest);
    DoAllConcat(decode, s, steps[..k], [Flush] + rest);
    var m, t := DoAll(decode, s, steps[..k]).value, DoAll(decode, s, steps).value;
    DoAllConcat(decode, m, [Flush], rest);
    forall i | 0 <= i < |rest| ensures Unflushed(rest[i]) {
      assert rest[i] == steps[k + 1 + i];
    }
    UnflushedRun(decode, DoAll(decode, m, [Flush]).value, rest);
    EveryRunIsSafe(decode, s, steps[..k]);
    EveryRunIsSafe(decode, s, steps);
    CrashKeepsOldOrNew(decode, t, garbled, tmp);
  }

  /** The same when nothing became durable during the run: the crash brings back what was durable before it. */
  lemma {:induction false} CrashBringsBackStart(
    decode: Decoder, s: System, steps: seq<Step>, garbled: string, tmp: Option<File>)
    requires ReadsBack(decode) && Inv(decode, s) && DoAll(decode, s, steps).Some?
    requires forall i :: 0 <= i < |steps| ==> Unflushed(steps[i])
    ensures var t := DoAll(decode, s, steps).value;
            var u := Do(decode, t, Crash(garbled, tmp));
            && u.Some?
            && u.value.disk.state == s.disk.durable
            && (ReadState(decode, u.value.disk.state) == ReadState(decode, t.disk.state)
                <==> Last(s.initial, s.log[..s.flushed]) == Last(t.initial, t.log))
  {
    UnflushedRun(decode, s, steps);
    EveryRunIsSafe(decode, s, []);
    EveryRunIsSafe(decode, s, steps);
    CrashKeepsOldOrNew(decode, DoAll(decode, s, steps).value, garbled, tmp);
  }

  /** The six system calls of a persist. */
  function Syscalls(p: Pid): seq<Step> {
    var c := [Syscall(p)];
    c + (c + (c + (c + (c + c))))
  }

  /** One caller persists `b`, undisturbed, from the call to the return. */
  function PersistSteps(p: Pid, b: bool): seq<Step> {
    [Invoke(p, Persist(b))] + ([Acquire(p)] + (Syscalls(p) + [Release(p)]))
  }

  lemma {:induction false} DoFirst(decode: Decoder, s: System, step: Step, rest: seq<Step>)
    requires Do(decode, s, step).Some?
    ensures DoAll(decode, s, [step] + rest) == DoAll(decode, Do(decode, s, step).value, rest)
  {
    assert ([step] + rest)[1..] == rest;
  }

  lemma {:induction false} SyscallsPersist(decode: Decoder, s: System, p: Pid, b: bool)
    requires ProcOf(s, p) == Holding(Persist(b), Locked)
    ensures var t := DoAll(decode, s, Syscalls(p));
            && t.Some?
            && ProcOf(t.value, p) == Holding(Persist(b), Finished(Wrote(b)))
            && t.value.disk == Disk(NewFile(b), None, s.disk.durable)
            && t.value.done == s.done
  {
    hide DoAll, ReadState;
    var c := [Syscall(p)];
    var s1 := Do(decode, s, Syscall(p)).value;
    var s2 := Do(decode, s1, Syscall(p)).value;
    var s3 := Do(decode, s2, Syscall(p)).value;
    var s4 := Do(decode, s3, Syscall(p)).value;
    var s5 := Do(decode, s4, Syscall(p)).value;
    var s6 := Do(decode, s5, Syscall(p)).value;
    DoFirst(decode, s, Syscall(p), c + (c + (c + (c + c))));
    DoFirst(decode, s1, Syscall(p), c + (c + (c + c)));
    DoFirst(decode, s2, Syscall(p), c + (c + c));
    DoFirst(decode, s3, Syscall(p), c + c);
    DoFirst(decode, s4, Syscall(p), c);
    DoFirst(decode, s5, Syscall(p), []);
    assert c + [] == c;
    NoSteps(decode, s6);
  }

  lemma NoSteps(decode: Decoder, s: System)
    ensures DoAll(decode, s, []) == Some(s)
  {
  }

  lemma {:induction false} PersistCompletes(decode: Decoder, s: System, p: Pid, b: bool)
    requires s.lock.None? && ProcOf(s, p).Idle?
    ensures var t := DoAll(decode, s, PersistSteps(p, b));
            && t.Some?
            && t.value.done == s.done + [Wrote(b)]
            && t.value.disk == Disk(NewFile(b), None, s.disk.durable)
  {
    hide DoAll, Syscalls;
    var s1 := Do(decode, s, Invoke(p, Persist(b))).value;
    var s2 := Do(decode, s1, Acquire(p)).value;
    DoFirst(decode, s, Invoke(p, Persist(b)), [Acquire(p)] + (Syscalls(p) + [Release(p)]));
    DoFirst(decode, s1, Acquire(p), Syscalls(p) + [Release(p)]);
    SyscallsPersist(decode, s2, p, b);
    DoAllConcat(decode, s2, Syscalls(p), [Release(p)]);
    var s3 := DoAll(decode, s2, Syscalls(p)).value;
    DoFirst(decode, s3, Release(p), []);
    assert [Release(p)] + [] == [Release(p)];
    NoSteps(decode, Do(decode, s3, Release(p)).value);
  }

  /**
   A completed write can be lost, in any state: it has returned success, and a crash before renames become
   durable brings back the file that was durable before the call.
   */
  lemma CompletedWriteIsLost(decode: Decoder, s: System, p: Pid, b: bool, garbled: string, tmp: Option<File>)
    requires ReadsBack(decode) && Inv(decode, s) && s.lock.None? && ProcOf(s, p).Idle?
    ensures var t := DoAll(decode, s, PersistSteps(p, b));
            && t.Some? && t.value.done == s.done + [Wrote(b)]
            && ReadState(decode, t.value.disk.state) == ReadOk(StateOf(Some(b)))
            && var u := Do(decode, t.value, Crash(garbled, tmp));
               u.Some? && u.value.disk.state == s.disk.durable
  {
    hide PersistSteps, DoAll;
    PersistCompletes(decode, s, p, b);
    EveryRunIsSafe(decode, s, PersistSteps(p, b));
    CrashKeepsOldOrNew(decode, DoAll(decode, s, PersistSteps(p, b)).value, garbled, tmp);
  }

  /** For instance on an empty disk: the file reads as started, and after the crash as unset. */
  lemma FirstWriteIsLost(decode: Decoder, garbled: string, tmp: Option<File>)
    requires ReadsBack(decode)
    ensures var s := System(Disk(None, None, None), None, map[], None, [], 0, []);
            var t := DoAll(decode, s, PersistSteps(0, true));
            && Init(decode, s)
            && t.Some? && t.value.done == [Wrote(true)]
            && ReadState(decode, t.value.disk.state) == ReadOk(StateStarted)
            && var u := Do(decode, t.value, Crash(garbled, tmp));
               u.Some? && ReadState(decode, u.value.disk.state) == ReadOk(StateUnset)
  {
    var s := System(Disk(None, None, None), None, map[], None, [], 0, []);
    InitInv(decode, s);
    hide PersistSteps, DoAll, Do;
    CompletedWriteIsLost(decode, s, 0, true, garbled, tmp);
  }

  // ---------- the calls as the code makes them ----------

  datatype Call = MkdirCall | OpenCall | WriteCall | SyncCall | CloseCall | RenameCall

  class ActiveConfigPersistence {
    var disk: Disk

    /** Writes the value; `faults` are the system calls that fail, `partial` what a failed write leaves. */
    method Persist(started: bool, faults: set<Call>, partial: string) returns (ok: bool)
      modifies this
      ensures ok <==> faults == {}
      ensures disk.durable == old(disk.durable)
      ensures disk.state == if ok then NewFile(started) else old(disk.state)
    {
      var data := Encode(started);
      if MkdirCall in faults {
        return false;
      }
      if OpenCall in faults {
        return false;
      }
      disk := OpenTmp(disk);
      if WriteCall in faults {
        disk := WriteTmp(disk, partial);
        return false;
      }
      disk := WriteTmp(disk, data);
      if SyncCall in faults {
        return false;
      }
      disk := SyncTmp(disk);
      if CloseCall in faults {
        return false;
      }
      if RenameCall in faults {
        return false;
      }
      disk := Rename(disk);
      assert forall c :: c in faults ==> false by {
        forall c | c in faults ensures false {
          match c
          case MkdirCall => case OpenCall => case WriteCall => case SyncCall => case CloseCall => case RenameCall =>
        }
      }
      return true;
    }

    /** Reads the value; `fault` is a read error other than that of a missing file. */
    method SequencerState(decode: Decoder, fault: bool) returns (r: ReadResult)
      ensures r == if fault then ReadErr else ReadState(decode, disk.state)
    {
      if fault {
        return ReadErr;
      }
      if disk.state.None? {
        return ReadOk(StateUnset);
      }
      var config := decode(disk.state.value.data);
      if config.None? {
        return ReadErr;
      }
      if config.value.None? {
        return ReadErr;
      }
      return ReadOk(if config.value.value then StateStarted else StateStopped);
    }
  }

  /** The part of the node's configuration that the persisted state overrides. */
  class DriverConfig {
    var sequencerEnabled: bool
    var sequencerStopped: bool

    method LoadPersisted(store: ActiveConfigPersistence, decode: Decoder, fault: bool) returns (ok: bool)
      modifies this
      ensures sequencerEnabled == old(sequencerEnabled)
      ensures ok <==> !sequencerEnabled || (!fault && ReadState(decode, store.disk.state).ReadOk?)
      ensures sequencerStopped
           == if sequencerEnabled && !fault
                 && ReadState(decode, store.disk.state) in {ReadOk(StateStarted), ReadOk(StateStopped)}
              then ReadState(decode, store.disk.state) == ReadOk(StateStopped)
              else old(sequencerStopped)
    {
      if !sequencerEnabled {
        return true;
      }
      var r := store.SequencerState(decode, fault);
      if r.ReadErr? {
        return false;
      }
      if r.state != StateUnset {
        sequencerStopped := r.state == StateStopped;
      }
      return true;
    }
  }

  lemma {:induction false} CrashFreeStart(decode: Decoder, s: System, steps: seq<Step>)
    requires DoAll(decode, s, steps).Some? && forall i :: 0 <= i < |steps| ==> !steps[i].Crash?
    ensures DoAll(decode, s, steps).value.initial == s.initial
    decreases |steps|
  {
    if steps != [] {
      assert !steps[0].Crash?;
      CrashFreeStart(decode, Do(decode, s, steps[0]).value, steps[1..]);
    }
  }

  /** The flag after loading the value `v`: an unset value leaves it as it was. */
  function StoppedBy(v: Option<bool>, stopped: bool): bool {
    match v
    case None => stopped
    case Some(started) => !started
  }

  /**
   After any run, whatever its interleavings, faults and crashes, loading succeeds and configures the node
   with the value renamed into place last since the machine last started, or else the one that survived
   until then; without a crash and with no call under way, that is the last write that completed.
   */
  method LoadAfterRun(
    ghost s: System, ghost steps: seq<Step>, store: ActiveConfigPersistence, driver: DriverConfig, decode: Decoder)
    returns (ok: bool)
    requires ReadsBack(decode) && Inv(decode, s) && DoAll(decode, s, steps).Some?
    requires store.disk == DoAll(decode, s, steps).value.disk && driver.sequencerEnabled
    modifies driver
    ensures ok
    ensures var t := DoAll(decode, s, steps).value;
            && driver.sequencerStopped == StoppedBy(Last(t.initial, t.log), old(driver.sequencerStopped))
            && (t.lock.None? && (forall i :: 0 <= i < |steps| ==> !steps[i].Crash?) ==>
                  driver.sequencerStopped == StoppedBy(Last(s.initial, Writes(t.done)), old(driver.sequencerStopped)))
  {
    EveryRunIsSafe(decode, s, steps);
    if forall i :: 0 <= i < |steps| ==> !steps[i].Crash? {
      CrashFreeStart(decode, s, steps);
    }
    ok := driver.LoadPersisted(store, decode, false);
  }
}
