/** The Android set-up and tear-down sequences and the per-serial lock that keeps them apart
    (crates/pane-android/src/lib.rs, `add_usb`, `remove`, `probe_proxy_state`).

    A script is the list of adb commands of one call. The world runs any number of such calls,
    one command at a time, in any order the locks allow. */
module DeviceSetup {
  import opened ReverseProbe
  import Text

  type Serial = string

  datatype Proxy = Unset | Cleared | Ours | Foreign

  /** `ca` and `helper` say whether the certificate has been put on the phone and whether the
      companion app has been started since it was last stopped. */
  datatype Device = Device(proxy: Proxy, reverses: map<Port, Port>, pac: bool, pacUrl: bool, ca: bool, helper: bool) {
    /** The phone is not left talking to a port that leads nowhere. */
    predicate Safe() {
      proxy.Ours? ==> 8888 in reverses
    }

    predicate Healthy(macPort: Port) {
      proxy.Ours? && 8888 in reverses && reverses[8888] == macPort
    }
  }

  datatype Command =
    | WaitForDevice | WhichSu | Props | InstallCa | Reverse(device: Port, host: Port) | StartHelper
    | PutProxy | PutPac | PutPacUrl
    | ClearProxy | DeletePac | DeletePacUrl | StopHelper | RemoveReverse(device: Port)
    | ListReverses | GetProxy

  /** A command that fails (or times out) may still have taken effect on the phone. */
  datatype Outcome = Done | FailedApplied | FailedIdle

  /** `mustSucceed` marks the commands whose error the source propagates. */
  datatype Step = Step(cmd: Command, mustSucceed: bool)

  function Apply(d: Device, cmd: Command): Device {
    match cmd
    case Reverse(p, h) => d.(reverses := d.reverses[p := h])
    case RemoveReverse(p) => d.(reverses := d.reverses - {p})
    case PutProxy => d.(proxy := Ours)
    case ClearProxy => d.(proxy := Cleared)
    case PutPac => d.(pac := true)
    case PutPacUrl => d.(pacUrl := true)
    case DeletePac => d.(pac := false)
    case DeletePacUrl => d.(pacUrl := false)
    case InstallCa => d.(ca := true)
    case StartHelper => d.(helper := true)
    case StopHelper => d.(helper := false)
    case _ => d
  }

  function After(d: Device, cmd: Command, o: Outcome): Device {
    if o.FailedIdle? then d else Apply(d, cmd)
  }

  datatype Job = Add(macPort: Port, wait: bool) | Remove | Probe(port: Port) | ProxyCheck

  function AddScript(macPort: Port): seq<Step> {
    [Step(WhichSu, false), Step(Props, false), Step(InstallCa, false),
     Step(Reverse(8888, macPort), true), Step(Reverse(8889, 8889), false), Step(Reverse(8890, 8890), false),
     Step(StartHelper, false), Step(PutProxy, true), Step(PutPac, false), Step(PutPacUrl, false)]
  }

  function RemoveScript(): seq<Step> {
    [Step(ClearProxy, false), Step(DeletePac, false), Step(DeletePacUrl, false), Step(StopHelper, false),
     Step(RemoveReverse(8888), false), Step(RemoveReverse(8889), false), Step(RemoveReverse(8890), false)]
  }

  function Script(job: Job): (r: seq<Step>)
    ensures |r| >= 1
  {
    match job
    case Add(m, wait) => (if wait then [Step(WaitForDevice, true)] else []) + AddScript(m)
    case Remove => RemoveScript()
    case Probe(_) => [Step(ListReverses, true), Step(GetProxy, true)]
    case ProxyCheck => [Step(GetProxy, true)]
  }

  /** The device after the first `|os|` commands, run with nothing in between. */
  function Prefix(d: Device, steps: seq<Step>, os: seq<Outcome>): Device
    requires |os| <= |steps|
  {
    if os == [] then d
    else After(Prefix(d, steps, os[..|os| - 1]), steps[|os| - 1].cmd, os[|os| - 1])
  }

  lemma PrefixSnoc(d: Device, steps: seq<Step>, os: seq<Outcome>, o: Outcome)
    requires |os| < |steps|
    ensures Prefix(d, steps, os + [o]) == After(Prefix(d, steps, os), steps[|os|].cmd, o)
  {
    assert (os + [o])[..|os|] == os;
  }

  /** No load-bearing command has failed. */
  ghost predicate Passed(steps: seq<Step>, os: seq<Outcome>)
    requires |os| <= |steps|
  {
    forall k :: 0 <= k < |os| ==> steps[k].mustSucceed ==> os[k].Done?
  }

  // ---- One call on its own ---------------------------------------------------------------

  function Offset(wait: bool): nat { if wait then 1 else 0 }

  lemma RemoveCommand(d: Device, n: nat)
    requires n < |RemoveScript()|
    ensures var e := Apply(d, RemoveScript()[n].cmd);
            && e.proxy == (if n == 0 then Cleared else d.proxy)
            && (8888 in e.reverses <==> 8888 in d.reverses && n != 4)
            && (RemoveScript()[n].cmd == RemoveReverse(8888) <==> n == 4)
  {
    var cmd := RemoveScript()[n].cmd;
    assert cmd.ClearProxy? <==> n == 0;
    assert cmd.RemoveReverse? && cmd.device == 8888 <==> n == 4;
    assert !cmd.PutProxy? && !cmd.Reverse?;
  }

  lemma {:induction false} RemovePrefix(d: Device, os: seq<Outcome>)
    requires 0 < |os| <= |RemoveScript()|
    ensures var e := Prefix(d, RemoveScript(), os);
            && (e.proxy == if os[0].FailedIdle? then d.proxy else Cleared)
            && (8888 in e.reverses <==> 8888 in d.reverses && (|os| <= 4 || os[4].FailedIdle?))
    decreases |os|
  {
    var front := os[..|os| - 1];
    RemoveCommand(Prefix(d, RemoveScript(), front), |os| - 1);
    if |os| > 1 {
      RemovePrefix(d, front);
    } else {
      assert front == [];
    }
  }

  /** A whole `remove` leaves the phone safe exactly when its ignored first command took effect,
      or the phone was not pointed at Pane anyway, or the data tunnel survived. */
  lemma RemoveSafeExactly(d: Device, os: seq<Outcome>)
    requires |os| == |RemoveScript()|
    ensures Prefix(d, RemoveScript(), os).Safe()
       <==> !os[0].FailedIdle? || !d.proxy.Ours? || (8888 in d.reverses && os[4].FailedIdle?)
  {
    RemovePrefix(d, os);
  }

  /** Command `k` has run and taken effect. */
  predicate Took(os: seq<Outcome>, k: nat) {
    k < |os| && !os[k].FailedIdle?
  }

  lemma TookSnoc(os: seq<Outcome>, o: Outcome, k: nat)
    ensures Took(os + [o], k) <==> Took(os, k) || (k == |os| && !o.FailedIdle?)
  {
  }

  function Mapped(reverses: map<Port, Port>, device: Port, host: Port, took: bool): map<Port, Port> {
    if took then reverses[device := host] else reverses
  }

  function Unmapped(reverses: map<Port, Port>, device: Port, took: bool): map<Port, Port> {
    if took then reverses - {device} else reverses
  }

  /** The phone behind a part of `add_usb`, by what took effect. */
  function AddedTo(d: Device, m: Port, os: seq<Outcome>, at: nat): Device {
    Device(if Took(os, at + 7) then Ours else d.proxy,
           Mapped(Mapped(Mapped(d.reverses, 8888, m, Took(os, at + 3)), 8889, 8889, Took(os, at + 4)), 8890, 8890, Took(os, at + 5)),
           d.pac || Took(os, at + 8), d.pacUrl || Took(os, at + 9), d.ca || Took(os, at + 2), d.helper || Took(os, at + 6))
  }

  /** The phone behind a part of `remove`, by what took effect. */
  function RemovedFrom(d: Device, os: seq<Outcome>): Device {
    Device(if Took(os, 0) then Cleared else d.proxy,
           Unmapped(Unmapped(Unmapped(d.reverses, 8888, Took(os, 4)), 8889, Took(os, 5)), 8890, Took(os, 6)),
           d.pac && !Took(os, 1), d.pacUrl && !Took(os, 2), d.ca, d.helper && !Took(os, 3))
  }

  /** Command `n` of an `add_usb`. */
  lemma AddCommand(m: Port, wait: bool, n: nat)
    requires n < |Script(Add(m, wait))|
    ensures if n < Offset(wait) then Script(Add(m, wait))[n] == Step(WaitForDevice, true)
            else Script(Add(m, wait))[n] == AddScript(m)[n - Offset(wait)]
  {
  }

  lemma AddedTunnels(d: Device, m: Port, os: seq<Outcome>, o: Outcome, at: nat)
    requires at + 3 <= |os| <= at + 5
    ensures AddedTo(d, m, os + [o], at)
         == After(AddedTo(d, m, os, at), [Reverse(8888, m), Reverse(8889, 8889), Reverse(8890, 8890)][|os| - at - 3], o)
  {
    forall k: nat
      ensures Took(os + [o], k) <==> Took(os, k) || (k == |os| && !o.FailedIdle?)
    {
      TookSnoc(os, o, k);
    }
  }

  lemma AddedSettings(d: Device, m: Port, os: seq<Outcome>, o: Outcome, at: nat)
    requires at <= |os| < at + 3 || at + 6 <= |os| < at + 10
    ensures AddedTo(d, m, os + [o], at) == After(AddedTo(d, m, os, at), AddScript(m)[|os| - at].cmd, o)
  {
    forall k: nat
      ensures Took(os + [o], k) <==> Took(os, k) || (k == |os| && !o.FailedIdle?)
    {
      TookSnoc(os, o, k);
    }
  }

  lemma AddedSnoc(d: Device, m: Port, wait: bool, os: seq<Outcome>, o: Outcome)
    requires |os| < |Script(Add(m, wait))|
    ensures AddedTo(d, m, os + [o], Offset(wait)) == After(AddedTo(d, m, os, Offset(wait)), Script(Add(m, wait))[|os|].cmd, o)
  {
    var n, at := |os|, Offset(wait);
    AddCommand(m, wait, n);
    if n >= at {
      if at + 3 <= n < at + 6 {
        AddedTunnels(d, m, os, o, at);
      } else {
        AddedSettings(d, m, os, o, at);
      }
    }
  }

  lemma RemovedSettings(d: Device, os: seq<Outcome>, o: Outcome)
    requires |os| <= 3
    ensures RemovedFrom(d, os + [o]) == After(RemovedFrom(d, os), [ClearProxy, DeletePac, DeletePacUrl, StopHelper][|os|], o)
  {
    forall k: nat
      ensures Took(os + [o], k) <==> Took(os, k) || (k == |os| && !o.FailedIdle?)
    {
      TookSnoc(os, o, k);
    }
  }

  lemma RemovedTunnels(d: Device, os: seq<Outcome>, o: Outcome)
    requires 4 <= |os| <= 6
    ensures RemovedFrom(d, os + [o]) == After(RemovedFrom(d, os), RemoveReverse([8888, 8889, 8890][|os| - 4]), o)
  {
    forall k: nat
      ensures Took(os + [o], k) <==> Took(os, k) || (k == |os| && !o.FailedIdle?)
    {
      TookSnoc(os, o, k);
    }
  }

  lemma RemovedSnoc(d: Device, os: seq<Outcome>, o: Outcome)
    requires |os| < |RemoveScript()|
    ensures RemovedFrom(d, os + [o]) == After(RemovedFrom(d, os), RemoveScript()[|os|].cmd, o)
  {
    var n := |os|;
    if n <= 3 {
      RemovedSettings(d, os, o);
    } else {
      RemovedTunnels(d, os, o);
    }
  }

  /** What any part of an `add_usb` has done, whatever its commands answered: each that took effect
      leaves its own mark on the phone and nothing else. */
  lemma {:induction false} AddEffects(d: Device, m: Port, wait: bool, os: seq<Outcome>)
    requires |os| <= |Script(Add(m, wait))|
    ensures Prefix(d, Script(Add(m, wait)), os) == AddedTo(d, m, os, Offset(wait))
    decreases |os|
  {
    if os != [] {
      var front, last := os[..|os| - 1], os[|os| - 1];
      AddEffects(d, m, wait, front);
      AddedSnoc(d, m, wait, front, last);
      PrefixSnoc(d, Script(Add(m, wait)), front, last);
      assert os == front + [last];
    }
  }

  /** The load-bearing commands of `add_usb`, by position. */
  lemma AddBearing(m: Port, wait: bool, os: seq<Outcome>)
    requires |os| <= |Script(Add(m, wait))|
    ensures Passed(Script(Add(m, wait)), os) <==>
            && (wait && |os| > 0 ==> os[0].Done?)
            && (|os| > Offset(wait) + 3 ==> os[Offset(wait) + 3].Done?)
            && (|os| > Offset(wait) + 7 ==> os[Offset(wait) + 7].Done?)
  {
    var steps := Script(Add(m, wait));
    forall k | 0 <= k < |os|
      ensures steps[k].mustSucceed <==> (wait && k == 0) || k == Offset(wait) + 3 || k == Offset(wait) + 7
    {
      AddCommand(m, wait, k);
    }
  }

  /** What an `add_usb` has achieved when it stands behind its first `|os|` commands. */
  lemma AddPrefix(d: Device, m: Port, wait: bool, os: seq<Outcome>)
    requires |os| <= |Script(Add(m, wait))| && Passed(Script(Add(m, wait)), os)
    ensures var e := Prefix(d, Script(Add(m, wait)), os);
            && (|os| > Offset(wait) + 3 ==> 8888 in e.reverses && e.reverses[8888] == m)
            && (|os| > Offset(wait) + 7 ==> e.proxy.Ours?)
            && (d.Safe() ==> e.Safe())
  {
    AddEffects(d, m, wait, os);
    AddBearing(m, wait, os);
  }

  lemma {:induction false} RemoveEffects(d: Device, os: seq<Outcome>)
    requires |os| <= |RemoveScript()|
    ensures Prefix(d, RemoveScript(), os) == RemovedFrom(d, os)
    decreases |os|
  {
    if os != [] {
      var front, last := os[..|os| - 1], os[|os| - 1];
      RemoveEffects(d, front);
      RemovedSnoc(d, front, last);
      PrefixSnoc(d, RemoveScript(), front, last);
      assert os == front + [last];
    }
  }

  /** With every command done, `add_usb` opens all three tunnels, sets the proxy and both PAC
      settings, puts the certificate on the phone and starts the companion app. */
  lemma AddCompletes(d: Device, m: Port, wait: bool, os: seq<Outcome>)
    requires |os| == |Script(Add(m, wait))| && forall o :: o in os ==> o.Done?
    ensures Prefix(d, Script(Add(m, wait)), os)
         == Device(Ours, d.reverses[8888 := m][8889 := 8889][8890 := 8890], true, true, true, true)
  {
    AddEffects(d, m, wait, os);
    assert forall k :: 0 <= k < |os| ==> os[k] in os;
  }

  /** With every command done, `remove` undoes `add_usb` and anything Pane did before, but for the
      certificate. */
  lemma RemoveCleans(d: Device, os: seq<Outcome>)
    requires |os| == |RemoveScript()| && forall o :: o in os ==> o.Done?
    ensures Prefix(d, RemoveScript(), os) == Device(Cleared, d.reverses - {8888, 8889, 8890}, false, false, d.ca, false)
  {
    RemoveEffects(d, os);
    assert forall k :: 0 <= k < |os| ==> os[k] in os;
    assert d.reverses - {8888} - {8889} - {8890} == d.reverses - {8888, 8889, 8890};
  }

  /** The order of `add_usb` matters to the companion app, which clears a proxy it cannot reach Pane
      through: whenever this call has set the proxy it has already tried to start the app, and all
      tunnels before that. */
  lemma ProxyComesLast(m: Port, wait: bool, n: nat, k: nat)
    requires n < |Script(Add(m, wait))| && Script(Add(m, wait))[n].cmd.PutProxy?
    requires k < |Script(Add(m, wait))| && (Script(Add(m, wait))[k].cmd.Reverse? || Script(Add(m, wait))[k].cmd.StartHelper?)
    ensures k < n
  {
    AddCommand(m, wait, n);
    AddCommand(m, wait, k);
  }

  // ---- Calls side by side ----------------------------------------------------------------

  type TaskId = nat

  /** What a probe has read so far. */
  datatype Reading = Reading(reverses: map<Port, Port>, ours: bool)

  datatype Result = Ok | Failed | Skipped | Cancelled

  datatype Phase =
    | Waiting
    | Running(start: Device, os: seq<Outcome>, seen: Reading)
    | Finished(result: Result, start: Device, os: seq<Outcome>, seen: Reading)

  datatype Task = Task(serial: Serial, job: Job, phase: Phase)

  datatype World = World(devices: map<Serial, Device>, lock: map<Serial, TaskId>, tasks: seq<Task>)

  const BLANK := Device(Unset, map[], false, false, false, false)
  const NOTHING := Reading(map[], false)

  function DeviceOf(w: World, s: Serial): Device {
    if s in w.devices then w.devices[s] else BLANK
  }

  /** A call starts, takes its lock, runs one command, or is dropped at an await point. */
  datatype Action = Spawn(serial: Serial, job: Job) | Acquire(t: TaskId) | Exec(t: TaskId, o: Outcome) | Cancel(t: TaskId)

  /** `add_usb` and `remove` wait for the lock; the probes give up when it is taken. */
  predicate Waits(job: Job) { job.Add? || job.Remove? }

  predicate Enabled(w: World, a: Action) {
    match a
    case Spawn(_, _) => true
    case Acquire(t) =>
      && t < |w.tasks| && w.tasks[t].phase.Waiting?
      && (w.tasks[t].serial in w.lock ==> !Waits(w.tasks[t].job))
    case Exec(t, _) =>
      t < |w.tasks| && w.tasks[t].phase.Running? && |w.tasks[t].phase.os| < |Script(w.tasks[t].job)|
    case Cancel(t) => t < |w.tasks| && !w.tasks[t].phase.Finished?
  }

  function CurrentStep(k: Task): Step
    requires k.phase.Running? && |k.phase.os| < |Script(k.job)|
  {
    Script(k.job)[|k.phase.os|]
  }

  /** A failed command tells nothing. */
  function Observe(seen: Reading, cmd: Command, d: Device, o: Outcome): Reading {
    if !o.Done? then seen
    else match cmd
      case ListReverses => seen.(reverses := d.reverses)
      case GetProxy => seen.(ours := d.proxy.Ours?)
      case _ => seen
  }

  function SetPhase(w: World, t: TaskId, phase: Phase): World
    requires t < |w.tasks|
  {
    w.(tasks := w.tasks[t := w.tasks[t].(phase := phase)])
  }

  function Release(w: World, s: Serial): World {
    w.(lock := w.lock - {s})
  }

  function ExecPhase(k: Task, o: Outcome, d: Device): Phase
    requires k.phase.Running? && |k.phase.os| < |Script(k.job)|
  {
    var os := k.phase.os + [o];
    var seen := Observe(k.phase.seen, CurrentStep(k).cmd, d, o);
    if CurrentStep(k).mustSucceed && !o.Done? then Finished(Failed, k.phase.start, os, seen)
    else if |os| == |Script(k.job)| then Finished(Ok, k.phase.start, os, seen)
    else Running(k.phase.start, os, seen)
  }

  function Do(w: World, a: Action): World
    requires Enabled(w, a)
  {
    match a
    case Spawn(s, job) => w.(tasks := w.tasks + [Task(s, job, Waiting)])
    case Acquire(t) =>
      var s := w.tasks[t].serial;
      if s in w.lock then SetPhase(w, t, Finished(Skipped, DeviceOf(w, s), [], NOTHING))
      else SetPhase(w, t, Running(DeviceOf(w, s), [], NOTHING)).(lock := w.lock[s := t])
    case Exec(t, o) =>
      var k := w.tasks[t];
      var d := DeviceOf(w, k.serial);
      var phase := ExecPhase(k, o, d);
      var next := SetPhase(w, t, phase).(devices := w.devices[k.serial := After(d, CurrentStep(k).cmd, o)]);
      if phase.Finished? then Release(next, k.serial) else next
    case Cancel(t) =>
      var k := w.tasks[t];
      if k.phase.Running?
      then Release(SetPhase(w, t, Finished(Cancelled, k.phase.start, k.phase.os, k.phase.seen)), k.serial)
      else SetPhase(w, t, Finished(Cancelled, BLANK, [], NOTHING))
  }

  /** The holder of a lock stands inside its script, and the phone is where the script, run
      alone from the moment the lock was taken, would have put it. */
  ghost predicate OnScript(k: Task, d: Device) {
    && k.phase.Running?
    && |k.phase.os| < |Script(k.job)|
    && Passed(Script(k.job), k.phase.os)
    && d == Prefix(k.phase.start, Script(k.job), k.phase.os)
    && (k.job.Probe? && k.phase.os != [] ==> k.phase.seen.reverses == d.reverses)
  }

  ghost predicate LocksHold(w: World) {
    && (forall s :: s in w.lock ==>
          w.lock[s] < |w.tasks| && w.tasks[w.lock[s]].phase.Running? && w.tasks[w.lock[s]].serial == s)
    && (forall t :: 0 <= t < |w.tasks| && w.tasks[t].phase.Running? ==>
          && w.tasks[t].serial in w.lock && w.lock[w.tasks[t].serial] == t
          && OnScript(w.tasks[t], DeviceOf(w, w.tasks[t].serial)))
  }

  lemma PassedSnoc(steps: seq<Step>, os: seq<Outcome>, o: Outcome)
    requires |os| < |steps| && Passed(steps, os) && (steps[|os|].mustSucceed ==> o.Done?)
    ensures Passed(steps, os + [o])
  {
  }

  /** One more command leaves the phone where one more command of the script would have. */
  lemma ExecPrefix(k: Task, d: Device, o: Outcome)
    requires OnScript(k, d)
    ensures After(d, CurrentStep(k).cmd, o) == Prefix(k.phase.start, Script(k.job), k.phase.os + [o])
  {
    PrefixSnoc(k.phase.start, Script(k.job), k.phase.os, o);
  }

  lemma ExecGoesOn(k: Task, d: Device, o: Outcome)
    requires OnScript(k, d) && ExecPhase(k, o, d).Running?
    ensures OnScript(k.(phase := ExecPhase(k, o, d)), After(d, CurrentStep(k).cmd, o))
  {
    ExecPrefix(k, d, o);
    PassedSnoc(Script(k.job), k.phase.os, o);
  }

  lemma ExecEndsWell(k: Task, d: Device, o: Outcome)
    requires OnScript(k, d) && ExecPhase(k, o, d).Finished? && ExecPhase(k, o, d).result.Ok?
    ensures |k.phase.os + [o]| == |Script(k.job)| && Passed(Script(k.job), k.phase.os + [o])
  {
    PassedSnoc(Script(k.job), k.phase.os, o);
  }

  /** Tasks other than the one that moved, and phones other than its own, are as they were. */
  lemma OthersKeepTheirLocks(w: World, v: World, t: TaskId)
    requires LocksHold(w) && t < |w.tasks| && |v.tasks| == |w.tasks|
    requires forall i :: 0 <= i < |w.tasks| && i != t ==> v.tasks[i] == w.tasks[i]
    requires v.tasks[t].serial == w.tasks[t].serial
    requires forall s :: s != w.tasks[t].serial ==>
               DeviceOf(v, s) == DeviceOf(w, s) && (s in v.lock <==> s in w.lock) && (s in w.lock ==> v.lock[s] == w.lock[s])
    requires w.tasks[t].phase.Running? || w.tasks[t].serial !in w.lock
    requires if v.tasks[t].phase.Running?
             then && w.tasks[t].serial in v.lock && v.lock[w.tasks[t].serial] == t
                  && OnScript(v.tasks[t], DeviceOf(v, w.tasks[t].serial))
             else w.tasks[t].serial !in v.lock
    ensures LocksHold(v)
  {
    forall i | 0 <= i < |v.tasks| && v.tasks[i].phase.Running?
      ensures v.tasks[i].serial in v.lock && v.lock[v.tasks[i].serial] == i
           && OnScript(v.tasks[i], DeviceOf(v, v.tasks[i].serial))
    {
      if i != t {
        assert w.tasks[i].phase.Running? && w.tasks[i].serial != w.tasks[t].serial;
      }
    }
  }

  lemma SpawnKeepsLocks(w: World, s: Serial, job: Job)
    requires LocksHold(w)
    ensures LocksHold(Do(w, Spawn(s, job)))
  {
    var v := Do(w, Spawn(s, job));
    forall i | 0 <= i < |v.tasks| && v.tasks[i].phase.Running?
      ensures v.tasks[i].serial in v.lock && v.lock[v.tasks[i].serial] == i
           && OnScript(v.tasks[i], DeviceOf(v, v.tasks[i].serial))
    {
      assert i < |w.tasks| && v.tasks[i] == w.tasks[i];
    }
  }

  lemma SkipKeepsLocks(w: World, t: TaskId, phase: Phase)
    requires LocksHold(w) && t < |w.tasks| && w.tasks[t].phase.Waiting? && !phase.Running?
    ensures LocksHold(SetPhase(w, t, phase))
  {
    var v := SetPhase(w, t, phase);
    forall i | 0 <= i < |v.tasks| && v.tasks[i].phase.Running?
      ensures v.tasks[i].serial in v.lock && v.lock[v.tasks[i].serial] == i
           && OnScript(v.tasks[i], DeviceOf(v, v.tasks[i].serial))
    {
      assert v.tasks[i] == w.tasks[i];
    }
  }

  /** What a command leaves alone: the other calls, the other phones, the other locks. */
  lemma ExecTouchesOwn(w: World, t: TaskId, o: Outcome)
    requires Enabled(w, Exec(t, o))
    ensures var k, v := w.tasks[t], Do(w, Exec(t, o)); var d := DeviceOf(w, k.serial);
            && |v.tasks| == |w.tasks| && v.tasks[t] == k.(phase := ExecPhase(k, o, d))
            && (forall i :: 0 <= i < |w.tasks| && i != t ==> v.tasks[i] == w.tasks[i])
            && v.devices == w.devices[k.serial := After(d, CurrentStep(k).cmd, o)]
            && v.lock == if ExecPhase(k, o, d).Finished? then w.lock - {k.serial} else w.lock
  {
  }

  lemma ExecKeepsLocks(w: World, t: TaskId, o: Outcome)
    requires LocksHold(w) && Enabled(w, Exec(t, o))
    ensures LocksHold(Do(w, Exec(t, o)))
  {
    var k, d := w.tasks[t], DeviceOf(w, w.tasks[t].serial);
    assert OnScript(k, d);
    ExecTouchesOwn(w, t, o);
    if ExecPhase(k, o, d).Running? {
      ExecGoesOn(k, d, o);
    }
    OthersKeepTheirLocks(w, Do(w, Exec(t, o)), t);
  }

  /** Mutual exclusion and atomicity survive every step, whatever fails. */
  lemma StepKeepsLocks(w: World, a: Action)
    requires LocksHold(w) && Enabled(w, a)
    ensures LocksHold(Do(w, a))
  {
    match a
    case Spawn(s, job) => SpawnKeepsLocks(w, s, job);
    case Exec(t, o) => ExecKeepsLocks(w, t, o);
    case Acquire(t) =>
      if w.tasks[t].serial in w.lock {
        SkipKeepsLocks(w, t, Do(w, a).tasks[t].phase);
      } else {
        OthersKeepTheirLocks(w, Do(w, a), t);
      }
    case Cancel(t) =>
      if w.tasks[t].phase.Running? {
        OthersKeepTheirLocks(w, Do(w, a), t);
      } else {
        SkipKeepsLocks(w, t, Do(w, a).tasks[t].phase);
      }
  }

  /** Two calls never work on one phone at the same time. */
  lemma OneCallPerDevice(w: World, t: TaskId, u: TaskId)
    requires LocksHold(w) && t < |w.tasks| && u < |w.tasks|
    requires w.tasks[t].phase.Running? && w.tasks[u].phase.Running? && w.tasks[t].serial == w.tasks[u].serial
    ensures t == u
  {
  }

  /** The clear of a `remove` on phone `s` took effect; this is the only command assumed to. */
  predicate ClearsTakeEffect(w: World, a: Action, s: Serial)
    requires Enabled(w, a)
  {
    a.Exec? && w.tasks[a.t].serial == s && CurrentStep(w.tasks[a.t]).cmd.ClearProxy? ==> !a.o.FailedIdle?
  }

  ghost predicate TaskSafe(k: Task) {
    && k.phase.Running?
    && k.phase.start.Safe()
    && (k.job.Remove? && k.phase.os != [] ==> !k.phase.os[0].FailedIdle?)
  }

  /** The phone is safe, and so was it when the call now at work on it, if any, found it. Nothing
      is said of other phones. */
  ghost predicate SafeAt(w: World, s: Serial) {
    && LocksHold(w)
    && DeviceOf(w, s).Safe()
    && (forall t :: 0 <= t < |w.tasks| && w.tasks[t].phase.Running? && w.tasks[t].serial == s ==> TaskSafe(w.tasks[t]))
  }

  lemma {:induction false} ProbePrefix(d: Device, job: Job, os: seq<Outcome>)
    requires !Waits(job) && |os| <= |Script(job)|
    ensures Prefix(d, Script(job), os) == d
    decreases |os|
  {
    if os != [] {
      ProbePrefix(d, job, os[..|os| - 1]);
    }
  }

  lemma AddOneMore(d: Device, m: Port, wait: bool, os: seq<Outcome>)
    requires d.Safe() && 0 < |os| <= |Script(Add(m, wait))| && Passed(Script(Add(m, wait)), os[..|os| - 1])
    ensures Prefix(d, Script(Add(m, wait)), os).Safe()
  {
    AddEffects(d, m, wait, os);
    AddBearing(m, wait, os[..|os| - 1]);
  }

  lemma SafePrefix(d: Device, job: Job, os: seq<Outcome>)
    requires d.Safe() && |os| <= |Script(job)| && Passed(Script(job), os[..if os == [] then 0 else |os| - 1])
    requires job.Remove? && os != [] ==> !os[0].FailedIdle?
    ensures Prefix(d, Script(job), os).Safe()
  {
    if os != [] {
      match job
      case Add(m, wait) => AddOneMore(d, m, wait, os);
      case Remove => RemovePrefix(d, os);
      case _ => ProbePrefix(d, job, os);
    }
  }

  /** One command of the holder, from a state its script put the phone in. */
  lemma ExecSafe(k: Task, d: Device, o: Outcome)
    requires OnScript(k, d) && TaskSafe(k)
    requires CurrentStep(k).cmd.ClearProxy? ==> !o.FailedIdle?
    ensures After(d, CurrentStep(k).cmd, o).Safe()
  {
    var os := k.phase.os + [o];
    ExecPrefix(k, d, o);
    assert os[..|os| - 1] == k.phase.os;
    assert k.phase.os != [] ==> os[0] == k.phase.os[0];
    SafePrefix(k.phase.start, k.job, os);
  }

  /** The call that runs a command keeps what it needs to stay safe. */
  lemma ExecTaskSafe(w: World, t: TaskId, o: Outcome)
    requires Enabled(w, Exec(t, o)) && TaskSafe(w.tasks[t]) && ClearsTakeEffect(w, Exec(t, o), w.tasks[t].serial)
    requires OnScript(w.tasks[t], DeviceOf(w, w.tasks[t].serial))
    ensures var k := Do(w, Exec(t, o)).tasks[t]; k.phase.Running? ==> TaskSafe(k)
  {
    var k := w.tasks[t];
    var os := k.phase.os + [o];
    assert os[0] == if k.phase.os == [] then o else k.phase.os[0];
  }

  lemma ExecKeepsSafe(w: World, t: TaskId, o: Outcome, s: Serial)
    requires SafeAt(w, s) && Enabled(w, Exec(t, o)) && ClearsTakeEffect(w, Exec(t, o), s)
    ensures SafeAt(Do(w, Exec(t, o)), s)
  {
    ExecKeepsLocks(w, t, o);
    ExecTouchesOwn(w, t, o);
    if w.tasks[t].serial == s {
      ExecSafe(w.tasks[t], DeviceOf(w, s), o);
      ExecTaskSafe(w, t, o);
    }
    OneTaskMoved(w, Do(w, Exec(t, o)), t, s);
  }

  lemma OneTaskMoved(w: World, v: World, t: TaskId, s: Serial)
    requires SafeAt(w, s) && LocksHold(v) && t < |w.tasks| && |v.tasks| == |w.tasks| && DeviceOf(v, s).Safe()
    requires v.tasks[t].serial == w.tasks[t].serial
    requires forall i :: 0 <= i < |w.tasks| && i != t ==> v.tasks[i] == w.tasks[i]
    requires v.tasks[t].phase.Running? && v.tasks[t].serial == s ==> TaskSafe(v.tasks[t])
    ensures SafeAt(v, s)
  {
  }

  /** Every step of Pane, by any call on any phone, keeps a safe phone safe. */
  lemma StepKeepsSafe(w: World, a: Action, s: Serial)
    requires SafeAt(w, s) && Enabled(w, a) && ClearsTakeEffect(w, a, s)
    ensures SafeAt(Do(w, a), s)
  {
    if a.Exec? {
      ExecKeepsSafe(w, a.t, a.o, s);
    } else {
      StepKeepsLocks(w, a);
      var v := Do(w, a);
      assert v.devices == w.devices;
      forall i | 0 <= i < |v.tasks| && v.tasks[i].phase.Running? && v.tasks[i].serial == s
        ensures TaskSafe(v.tasks[i])
      {
        if i < |w.tasks| && v.tasks[i] == w.tasks[i] {
        } else {
          assert a.Acquire? && v.tasks[i].phase.start == DeviceOf(w, s);
        }
      }
    }
  }

  /** What one command can do to a safe phone. */
  lemma ApplyStrandsExactly(d: Device, cmd: Command)
    requires d.Safe()
    ensures !Apply(d, cmd).Safe() <==> (cmd == RemoveReverse(8888) && d.proxy.Ours?) || (cmd.PutProxy? && 8888 !in d.reverses)
  {
  }

  /** When the proxy is set, the tunnel is there. */
  lemma PutProxyHasTunnel(k: Task, d: Device)
    requires OnScript(k, d) && CurrentStep(k).cmd.PutProxy?
    ensures 8888 in d.reverses
  {
    if k.job.Add? {
      AddPrefix(k.phase.start, k.job.macPort, k.job.wait, k.phase.os);
      PutProxyAt(k.job.macPort, k.job.wait, |k.phase.os|);
    }
  }

  lemma ExecStrandsExactly(k: Task, d: Device, o: Outcome)
    requires OnScript(k, d) && d.Safe()
    ensures !After(d, CurrentStep(k).cmd, o).Safe() <==>
            CurrentStep(k).cmd == RemoveReverse(8888) && !o.FailedIdle? && d.proxy.Ours?
  {
    ApplyStrandsExactly(d, CurrentStep(k).cmd);
    if CurrentStep(k).cmd.PutProxy? {
      PutProxyHasTunnel(k, d);
    }
  }

  lemma PutProxyAt(m: Port, wait: bool, n: nat)
    requires n < |Script(Add(m, wait))| && Script(Add(m, wait))[n].cmd.PutProxy?
    ensures n == Offset(wait) + 7
  {
    AddCommand(m, wait, n);
  }

  /** Exactly one kind of step can strand a phone: taking the data tunnel away while the proxy
      setting still points at it. */
  lemma StepStrandsExactly(w: World, a: Action, s: Serial)
    requires LocksHold(w) && Enabled(w, a) && DeviceOf(w, s).Safe()
    ensures !DeviceOf(Do(w, a), s).Safe() <==>
            && a.Exec? && w.tasks[a.t].serial == s && CurrentStep(w.tasks[a.t]).cmd == RemoveReverse(8888)
            && !a.o.FailedIdle? && DeviceOf(w, s).proxy.Ours?
  {
    if a.Exec? && w.tasks[a.t].serial == s {
      ExecStrandsExactly(w.tasks[a.t], DeviceOf(w, s), a.o);
      assert DeviceOf(Do(w, a), s) == After(DeviceOf(w, s), CurrentStep(w.tasks[a.t]).cmd, a.o);
    } else {
      assert DeviceOf(Do(w, a), s) == DeviceOf(w, s);
    }
  }

  // ---- Whole runs ------------------------------------------------------------------------

  /** A run is the list of its worlds, joined by enabled steps. */
  ghost predicate IsRun(ws: seq<World>, acts: seq<Action>) {
    && |ws| == |acts| + 1
    && forall i :: 0 <= i < |acts| ==> Enabled(ws[i], acts[i]) && ws[i + 1] == Do(ws[i], acts[i])
  }

  /** How a session begins: no call yet, whatever state an earlier session left the phones in. */
  lemma SessionStart(w: World, s: Serial)
    requires w.lock == map[] && w.tasks == []
    ensures LocksHold(w) && (DeviceOf(w, s).Safe() ==> SafeAt(w, s))
  {
  }

  lemma {:induction false} RunsKeepLocks(ws: seq<World>, acts: seq<Action>, n: nat)
    requires IsRun(ws, acts) && n < |ws| && LocksHold(ws[0])
    ensures LocksHold(ws[n])
    decreases n
  {
    if n > 0 {
      RunsKeepLocks(ws, acts, n - 1);
      StepKeepsLocks(ws[n - 1], acts[n - 1]);
    }
  }

  /** A phone that is safe at some point of a run stays safe as long as the clears on it work,
      whatever else fails and whatever becomes of the other phones. */
  lemma {:induction false} RunsAreSafe(ws: seq<World>, acts: seq<Action>, from: nat, n: nat, s: Serial)
    requires IsRun(ws, acts) && from <= n < |ws| && SafeAt(ws[from], s)
    requires forall i :: from <= i < n ==> ClearsTakeEffect(ws[i], acts[i], s)
    ensures SafeAt(ws[n], s)
    decreases n
  {
    if n > from {
      RunsAreSafe(ws, acts, from, n - 1, s);
      StepKeepsSafe(ws[n - 1], acts[n - 1], s);
    }
  }

  /** No answer stops a `remove`. */
  lemma RemoveFinishes(k: Task, d: Device, o: Outcome)
    requires OnScript(k, d) && k.job.Remove? && ExecPhase(k, o, d).Finished?
    ensures ExecPhase(k, o, d).result.Ok?
  {
    assert forall n :: 0 <= n < |RemoveScript()| ==> !RemoveScript()[n].mustSucceed;
  }

  lemma ExecFinishes(k: Task, d: Device, o: Outcome)
    requires OnScript(k, d) && ExecPhase(k, o, d).Finished?
    ensures var phase, e := ExecPhase(k, o, d), After(d, CurrentStep(k).cmd, o);
            && |phase.os| <= |Script(k.job)| && e == Prefix(phase.start, Script(k.job), phase.os)
            && (k.job.Add? && phase.result.Ok? ==> e.Healthy(k.job.macPort))
            && (phase.result.Ok? ==> |phase.os| == |Script(k.job)| && Passed(Script(k.job), phase.os))
  {
    ExecPrefix(k, d, o);
    if ExecPhase(k, o, d).result.Ok? {
      ExecEndsWell(k, d, o);
      if k.job.Add? {
        AddPrefix(k.phase.start, k.job.macPort, k.job.wait, k.phase.os + [o]);
      }
    }
  }

  /** The step by which a call finishes leaves the phone as the call's own commands, run from
      the state in which it found the phone, leave it; an `add_usb` that returns `Ok` has given
      its lock back on a healthy phone; an `Ok` means that every command has run, and a `remove`
      that runs to its end always returns it. None of this needs the clears to work. */
  lemma FinishedCalls(ws: seq<World>, acts: seq<Action>, n: nat, t: TaskId)
    requires IsRun(ws, acts) && LocksHold(ws[0]) && n < |acts| && acts[n].Exec? && acts[n].t == t
    requires ws[n + 1].tasks[t].phase.Finished?
    ensures var k := ws[n + 1].tasks[t]; var d := DeviceOf(ws[n + 1], k.serial);
            && k.serial !in ws[n + 1].lock
            && |k.phase.os| <= |Script(k.job)|
            && d == Prefix(k.phase.start, Script(k.job), k.phase.os)
            && (k.job.Add? && k.phase.result.Ok? ==> d.Healthy(k.job.macPort))
            && (k.phase.result.Ok? ==> |k.phase.os| == |Script(k.job)| && Passed(Script(k.job), k.phase.os))
            && (k.job.Remove? ==> k.phase.result.Ok?)
  {
    RunsKeepLocks(ws, acts, n);
    ExecTouchesOwn(ws[n], t, acts[n].o);
    ExecFinishes(ws[n].tasks[t], DeviceOf(ws[n], ws[n].tasks[t].serial), acts[n].o);
    if ws[n].tasks[t].job.Remove? {
      RemoveFinishes(ws[n].tasks[t], DeviceOf(ws[n], ws[n].tasks[t].serial), acts[n].o);
    }
  }

  /** Set-up and tear-down wait for their turn: only the two probes are ever turned away. */
  lemma {:induction false} OnlyProbesSkip(ws: seq<World>, acts: seq<Action>, n: nat, t: TaskId)
    requires IsRun(ws, acts) && ws[0].tasks == [] && n < |ws|
    requires t < |ws[n].tasks| && ws[n].tasks[t].phase.Finished? && ws[n].tasks[t].phase.result.Skipped?
    ensures ws[n].tasks[t].job.Probe? || ws[n].tasks[t].job.ProxyCheck?
    decreases n
  {
    if n > 0 {
      var w, v := ws[n - 1], ws[n];
      if t < |w.tasks| && w.tasks[t] == v.tasks[t] {
        OnlyProbesSkip(ws, acts, n - 1, t);
      } else {
        assert acts[n - 1].Acquire? && acts[n - 1].t == t;
      }
    }
  }

  /** No deadlock: a call that is not done can take its lock or run a command, unless another call on
      its phone holds the lock, and then that one can run a command. */
  lemma SomeoneCanMove(w: World, t: TaskId, o: Outcome)
    requires LocksHold(w) && t < |w.tasks| && !w.tasks[t].phase.Finished?
    ensures var s := w.tasks[t].serial;
            if s in w.lock then Enabled(w, Exec(w.lock[s], o)) && (w.tasks[t].phase.Running? ==> w.lock[s] == t)
            else Enabled(w, Acquire(t))
  {
    var s := w.tasks[t].serial;
    if s in w.lock {
      assert OnScript(w.tasks[w.lock[s]], DeviceOf(w, s));
    }
  }

  /** Repair: an `add_usb` that returns `Ok` makes even a stranded phone safe, and it stays safe for
      the rest of the run under the same condition. */
  lemma RepairLasts(ws: seq<World>, acts: seq<Action>, n: nat, t: TaskId, m: nat)
    requires IsRun(ws, acts) && LocksHold(ws[0]) && n < m < |ws| && acts[n].Exec? && acts[n].t == t
    requires var k := ws[n + 1].tasks[t]; k.job.Add? && k.phase.Finished? && k.phase.result.Ok?
    requires forall i :: n < i < m ==> ClearsTakeEffect(ws[i], acts[i], ws[n + 1].tasks[t].serial)
    ensures DeviceOf(ws[m], ws[n + 1].tasks[t].serial).Safe()
  {
    RunsKeepLocks(ws, acts, n + 1);
    FinishedCalls(ws, acts, n, t);
    RunsAreSafe(ws, acts, n + 1, m, ws[n + 1].tasks[t].serial);
  }

  /** What an `Ok` probe reports is one state of the phone, unchanged since the probe took the
      lock, with no other call at work on it. */
  lemma ProbeIsSnapshot(ws: seq<World>, acts: seq<Action>, n: nat, t: TaskId)
    requires IsRun(ws, acts) && LocksHold(ws[0]) && n < |acts| && acts[n].Exec? && acts[n].t == t
    requires var k := ws[n + 1].tasks[t]; k.job.Probe? && k.phase.Finished? && k.phase.result.Ok?
    ensures var k := ws[n + 1].tasks[t]; var d := DeviceOf(ws[n], k.serial);
            && d == k.phase.start == DeviceOf(ws[n + 1], k.serial)
            && k.phase.seen == Reading(d.reverses, d.proxy.Ours?)
            && forall u :: 0 <= u < |ws[n].tasks| && u != t && ws[n].tasks[u].phase.Running? ==>
                 ws[n].tasks[u].serial != k.serial
  {
    RunsKeepLocks(ws, acts, n);
    var k := ws[n].tasks[t];
    ProbePrefix(k.phase.start, k.job, k.phase.os);
    assert Script(k.job) == [Step(ListReverses, true), Step(GetProxy, true)];
  }

  /** The cheap check reads the same state; it looks at the proxy setting only. */
  lemma ProxyCheckIsSnapshot(ws: seq<World>, acts: seq<Action>, n: nat, t: TaskId)
    requires IsRun(ws, acts) && LocksHold(ws[0]) && n < |acts| && acts[n].Exec? && acts[n].t == t
    requires var k := ws[n + 1].tasks[t]; k.job.ProxyCheck? && k.phase.Finished? && k.phase.result.Ok?
    ensures var k := ws[n + 1].tasks[t]; var d := DeviceOf(ws[n], k.serial);
            d == k.phase.start == DeviceOf(ws[n + 1], k.serial) && k.phase.seen.ours == d.proxy.Ours?
  {
    RunsKeepLocks(ws, acts, n);
    var k := ws[n].tasks[t];
    ProbePrefix(k.phase.start, k.job, k.phase.os);
  }

  // ---- What a probe concludes ------------------------------------------------------------

  /** The phone's table holds Pane's own mappings only, and the calls that set it up were given
      ports of the pool. */
  ghost predicate TableAt(w: World, s: Serial) {
    && PaneTable(DeviceOf(w, s).reverses)
    && forall t :: 0 <= t < |w.tasks| && w.tasks[t].serial == s && w.tasks[t].job.Add? ==> InPool(w.tasks[t].job.macPort)
  }

  predicate PoolPort(a: Action, s: Serial) {
    a.Spawn? && a.serial == s && a.job.Add? ==> InPool(a.job.macPort)
  }

  lemma AddReverses(m: Port, k: nat)
    requires k < |AddScript(m)| && AddScript(m)[k].cmd.Reverse?
    ensures AddScript(m)[k].cmd in {Reverse(8888, m), Reverse(8889, 8889), Reverse(8890, 8890)}
  {
  }

  lemma ReverseCommands(job: Job, n: nat)
    requires n < |Script(job)| && Script(job)[n].cmd.Reverse?
    ensures job.Add? && Script(job)[n].cmd in {Reverse(8888, job.macPort), Reverse(8889, 8889), Reverse(8890, 8890)}
  {
    if job.Add? {
      AddCommand(job.macPort, job.wait, n);
      AddReverses(job.macPort, n - Offset(job.wait));
    }
  }

  lemma CommandKeepsTable(d: Device, job: Job, n: nat, o: Outcome)
    requires n < |Script(job)| && PaneTable(d.reverses) && (job.Add? ==> InPool(job.macPort))
    ensures PaneTable(After(d, Script(job)[n].cmd, o).reverses)
  {
    if Script(job)[n].cmd.Reverse? {
      ReverseCommands(job, n);
    }
    ApplyKeepsTable(d, Script(job)[n].cmd);
  }

  lemma ApplyKeepsTable(d: Device, cmd: Command)
    requires PaneTable(d.reverses)
    requires cmd.Reverse? ==> (cmd.device == 8888 && InPool(cmd.host)) || (cmd.device in {8889, 8890} && cmd.host == cmd.device)
    ensures PaneTable(Apply(d, cmd).reverses)
  {
  }

  lemma StepKeepsTables(w: World, a: Action, s: Serial)
    requires TableAt(w, s) && PoolPort(a, s) && Enabled(w, a)
    ensures TableAt(Do(w, a), s)
  {
    var v := Do(w, a);
    if a.Exec? && w.tasks[a.t].serial == s {
      var k := w.tasks[a.t];
      CommandKeepsTable(DeviceOf(w, s), k.job, |k.phase.os|, a.o);
      assert DeviceOf(v, s) == After(DeviceOf(w, s), CurrentStep(k).cmd, a.o);
    } else {
      assert DeviceOf(v, s) == DeviceOf(w, s);
    }
    forall t | 0 <= t < |v.tasks| && v.tasks[t].serial == s && v.tasks[t].job.Add?
      ensures InPool(v.tasks[t].job.macPort)
    {
      assert t < |w.tasks| ==> v.tasks[t].serial == w.tasks[t].serial && v.tasks[t].job == w.tasks[t].job;
    }
  }

  lemma {:induction false} RunsKeepTables(ws: seq<World>, acts: seq<Action>, n: nat, s: Serial)
    requires IsRun(ws, acts) && n < |ws| && TableAt(ws[0], s)
    requires forall i :: 0 <= i < |acts| ==> PoolPort(acts[i], s)
    ensures TableAt(ws[n], s)
    decreases n
  {
    if n > 0 {
      RunsKeepTables(ws, acts, n - 1, s);
      StepKeepsTables(ws[n - 1], acts[n - 1], s);
    }
  }

  /** The verdict `is_healthy` on the reading of an `Ok` probe, ports taken from the pool: it is
      true exactly of a healthy phone. */
  lemma ProbeVerdict(d: Device, serial: Serial, m: Port)
    requires PaneTable(d.reverses) && InPool(m)
    requires !Text.Contains(serial, Spec(m)) && !Text.Contains(serial, Spec(8888))
    ensures d.proxy.Ours? && ReverseUp(serial, d.reverses, m) <==> d.Healthy(m)
  {
    ProbeRightForPool(serial, d.reverses, m);
  }

  /** In every run that hands out pool ports only, the verdict of an `Ok` probe is true exactly of
      a phone that is healthy for the probed port, at the moment the probe returns. */
  lemma ProbeVerdictInRuns(ws: seq<World>, acts: seq<Action>, n: nat, t: TaskId)
    requires IsRun(ws, acts) && LocksHold(ws[0]) && n < |acts| && acts[n].Exec? && acts[n].t == t
    requires var k := ws[n + 1].tasks[t];
             && k.job.Probe? && InPool(k.job.port) && k.phase.Finished? && k.phase.result.Ok?
             && !Text.Contains(k.serial, Spec(k.job.port)) && !Text.Contains(k.serial, Spec(8888))
             && TableAt(ws[0], k.serial) && forall i :: 0 <= i < |acts| ==> PoolPort(acts[i], k.serial)
    ensures var k := ws[n + 1].tasks[t];
            k.phase.seen.ours && ReverseUp(k.serial, k.phase.seen.reverses, k.job.port)
            <==> DeviceOf(ws[n + 1], k.serial).Healthy(k.job.port)
  {
    var k := ws[n + 1].tasks[t];
    ProbeIsSnapshot(ws, acts, n, t);
    RunsKeepTables(ws, acts, n + 1, k.serial);
    ProbeVerdict(DeviceOf(ws[n + 1], k.serial), k.serial, k.job.port);
  }

  // ---- Without the lock ------------------------------------------------------------------

  function ApplyAll(d: Device, steps: seq<Step>): Device
    decreases |steps|
  {
    if steps == [] then d else ApplyAll(Apply(d, steps[0].cmd), steps[1..])
  }

  lemma {:induction false} ApplyAllConcat(d: Device, a: seq<Step>, b: seq<Step>)
    ensures ApplyAll(d, a + b) == ApplyAll(ApplyAll(d, a), b)
    decreases |a|
  {
    if a == [] {
      assert a + b == b;
    } else {
      ApplyAllConcat(Apply(d, a[0].cmd), a[1..], b);
      assert (a + b)[1..] == a[1..] + b;
    }
  }

  /** Of the commands of `add_usb` one sets the proxy and one opens the data tunnel. */
  lemma AddKeeps(d: Device, m: Port, i: nat)
    requires i < 10
    ensures var e := Apply(d, AddScript(m)[i].cmd);
            && (e.proxy.Ours? <==> i == 7 || d.proxy.Ours?) && (8888 in e.reverses <==> i == 3 || 8888 in d.reverses)
  {
    var cmd := AddScript(m)[i].cmd;
    assert cmd.PutProxy? <==> i == 7;
    assert cmd == Reverse(8888, m) <==> i == 3;
    assert !cmd.ClearProxy? && !cmd.RemoveReverse? && (cmd.Reverse? ==> cmd.device != 8888 || i == 3);
  }

  lemma {:induction false} AddSuffix(d: Device, m: Port, i: nat)
    requires i <= 10
    ensures var e := ApplyAll(d, AddScript(m)[i..]);
            && (i <= 7 || d.proxy.Ours? ==> e.proxy.Ours?)
            && (i <= 3 || 8888 in d.reverses ==> 8888 in e.reverses)
    decreases 10 - i
  {
    var a := AddScript(m);
    if i < 10 {
      AddKeeps(d, m, i);
      AddSuffix(Apply(d, a[i].cmd), m, i + 1);
      assert a[i..][1..] == a[i + 1..];
    }
  }

  lemma {:induction false} RemoveSuffix(d: Device, i: nat)
    requires i <= 7
    ensures var e := ApplyAll(d, RemoveScript()[i..]);
            && e.proxy == (if i == 0 then Cleared else d.proxy)
            && (8888 in e.reverses <==> 8888 in d.reverses && i > 4)
    decreases 7 - i
  {
    var r := RemoveScript();
    if i < 7 {
      RemoveCommand(d, i);
      RemoveSuffix(Apply(d, r[i].cmd), i + 1);
      assert r[i..][1..] == r[i + 1..];
    }
  }

  /** What the lock is there to forbid. Let a whole `add_usb` slip in behind the first `i`
      commands of a `remove`, nothing failing: the phone is stranded exactly when the proxy was
      already cleared and the data tunnel not yet taken away. */
  lemma UnlockedStrandsExactly(d: Device, m: Port, i: nat)
    requires i <= 7
    ensures !ApplyAll(d, RemoveScript()[..i] + AddScript(m) + RemoveScript()[i..]).Safe() <==> 1 <= i <= 4
  {
    var r, a := RemoveScript(), AddScript(m);
    ApplyAllConcat(d, r[..i] + a, r[i..]);
    ApplyAllConcat(d, r[..i], a);
    assert a[0..] == a;
    AddSuffix(ApplyAll(d, r[..i]), m, 0);
    RemoveSuffix(ApplyAll(ApplyAll(d, r[..i]), a), i);
  }
}
