/** The object that owns the per-serial locks and the property cache, and its two calls that
    change a phone, command by command (crates/pane-android/src/lib.rs). The outcome of each adb
    command is a parameter. */
module AndroidPlatform {
  import opened DeviceSetup
  import opened ReverseProbe

  class Phone {
    var proxy: Proxy
    var reverses: map<Port, Port>
    var pac: bool
    var pacUrl: bool
    var ca: bool
    var helper: bool

    function State(): Device
      reads this
    {
      Device(proxy, reverses, pac, pacUrl, ca, helper)
    }

    method Adb(cmd: Command, o: Outcome) returns (ok: bool)
      modifies this
      ensures State() == After(old(State()), cmd, o)
      ensures ok == o.Done?
    {
      if !o.FailedIdle? {
        match cmd {
          case Reverse(p, h) => reverses := reverses[p := h];
          case RemoveReverse(p) => reverses := reverses - {p};
          case PutProxy => proxy := Ours;
          case ClearProxy => proxy := Cleared;
          case PutPac => pac := true;
          case PutPacUrl => pacUrl := true;
          case DeletePac => pac := false;
          case DeletePacUrl => pacUrl := false;
          case InstallCa => ca := true;
          case StartHelper => helper := true;
          case StopHelper => helper := false;
          case _ =>
        }
      }
      ok := o.Done?;
    }
  }

  /** How many commands of a script run: up to the first load-bearing failure. */
  function Executed(steps: seq<Step>, os: seq<Outcome>): (n: nat)
    requires |os| == |steps|
    ensures n <= |steps|
  {
    if steps == [] then 0
    else if steps[0].mustSucceed && !os[0].Done? then 1
    else 1 + Executed(steps[1..], os[1..])
  }

  lemma {:induction false} ExecutedAt(steps: seq<Step>, os: seq<Outcome>, k: nat)
    requires |os| == |steps| && k <= |steps| && Passed(steps, os[..k])
    ensures k == |steps| ==> Executed(steps, os) == k
    ensures k < |steps| && steps[k].mustSucceed && !os[k].Done? ==> Executed(steps, os) == k + 1
    decreases k
  {
    if k > 0 {
      assert os[..k][0] == os[0];
      forall i | 0 <= i < k - 1
        ensures steps[1..][i].mustSucceed ==> os[1..][..k - 1][i].Done?
      {
        assert os[1..][..k - 1][i] == os[..k][i + 1];
      }
      ExecutedAt(steps[1..], os[1..], k - 1);
    }
  }

  lemma Stopped(start: Device, m: Port, wait: bool, adb: seq<Outcome>, k: nat)
    requires |adb| == |Script(Add(m, wait))| && k < |adb| && !adb[k].Done?
    requires k in {Offset(wait) + 3, Offset(wait) + 7} || (wait && k == 0)
    requires wait && k > 0 ==> adb[0].Done?
    requires k > Offset(wait) + 3 ==> adb[Offset(wait) + 3].Done?
    ensures Executed(Script(Add(m, wait)), adb) == k + 1 && !Passed(Script(Add(m, wait)), adb)
    ensures start.Safe() ==> Prefix(start, Script(Add(m, wait)), adb[..k + 1]).Safe()
  {
    AddBearing(m, wait, adb);
    AddBearing(m, wait, adb[..k]);
    AddBearing(m, wait, adb[..k + 1]);
    ExecutedAt(Script(Add(m, wait)), adb, k);
    if start.Safe() {
      assert adb[..k + 1][..k] == adb[..k];
      SafePrefix(start, Add(m, wait), adb[..k + 1]);
    }
  }

  lemma Completed(start: Device, m: Port, wait: bool, adb: seq<Outcome>)
    requires |adb| == |Script(Add(m, wait))|
    requires (wait ==> adb[0].Done?) && adb[Offset(wait) + 3].Done? && adb[Offset(wait) + 7].Done?
    ensures Executed(Script(Add(m, wait)), adb) == |adb| && Passed(Script(Add(m, wait)), adb)
    ensures Prefix(start, Script(Add(m, wait)), adb).Healthy(m)
  {
    AddBearing(m, wait, adb);
    assert adb[..|adb|] == adb;
    ExecutedAt(Script(Add(m, wait)), adb, |adb|);
    AddPrefix(start, m, wait, adb);
  }

  datatype Props = Props(manufacturer: string, model: string, release: string) {
    predicate Blank() {
      manufacturer == "" && model == "" && release == ""
    }
  }

  class Mutex {
    constructor () {}
  }

  class Platform {
    var serialLocks: map<Serial, Mutex>
    var propsCache: map<Serial, Props>

    /** One lock per serial, and no lock shared by two. */
    ghost predicate Valid()
      reads this
    {
      && (forall s, t :: s in serialLocks && t in serialLocks && serialLocks[s] == serialLocks[t] ==> s == t)
      && (forall s :: s in propsCache ==> !propsCache[s].Blank())
    }

    constructor ()
      ensures Valid() && serialLocks == map[] && propsCache == map[]
    {
      serialLocks, propsCache := map[], map[];
    }

    /** The same serial always gets the same lock, another serial another one. */
    method SerialLock(serial: Serial) returns (lock: Mutex)
      requires Valid()
      modifies this`serialLocks
      ensures Valid()
      ensures serialLocks == old(serialLocks)[serial := lock]
      ensures serial in old(serialLocks) ==> lock == old(serialLocks)[serial]
      ensures serial !in old(serialLocks) ==> fresh(lock)
    {
      if serial in serialLocks {
        lock := serialLocks[serial];
      } else {
        lock := new Mutex();
        serialLocks := serialLocks[serial := lock];
      }
    }

    /** `probed` is what `getprop` would answer now; a blank answer is never remembered. */
    method DeviceProps(serial: Serial, probed: Props) returns (r: Props)
      requires Valid()
      modifies this`propsCache
      ensures Valid()
      ensures r == if serial in old(propsCache) then old(propsCache)[serial] else probed
      ensures propsCache == if serial in old(propsCache) || probed.Blank() then old(propsCache)
                            else old(propsCache)[serial := probed]
    {
      if serial in propsCache {
        return propsCache[serial];
      }
      if probed.manufacturer != "" || probed.model != "" || probed.release != "" {
        propsCache := propsCache[serial := probed];
      }
      r := probed;
    }

    method Run(phone: Phone, ghost start: Device, steps: seq<Step>, k: nat, adb: seq<Outcome>) returns (ok: bool)
      requires |adb| == |steps| && k < |steps| && phone.State() == Prefix(start, steps, adb[..k])
      modifies phone
      ensures phone.State() == Prefix(start, steps, adb[..k + 1])
      ensures ok == adb[k].Done?
    {
      ok := phone.Adb(steps[k].cmd, adb[k]);
      assert adb[..k + 1][..|adb[..k + 1]| - 1] == adb[..k];
    }

    /** Commands whose answers are ignored. */
    method RunIgnored(phone: Phone, ghost start: Device, steps: seq<Step>, from: nat, til: nat, adb: seq<Outcome>)
      requires |adb| == |steps| && from <= til <= |steps| && phone.State() == Prefix(start, steps, adb[..from])
      modifies phone
      ensures phone.State() == Prefix(start, steps, adb[..til])
    {
      for k := from to til
        invariant phone.State() == Prefix(start, steps, adb[..k])
      {
        var ignored := Run(phone, start, steps, k, adb);
      }
    }

    /** The first part of `add_usb`, up to the data tunnel. */
    method OpenTunnel(phone: Phone, ghost start: Device, macPort: Port, wait: bool, adb: seq<Outcome>) returns (ok: bool)
      requires |adb| == |Script(Add(macPort, wait))| && phone.State() == start
      modifies phone
      ensures var steps := Script(Add(macPort, wait));
              if ok then
                && phone.State() == Prefix(start, steps, adb[..Offset(wait) + 4])
                && (wait ==> adb[0].Done?) && adb[Offset(wait) + 3].Done?
              else
                && phone.State() == Prefix(start, steps, adb[..Executed(steps, adb)]) && !Passed(steps, adb)
                && (start.Safe() ==> phone.State().Safe())
    {
      var steps := Script(Add(macPort, wait));
      assert adb[..0] == [];
      if wait {
        ok := Run(phone, start, steps, 0, adb);
        if !ok {
          Stopped(start, macPort, wait, adb, 0);
          return;
        }
      }
      RunIgnored(phone, start, steps, Offset(wait), Offset(wait) + 3, adb);
      ok := Run(phone, start, steps, Offset(wait) + 3, adb);
      if !ok {
        Stopped(start, macPort, wait, adb, Offset(wait) + 3);
      }
    }

    /** `add_usb` under the lock. It stops at the first load-bearing failure; an `Ok` means a
        healthy phone, and no outcome turns a safe phone into a stranded one. */
    method AddUsb(phone: Phone, macPort: Port, wait: bool, adb: seq<Outcome>) returns (ok: bool)
      requires |adb| == |Script(Add(macPort, wait))|
      modifies phone
      ensures var steps := Script(Add(macPort, wait));
              && phone.State() == Prefix(old(phone.State()), steps, adb[..Executed(steps, adb)])
              && (ok <==> Passed(steps, adb))
      ensures ok ==> phone.State().Healthy(macPort)
      ensures (forall o :: o in adb ==> o.Done?) ==>
                ok && phone.State() == Device(Ours, old(phone.reverses)[8888 := macPort][8889 := 8889][8890 := 8890], true, true, true, true)
      ensures old(phone.State()).Safe() ==> phone.State().Safe()
    {
      var steps := Script(Add(macPort, wait));
      ghost var start := phone.State();
      var base := Offset(wait);
      ok := OpenTunnel(phone, start, macPort, wait, adb);
      if !ok {
        return;
      }
      RunIgnored(phone, start, steps, base + 4, base + 7, adb);
      ok := Run(phone, start, steps, base + 7, adb);
      if !ok {
        Stopped(start, macPort, wait, adb, base + 7);
        return;
      }
      RunIgnored(phone, start, steps, base + 8, base + 10, adb);
      assert adb[..base + 10] == adb;
      Completed(start, macPort, wait, adb);
      if forall o :: o in adb ==> o.Done? {
        AddCompletes(start, macPort, wait, adb);
      }
    }

    /** `remove` runs all its commands whatever they answer. */
    method RemoveDevice(phone: Phone, adb: seq<Outcome>)
      requires |adb| == |RemoveScript()|
      modifies phone
      ensures phone.State() == Prefix(old(phone.State()), RemoveScript(), adb)
      ensures (forall o :: o in adb ==> o.Done?) ==>
                phone.State() == Device(Cleared, old(phone.reverses) - {8888, 8889, 8890}, false, false, old(phone.ca), false)
      ensures old(phone.State()).Safe() && !adb[0].FailedIdle? ==> phone.State().Safe()
    {
      ghost var start := phone.State();
      assert adb[..0] == [] && adb[..7] == adb;
      RunIgnored(phone, start, RemoveScript(), 0, 7, adb);
      RemovePrefix(start, adb);
      if forall o :: o in adb ==> o.Done? {
        RemoveCleans(start, adb);
      }
    }
  }
}
