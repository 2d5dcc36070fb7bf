// Managed services: which installed version is used, and who owns the spawned child process. A child
// lives in a job object that kills its members when its handle is closed.
module Providers {
  import opened Options
  import opened Sequences

  datatype Version = Version(name: string, path: string, isService: bool)

  /** An executable found on disk, with the version read from it. */
  datatype Executable = Executable(path: string, version: string)

  // ----- Version detection -----

  function Filter(found: seq<Executable>, within: string -> bool, wanted: bool): (r: seq<Executable>)
    ensures forall e :: e in r <==> e in found && within(e.path) == wanted
  {
    if found == [] then []
    else
      var last := found[|found| - 1];
      Filter(found[..|found| - 1], within, wanted) + (if within(last.path) == wanted then [last] else [])
  }

  /** What the stable sort by "under the preferred root" produces. */
  function PreferredFirst(found: seq<Executable>, within: string -> bool): seq<Executable> {
    Filter(found, within, true) + Filter(found, within, false)
  }

  lemma PreferredComeFirst(found: seq<Executable>, within: string -> bool, i: nat, j: nat)
    requires var r := PreferredFirst(found, within); i < j < |r| && within(r[j].path)
    ensures within(PreferredFirst(found, within)[i].path)
  {
    var preferred, others := Filter(found, within, true), Filter(found, within, false);
    assert forall k | 0 <= k < |others| :: !within(others[k].path) by {
      assert forall k | 0 <= k < |others| :: others[k] in others;
    }
    assert preferred[i] in preferred;
  }

  lemma OrderKeptWithin(found: seq<Executable>, within: string -> bool, wanted: bool)
    ensures Filter(PreferredFirst(found, within), within, wanted) == Filter(found, within, wanted)
  {
    var preferred, others := Filter(found, within, true), Filter(found, within, false);
    FilterConcat(preferred, others, within, wanted);
    FilterUniform(preferred, within, true, wanted);
    FilterUniform(others, within, false, wanted);
  }

  /** It is that sort: a permutation, ordered, and stable within each of the two classes. */
  lemma PreferredFirstIsStableSort(found: seq<Executable>, within: string -> bool)
    ensures multiset(PreferredFirst(found, within)) == multiset(found)
    ensures var r := PreferredFirst(found, within);
            forall i, j | 0 <= i < j < |r| && within(r[j].path) :: within(r[i].path)
    ensures forall wanted :: Filter(PreferredFirst(found, within), within, wanted) == Filter(found, within, wanted)
  {
    var r := PreferredFirst(found, within);
    FilterPermutes(found, within);
    forall i, j | 0 <= i < j < |r| && within(r[j].path) ensures within(r[i].path) {
      PreferredComeFirst(found, within, i, j);
    }
    forall wanted ensures Filter(r, within, wanted) == Filter(found, within, wanted) {
      OrderKeptWithin(found, within, wanted);
    }
  }

  lemma CountedWithLast(a: seq<Executable>, last: Executable)
    ensures multiset(a + [last]) == multiset(a) + multiset{last}
  {
  }

  lemma KeptPermutes(x: seq<Executable>, y: seq<Executable>, all: seq<Executable>, last: Executable)
    requires multiset(x) + multiset(y) == multiset(all)
    ensures multiset(x + [last]) + multiset(y) == multiset(all + [last])
  {
    CountedWithLast(x, last);
    CountedWithLast(all, last);
  }

  lemma OtherPermutes(x: seq<Executable>, y: seq<Executable>, all: seq<Executable>, last: Executable)
    requires multiset(x) + multiset(y) == multiset(all)
    ensures multiset(x) + multiset(y + [last]) == multiset(all + [last])
  {
    CountedWithLast(y, last);
    CountedWithLast(all, last);
  }

  lemma {:induction false} FilterPermutes(found: seq<Executable>, within: string -> bool)
    ensures multiset(Filter(found, within, true)) + multiset(Filter(found, within, false)) == multiset(found)
    decreases |found|
  {
    if found != [] {
      var front, last := found[..|found| - 1], found[|found| - 1];
      FilterPermutes(front, within);
      FrontAndLast(found);
      FilterSnoc(front, last, within, true);
      FilterSnoc(front, last, within, false);
      if within(last.path) {
        KeptPermutes(Filter(front, within, true), Filter(front, within, false), front, last);
      } else {
        OtherPermutes(Filter(front, within, true), Filter(front, within, false), front, last);
      }
    }
  }

  lemma FilterSnoc(a: seq<Executable>, last: Executable, within: string -> bool, wanted: bool)
    ensures Filter(a + [last], within, wanted) ==
            if within(last.path) == wanted then Filter(a, within, wanted) + [last] else Filter(a, within, wanted)
  {
    assert (a + [last])[..|a|] == a;
    assert Filter(a, within, wanted) + [] == Filter(a, within, wanted);
  }

  lemma {:induction false} FilterConcat(a: seq<Executable>, b: seq<Executable>, within: string -> bool, wanted: bool)
    ensures Filter(a + b, within, wanted) == Filter(a, within, wanted) + Filter(b, within, wanted)
    decreases |b|
  {
    if b == [] {
      assert a + b == a;
    } else {
      var front, last := b[..|b| - 1], b[|b| - 1];
      FrontAndLast(b);
      Associative(a, front, [last]);
      FilterSnoc(a + front, last, within, wanted);
      FilterSnoc(front, last, within, wanted);
      FilterConcat(a, front, within, wanted);
      Associative(Filter(a, within, wanted), Filter(front, within, wanted), [last]);
    }
  }

  lemma {:induction false} FilterUniform(a: seq<Executable>, within: string -> bool, kind: bool, wanted: bool)
    requires forall e | e in a :: within(e.path) == kind
    ensures Filter(a, within, wanted) == if wanted == kind then a else []
    decreases |a|
  {
    if a != [] {
      FilterUniform(a[..|a| - 1], within, kind, wanted);
      assert a == a[..|a| - 1] + [a[|a| - 1]];
      assert a[|a| - 1] in a;
    }
  }

  predicate Known(versions: seq<Version>, name: string) {
    exists v | v in versions :: v.name == name
  }

  /** Appends each executable whose version is not known yet. */
  function Append(versions: seq<Version>, found: seq<Executable>): seq<Version> {
    if found == [] then versions
    else
      var earlier, last := Append(versions, found[..|found| - 1]), found[|found| - 1];
      if Known(earlier, last.version) then earlier else earlier + [Version(last.version, last.path, false)]
  }

  /** The versions of the appended executables are new and pairwise distinct, and none is missing. */
  lemma {:induction false} AppendedAreUnique(versions: seq<Version>, found: seq<Executable>)
    ensures var r := Append(versions, found);
            && versions <= r
            && (forall i, j | 0 <= i < j < |r| && j >= |versions| :: r[i].name != r[j].name)
            && (forall e | e in found :: Known(r, e.version))
            && (forall j | |versions| <= j < |r| ::
                  !r[j].isService && exists e | e in found :: e.version == r[j].name && e.path == r[j].path)
    decreases |found|
  {
    if found != [] {
      var front, last := found[..|found| - 1], found[|found| - 1];
      AppendedAreUnique(versions, front);
      var earlier, r := Append(versions, front), Append(versions, found);
      assert earlier <= r;
      assert forall v | v in earlier :: v in r;
      assert !Known(earlier, last.version) ==> r[|earlier|] in r;
      forall e | e in found ensures Known(r, e.version) {
        if e in front {
          var v :| v in earlier && v.name == e.version;
          assert v in r;
        } else {
          assert e == last;
        }
      }
      forall i | 0 <= i < |earlier| && !Known(earlier, last.version) ensures earlier[i].name != last.version {
        assert earlier[i] in earlier;
      }
    }
  }

  lemma {:induction false} AppendConcat(versions: seq<Version>, a: seq<Executable>, b: seq<Executable>)
    ensures Append(versions, a + b) == Append(Append(versions, a), b)
    decreases |b|
  {
    if b == [] {
      assert a + b == a;
    } else {
      assert (a + b)[..|a + b| - 1] == a + b[..|b| - 1];
      AppendConcat(versions, a, b[..|b| - 1]);
    }
  }

  /** A version found under the preferred root is kept with a path under it, unless a service has it. */
  lemma PreferredCopyIsKept(services: seq<Version>, found: seq<Executable>, within: string -> bool, e: Executable)
    requires e in found && within(e.path) && !Known(services, e.version)
    ensures var r := Append(services, PreferredFirst(found, within));
            exists j | 0 <= j < |r| :: r[j].name == e.version && within(r[j].path) && !r[j].isService
  {
    var preferred, others := Filter(found, within, true), Filter(found, within, false);
    var early := Append(services, preferred);
    AppendConcat(services, preferred, others);
    AppendedAreUnique(services, preferred);
    AppendedAreUnique(early, others);
    var v :| v in early && v.name == e.version;
    var j :| 0 <= j < |early| && early[j] == v;
    assert forall k | 0 <= k < |services| :: early[k] == services[k] && early[k] in services;
    assert Append(services, PreferredFirst(found, within))[j] == v;
  }

  /** Without services, the default version lies under the preferred root as soon as any version does. */
  lemma DefaultIsPreferred(found: seq<Executable>, within: string -> bool)
    requires exists e | e in found :: within(e.path)
    ensures var r := Append([], PreferredFirst(found, within));
            r != [] && within(r[0].path)
  {
    var preferred, others := Filter(found, within, true), Filter(found, within, false);
    var early := Append([], preferred);
    var e :| e in found && within(e.path);
    assert e in preferred;
    AppendConcat([], preferred, others);
    AppendedAreUnique([], preferred);
    AppendedAreUnique(early, others);
    assert Known(early, e.version);
    assert Append([], PreferredFirst(found, within))[0] == early[0];
  }

  /** A Windows service whose name matched, with the version read from it. */
  datatype Service = Service(version: string, isRunning: bool)

  function ServiceVersions(services: seq<Service>): (r: seq<Version>)
    ensures |r| == |services|
  {
    seq(|services|, i requires 0 <= i < |services| => Version(services[i].version, "", true))
  }

  /** The version a detection makes active: that of the last running service, else the one before. */
  function ActiveAfter(services: seq<Service>, active: string): string {
    if services == [] then active
    else if services[|services| - 1].isRunning then services[|services| - 1].version
    else ActiveAfter(services[..|services| - 1], active)
  }

  predicate LastRunning(services: seq<Service>, k: nat)
    requires k < |services|
  {
    services[k].isRunning && forall j | k < j < |services| :: !services[j].isRunning
  }

  /** A running service behind which no other runs decides; without a running one nothing changes. */
  lemma {:induction false} ActiveIsLastRunning(services: seq<Service>, active: string)
    ensures forall k | 0 <= k < |services| && LastRunning(services, k) ::
              ActiveAfter(services, active) == services[k].version
    ensures (forall k | 0 <= k < |services| :: !services[k].isRunning) ==> ActiveAfter(services, active) == active
    decreases |services|
  {
    if services != [] && !services[|services| - 1].isRunning {
      var front := services[..|services| - 1];
      ActiveIsLastRunning(front, active);
      forall k | 0 <= k < |services| && LastRunning(services, k)
        ensures ActiveAfter(services, active) == services[k].version
      {
        assert k < |front| && LastRunning(front, k);
      }
    }
  }

  /** First the services, without a path, then executables only. */
  predicate ServicesFirst(services: seq<Service>, versions: seq<Version>) {
    && |services| <= |versions|
    && (forall k | 0 <= k < |services| :: versions[k] == Version(services[k].version, "", true))
    && (forall k | |services| <= k < |versions| :: !versions[k].isService)
  }

  lemma DetectedServicesFirst(services: seq<Service>, found: seq<Executable>)
    ensures ServicesFirst(services, Append(ServiceVersions(services), found))
  {
    var versions := ServiceVersions(services);
    AppendedAreUnique(versions, found);
    assert forall k | 0 <= k < |versions| :: Append(versions, found)[k] == versions[k];
  }

  function FindVersion(versions: seq<Version>, requested: string): Option<Version> {
    if versions == [] then None
    else if requested == "" || versions[0].name == requested then Some(versions[0])
    else FindVersion(versions[1..], requested)
  }

  /** The requested version, or the default one when it is unknown or not named. */
  function Select(versions: seq<Version>, requested: string): Option<Version> {
    if versions == [] then None
    else
      match FindVersion(versions, requested)
      case None => Some(versions[0])
      case found => found
  }

  predicate FirstNamed(versions: seq<Version>, requested: string, k: nat) {
    k < |versions| && versions[k].name == requested && forall j | 0 <= j < k :: versions[j].name != requested
  }

  /** Selection fails only when nothing is installed; of a known version the first entry is taken. */
  lemma {:induction false} SelectHonoursRequest(versions: seq<Version>, requested: string)
    ensures Select(versions, requested).None? <==> versions == []
    ensures versions != [] ==> Select(versions, requested).value in versions
    ensures Known(versions, requested) && requested != "" ==>
              exists k | 0 <= k < |versions| :: FirstNamed(versions, requested, k) &&
                                                Select(versions, requested) == Some(versions[k])
    ensures versions != [] && (requested == "" || !Known(versions, requested)) ==>
              Select(versions, requested) == Some(versions[0])
  {
    if requested != "" {
      FindIsFirst(versions, requested);
    }
  }

  lemma {:induction false} FindIsFirst(versions: seq<Version>, requested: string)
    requires requested != ""
    ensures FindVersion(versions, requested).Some? <==> Known(versions, requested)
    ensures FindVersion(versions, requested).Some? ==>
              exists k | 0 <= k < |versions| :: FirstNamed(versions, requested, k) &&
                                                FindVersion(versions, requested) == Some(versions[k])
    decreases |versions|
  {
    if versions != [] {
      var rest := versions[1..];
      FindIsFirst(rest, requested);
      assert versions == [versions[0]] + rest;
      if versions[0].name == requested {
        assert FirstNamed(versions, requested, 0);
      } else if Known(rest, requested) {
        var k :| 0 <= k < |rest| && FirstNamed(rest, requested, k) && FindVersion(rest, requested) == Some(rest[k]);
        assert FirstNamed(versions, requested, k + 1);
      }
    }
  }

  // ----- Process ownership -----

  type Pid = int

  /** The process id the system hands out, and which steps of a spawn fail. */
  datatype Spawning = Spawning(pid: Pid, jobFails: bool, limitFails: bool, createFails: bool,
                               joinFails: bool, terminateFails: bool, exitsAtOnce: bool)
  {
    predicate CanLeak() {
      joinFails && terminateFails
    }
  }

  /** A service control request: whether the service can be opened, whether it accepts, what it then reports. */
  datatype Control = Control(opens: bool, accepted: bool, runningAfter: bool) {
    predicate Succeeds() {
      opens && accepted
    }
  }

  /** The termination of a child may fail, and the wait for it may time out, before or after it dies. */
  datatype Stopping = Stopping(terminateFails: bool, timesOut: bool, dies: bool, control: Control)

  datatype Operation =
    | Detect(services: seq<Service>, found: seq<Executable>)
    | Start(requested: string, spawning: Spawning, control: Control)
    | Stop(stopping: Stopping)
    | Restart(requested: string, stopping: Stopping, spawning: Spawning, control: Control)
    | ChildExits(pid: Pid)
  {
    predicate CanLeak() {
      match this
      case Start(_, spawning, _) => spawning.CanLeak()
      case Restart(_, _, spawning, _) => spawning.CanLeak()
      case _ => false
    }
  }

  class Provider {
    const within: string -> bool
    var versions: seq<Version>
    var active: string
    var running: bool
    var process: Option<Pid>
    /** The members of the held job object. */
    var job: Option<set<Pid>>
    /** The spawned children alive in the system. */
    var alive: set<Pid>
    /** The living ones that could be neither put into a job nor terminated. */
    ghost var leaked: set<Pid>

    constructor (within: string -> bool)
      ensures Valid() && alive == {} && leaked == {} && this.within == within
    {
      this.within := within;
      versions, active, running, process, job, alive, leaked := [], "", false, None, None, {}, {};
    }

    ghost function Held(): set<Pid>
      reads this
    {
      if process.Some? then {process.value} else {}
    }

    /** The job handle and the process handle belong together, and every living child is held or leaked. */
    ghost predicate Valid()
      reads this
    {
      && (if process.Some? then job == Some({process.value}) else job.None?)
      && leaked <= alive <= Held() + leaked && leaked !! Held()
    }

    /** Looks for services first, then for executables, those under the preferred root before the rest. */
    method Detect(services: seq<Service>, found: seq<Executable>)
      requires Valid()
      modifies `versions, `active, `running
      ensures Valid()
      ensures versions == Append(ServiceVersions(services), PreferredFirst(found, within))
      ensures ServicesFirst(services, versions)
      ensures var chosen := ActiveAfter(services, old(active));
              active == if chosen == "" && versions != [] then versions[0].name else chosen
      ensures forall k | 0 <= k < |services| && LastRunning(services, k) ::
                active == services[k].version || services[k].version == ""
      ensures running <==> exists s | s in services :: s.isRunning
      ensures !running && old(active) != "" ==> active == old(active)
    {
      ActiveIsLastRunning(services, active);
      DetectServices(services);
      DetectExecutables(found);
      DetectedServicesFirst(services, PreferredFirst(found, within));
      if active == "" && versions != [] {
        active := versions[0].name;
      }
    }

    method DetectServices(services: seq<Service>)
      modifies `versions, `active, `running
      ensures versions == ServiceVersions(services) && active == ActiveAfter(services, old(active))
      ensures running <==> exists s | s in services :: s.isRunning
    {
      versions, running := [], false;
      for k := 0 to |services|
        invariant versions == ServiceVersions(services[..k])
        invariant active == ActiveAfter(services[..k], old(active))
        invariant running <==> exists s | s in services[..k] :: s.isRunning
      {
        assert services[..k + 1] == services[..k] + [services[k]];
        assert services[..k + 1][..k] == services[..k];
        versions := versions + [Version(services[k].version, "", true)];
        if services[k].isRunning {
          active, running := services[k].version, true;
        }
      }
      assert services[..|services|] == services;
    }

    method DetectExecutables(found: seq<Executable>)
      modifies `versions
      ensures versions == Append(old(versions), PreferredFirst(found, within))
    {
      var ordered := PreferredFirst(found, within);
      for k := 0 to |ordered|
        invariant versions == Append(old(versions), ordered[..k])
      {
        assert ordered[..k + 1][..k] == ordered[..k];
        if !Known(versions, ordered[k].version) {
          versions := versions + [Version(ordered[k].version, ordered[k].path, false)];
        }
      }
      assert ordered[..|ordered|] == ordered;
    }

    /** Closing the last handle of a job kills its members. */
    method CloseJob(members: set<Pid>)
      modifies `alive
      ensures alive == old(alive) - members
    {
      alive := alive - members;
    }

    /** The system gives a new child no id that is in use or whose handle is held. */
    predicate Creates(s: Spawning)
      reads this
    {
      !s.jobFails && !s.limitFails && !s.createFails && s.pid !in alive && process != Some(s.pid)
    }

    /** A child is left behind exactly when it can be neither put into the job nor terminated. */
    predicate Leaks(s: Spawning)
      reads this
    {
      Creates(s) && s.CanLeak()
    }

    /** Spawns a child. A success replaces the previous child, which dies with its job; a failure leaves the
        previous child alone and, but for the one leaking case, no new child behind. */
    method Spawn(s: Spawning) returns (ok: bool)
      requires Valid()
      modifies this
      ensures Valid() && versions == old(versions) && active == old(active)
      ensures ok == old(Creates(s) && !s.joinFails && !s.exitsAtOnce)
      ensures ok <==> !s.jobFails && !s.limitFails && !s.createFails && !s.joinFails && !s.exitsAtOnce &&
                      s.pid !in old(alive) && old(process) != Some(s.pid)
      ensures s.jobFails || s.limitFails || s.createFails || !s.joinFails || !s.terminateFails ==> leaked == old(leaked)
      ensures leaked == old(leaked) + if old(Leaks(s)) then {s.pid} else {}
      ensures ok ==> process == Some(s.pid) && alive == {s.pid} + leaked && running
      ensures !ok ==> process == old(process) && job == old(job) && running == old(running)
      ensures !ok ==> alive == old(alive) + if old(Leaks(s)) then {s.pid} else {}
    {
      if !Creates(s) {
        return false;
      }
      alive := alive + {s.pid};
      if s.joinFails {
        if s.terminateFails {
          leaked := leaked + {s.pid};
        } else {
          alive := alive - {s.pid};
        }
        return false;
      }
      if s.exitsAtOnce {
        CloseJob({s.pid});
        return false;
      }
      running := true;
      process := Some(s.pid);
      if job.Some? {
        CloseJob(job.value);
      }
      job := Some({s.pid});
      return true;
    }

    /** Starts or stops a Windows service; only the reported status changes. */
    method ControlService(c: Control) returns (ok: bool)
      modifies `running
      ensures ok == c.Succeeds()
      ensures running == if c.opens then c.runningAfter else old(running)
    {
      if !c.opens {
        return false;
      }
      running := c.runningAfter;
      return c.accepted;
    }

    /** Starts the requested version, or the default one when that is not installed. */
    method Start(requested: string, s: Spawning, c: Control) returns (ok: bool)
      requires Valid()
      modifies this
      ensures Valid() && versions == old(versions)
      ensures ok == (versions != [] && if Select(versions, requested).value.isService then c.Succeeds()
                                       else old(Creates(s)) && !s.joinFails && !s.exitsAtOnce)
      ensures active == if versions == [] then old(active) else Select(versions, requested).value.name
      ensures leaked == old(leaked) + if !ServiceChosen(requested) && old(Leaks(s)) then {s.pid} else {}
      ensures ok && !ServiceChosen(requested) ==> process == Some(s.pid) && alive == {s.pid} + leaked
      ensures !ok || ServiceChosen(requested) ==> process == old(process) && alive == old(alive) + leaked
      ensures running == if !ServiceChosen(requested) then old(running) || ok
                         else if versions != [] && c.opens then c.runningAfter else old(running)
    {
      SelectHonoursRequest(versions, requested);
      var selected := Select(versions, requested);
      if selected.None? {
        return false;
      }
      active := selected.value.name;
      if selected.value.isService {
        ok := ControlService(c);
      } else {
        ok := Spawn(s);
      }
    }

    /** Nothing is spawned for a service, nor without any version. */
    predicate ServiceChosen(requested: string)
      reads this
    {
      versions == [] || Select(versions, requested).value.isService
    }

    /** Stops the held child with everything in its job, or else the selected service. */
    method Stop(t: Stopping) returns (ok: bool)
      requires Valid()
      modifies this
      ensures Valid() && versions == old(versions) && active == old(active) && leaked == old(leaked)
      ensures old(process).Some? ==> ok == (!t.terminateFails && !t.timesOut)
      ensures old(process).None? ==> ok == if ServiceChosen(active) && versions != [] then t.control.Succeeds()
                                           else !old(running)
      ensures process == if ok then None else old(process)
      ensures alive == if old(process).Some? && !t.terminateFails && (t.timesOut ==> t.dies)
                       then old(alive) - {old(process).value} else old(alive)
      ensures running == if old(process).Some? then old(running) && !ok
                         else if ServiceChosen(active) && versions != [] && t.control.opens then t.control.runningAfter
                         else old(running)
      ensures ok ==> alive <= leaked
    {
      if process.Some? {
        if t.terminateFails {
          return false;
        }
        if t.timesOut {
          if t.dies {
            alive := alive - job.value;
          }
          return false;
        }
        alive := alive - job.value;
        process, job, running := None, None, false;
        return true;
      }
      var selected := Select(versions, active);
      if selected.None? || !selected.value.isService {
        return !running;
      }
      ok := ControlService(t.control);
    }

    /** A stop, and a start only if that succeeded. */
    method Restart(requested: string, t: Stopping, s: Spawning, c: Control) returns (ok: bool)
      requires Valid()
      modifies this
      ensures Valid() && versions == old(versions)
      ensures ok ==> versions != [] && active == Select(versions, requested).value.name
      ensures ok && !ServiceChosen(requested) ==> process == Some(s.pid) && alive == {s.pid} + leaked
      ensures ok && ServiceChosen(requested) ==> process.None? && alive <= leaked
      ensures !ok ==> alive <= old(alive) + leaked && (process.None? || process == old(process))
      ensures old(process).Some? && (t.terminateFails || t.timesOut) ==> !ok && active == old(active)
      ensures !s.CanLeak() ==> leaked == old(leaked)
    {
      ok := Stop(t);
      if ok {
        ok := Start(requested, s, c);
      }
    }

    method Do(o: Operation)
      requires Valid()
      modifies this
      ensures Valid() && (!o.CanLeak() ==> leaked <= old(leaked))
    {
      match o {
        case Detect(services, found) => Detect(services, found);
        case Start(requested, spawning, control) => var _ := Start(requested, spawning, control);
        case Stop(stopping) => var _ := Stop(stopping);
        case Restart(requested, stopping, spawning, control) =>
          var _ := Restart(requested, stopping, spawning, control);
        case ChildExits(pid) => alive, leaked := alive - {pid}, leaked - {pid};
      }
    }

    /** Over every sequence of operations, children exiting by themselves in between: at most one spawned
        child is alive, and it is the held one, unless some spawn could neither put its child into the job
        nor terminate it. */
    method Run(operations: seq<Operation>)
      requires Valid()
      modifies this
      ensures Valid()
      ensures old(leaked) == {} && (forall o | o in operations :: !o.CanLeak()) ==> alive <= Held() && |alive| <= 1
    {
      ghost var sound := leaked == {} && forall o | o in operations :: !o.CanLeak();
      for k := 0 to |operations|
        invariant Valid() && (sound ==> leaked == {})
      {
        assert operations[k] in operations;
        Do(operations[k]);
      }
      if leaked == {} {
        SubsetOfOne(alive, Held());
      }
    }
  }

  lemma SubsetOfOne(a: set<Pid>, b: set<Pid>)
    requires a <= b && |b| <= 1
    ensures |a| <= 1
  {
    assert |b - a| + |a| == |b| by {
      assert b == (b - a) + a;
    }
  }
}
