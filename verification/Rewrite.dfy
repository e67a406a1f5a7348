/** The commands that rewrite the state file: pause, resume and kill (src/oci.c). Each is
    its own process: it reads the file, rebuilds a configuration from what it read, acts,
    and writes the file again. Every outside action may fail. */
module Rewrite {
  import opened Json
  import opened Option
  import opened StateFile

  /** cc_oci_get_config_and_state on a fresh configuration. */
  ghost function Load(id: string, runtimePath: PathBuf, file: Json): Option<(Config, State)> {
    var st := ReadState(Flatten(file, false));
    if st.None? || st.value.bundle.None? || st.value.bundle.value == "" then None
    else Some((Fresh(id, runtimePath, st.value), st.value))
  }

  function Fresh(id: string, runtimePath: PathBuf, st: State): Config {
    Config(Some(id), st.bundle, runtimePath, Copied(OrBlank(st.comms)), Copied(OrBlank(st.procsock)), st.pid, st.status,
           [], Process(None, "", None, false, 0, 0, 0, 0), None, None, Some(Proxy(None, None, None)), None, [])
  }

  /** cc_oci_config_update. */
  function Update(c: Config, st: State): Config {
    var c1 := if st.mounts != [] then c.(mounts := st.mounts) else c;
    var c2 := if st.process.Some? && c1.process.args.None? then c1.(process := st.process.value) else c1;
    var c3 := if st.console.Some? then c2.(console := st.console) else c2;
    var c4 := c3.(vm := Some(st.vm), proxy := Some(st.proxy));
    var c5 := if st.pod.Some? then c4.(pod := st.pod) else c4;
    if st.procsock.Some? then c5.(procsock := Copied(st.procsock.value)) else c5
  }

  predicate CanWrite(c: Config, time: Option<string>, diskOk: bool) {
    time.Some? && Writable(c) && diskOk
  }

  /** One attempt to replace the file: all or nothing. */
  function Write(c: Config, time: Option<string>, diskOk: bool, file: Json): (bool, Json) {
    if CanWrite(c, time, diskOk) then (true, StateTree(c, time.value)) else (false, file)
  }

  datatype Outcome = Outcome(ok: bool, status: Status, file: Json)

  function ToggleSpec(c: Config, st: State, file: Json, pause: bool, vmOk: bool, diskOk: bool): Outcome {
    var dest := if pause then Paused else Running;
    if st.status == dest then Outcome(true, c.status, file)
    else if !vmOk then Outcome(false, c.status, file)
    else
      var (ok, f) := Write(c.(status := dest), st.created, diskOk, file);
      Outcome(ok, dest, f)
  }

  /** What may go wrong in a kill: the signal, the call to the agent, and each write. */
  datatype Faults = Faults(sent: bool, agentOk: bool, write1: bool, write2: bool, write3: bool)

  const SIGKILL := 9
  const SIGSTOP := 19

  predicate IsSandbox(c: Config) {
    c.pod.Some? && c.pod.value.sandbox
  }

  function KillSpec(c: Config, st: State, file: Json, signum: int, f: Faults): Outcome {
    if IsSandbox(c) then
      var (ok, f1) := Write(c.(status := Stopped), st.created, f.write1, file);
      Outcome(ok, if ok then Stopped else c.status, f1)
    else
      var (ok1, f1) := Write(c.(status := Stopping), st.created, f.write1, file);
      if !ok1 then Outcome(false, c.status, f1)
      else if !f.sent then Outcome(false, c.status, Write(c, st.created, f.write2, f1).1)
      else if (signum == SIGKILL || signum == SIGSTOP) && !f.agentOk then Outcome(false, Stopping, f1)
      else
        var (ok3, f3) := Write(c.(status := Stopped), st.created, f.write3, f1);
        Outcome(ok3, if ok3 then Stopped else Stopping, f3)
  }

  class Container {
    var config: Config
    var file: Json

    constructor (c: Config, f: Json)
      ensures config == c && file == f
    {
      config, file := c, f;
    }

    /** cc_oci_state_file_create, down to the disk. */
    method Save(time: Option<string>, diskOk: bool) returns (ok: bool)
      modifies this`file
      ensures (ok, file) == Write(config, time, diskOk, old(file))
    {
      if time.None? { return false; }
      var tree := StateFileCreate(config, time.value);
      if tree.None? || !diskOk { return false; }
      file := tree.value;
      return true;
    }

    /** cc_oci_toggle. */
    method Toggle(st: State, pause: bool, vmOk: bool, diskOk: bool) returns (ok: bool)
      modifies this
      ensures config == old(config).(status := config.status)
      ensures Outcome(ok, config.status, file) == ToggleSpec(old(config), st, old(file), pause, vmOk, diskOk)
    {
      var dest := if pause then Paused else Running;
      if st.status == dest { return true; }
      if !vmOk { return false; }
      config := config.(status := dest);
      ok := Save(st.created, diskOk);
    }

    /** cc_oci_kill. */
    method Kill(st: State, signum: int, f: Faults) returns (ok: bool)
      modifies this
      ensures config == old(config).(status := config.status)
      ensures Outcome(ok, config.status, file) == KillSpec(old(config), st, old(file), signum, f)
    {
      var last := config.status;
      if config.pod.Some? && config.pod.value.sandbox {
        config := config.(status := Stopped);
        ok := Save(st.created, f.write1);
        if !ok { config := config.(status := last); }
        return;
      }
      config := config.(status := Stopping);
      ok := Save(st.created, f.write1);
      if !ok {
        config := config.(status := last);
        return;
      }
      if !f.sent {
        config := config.(status := last);
        assert config == old(config);
        ok := Save(st.created, f.write2);
        return false;
      }
      if (signum == SIGKILL || signum == SIGSTOP) && !f.agentOk { return false; }
      last := config.status;
      config := config.(status := Stopped);
      ok := Save(st.created, f.write3);
      if !ok { config := config.(status := last); }
    }
  }

  // ------------------------------------------------------------------
  // The status in memory and the status on disk.

  ghost function StatusOnDisk(file: Json): Option<Status> {
    var st := ReadState(Flatten(file, false));
    if st.Some? then Some(st.value.status) else None
  }

  lemma StatusOfTree(c: Config, time: string)
    requires Fits(c) && Writable(c)
    ensures StatusOnDisk(StateTree(c, time)) == Some(c.status)
  {
    ReadOfWritten(c, time);
    hide Flatten, StateTree, ReadState;
  }

  lemma StatusOfWrite(c: Config, time: Option<string>, diskOk: bool, file: Json)
    requires Fits(c)
    ensures var (ok, f) := Write(c, time, diskOk, file);
            StatusOnDisk(f) == if ok then Some(c.status) else StatusOnDisk(file)
  {
    if time.Some? && Writable(c) { StatusOfTree(c, time.value); }
    hide StatusOnDisk, StateTree, Writable, Fits;
  }

  lemma FitsAnyStatus(c: Config, s: Status)
    requires Fits(c)
    ensures Fits(c.(status := s))
  {
  }

  /** The one way in which a kill leaves memory and disk apart: the signal could not be
      sent, and the first write cannot be taken back. */
  predicate Stranded(c: Config, time: Option<string>, f: Faults) {
    && !IsSandbox(c) && CanWrite(c.(status := Stopping), time, f.write1)
    && !f.sent && !CanWrite(c, time, f.write2) && c.status != Stopping
  }

  lemma KillAgreesIff(c: Config, st: State, file: Json, signum: int, f: Faults)
    requires Fits(c) && StatusOnDisk(file) == Some(c.status)
    ensures var o := KillSpec(c, st, file, signum, f);
            StatusOnDisk(o.file) == Some(o.status) <==> !Stranded(c, st.created, f)
  {
    FitsAnyStatus(c, Stopping);
    FitsAnyStatus(c, Stopped);
    var (ok1, f1) := Write(c.(status := Stopping), st.created, f.write1, file);
    StatusOfWrite(c.(status := Stopping), st.created, f.write1, file);
    hide StatusOnDisk, StateTree, Writable, Fits;
    if IsSandbox(c) {
      StatusOfWrite(c.(status := Stopped), st.created, f.write1, file);
    } else if ok1 {
      KillGoesOn(c, st, file, f1, signum, f);
    }
  }

  /** From the first write on. */
  lemma KillGoesOn(c: Config, st: State, file: Json, f1: Json, signum: int, f: Faults)
    requires Fits(c) && !IsSandbox(c) && StatusOnDisk(f1) == Some(Stopping)
    requires Write(c.(status := Stopping), st.created, f.write1, file) == (true, f1)
    ensures var o := KillSpec(c, st, file, signum, f);
            StatusOnDisk(o.file) == Some(o.status) <==> f.sent || CanWrite(c, st.created, f.write2) || c.status == Stopping
  {
    FitsAnyStatus(c, Stopped);
    StatusOfWrite(c.(status := Stopped), st.created, f.write3, f1);
    StatusOfWrite(c, st.created, f.write2, f1);
    assert Write(c, st.created, f.write2, f1).0 == CanWrite(c, st.created, f.write2);
    hide StatusOnDisk, StateTree, Writable, Fits, Write, IsSandbox, CanWrite;
  }

  /** What a kill needs to work, in terms of what it is given. */
  predicate KillWorks(c: Config, time: Option<string>, signum: int, f: Faults) {
    && CanWrite(c.(status := Stopped), time, f.write1)
    && (!IsSandbox(c) ==> f.sent && (signum == 9 || signum == 19 ==> f.agentOk) && f.write3)
  }

  lemma WritableAnyStatus(c: Config, s: Status, t: Status)
    requires s != Invalid && t != Invalid
    ensures Writable(c.(status := s)) <==> Writable(c.(status := t))
  {
  }

  /** A kill reports success exactly when every step of it works.  The status in memory is
      then Stopped; otherwise it is the old one, or Stopping once the signal is out. */
  lemma KillSucceedsIff(c: Config, st: State, file: Json, signum: int, f: Faults)
    ensures var o := KillSpec(c, st, file, signum, f);
            && (o.ok <==> KillWorks(c, st.created, signum, f))
            && o.status == if o.ok then Stopped
                           else if !IsSandbox(c) && CanWrite(c.(status := Stopping), st.created, f.write1) && f.sent
                           then Stopping else c.status
  {
    hide StateTree, Writable, IsSandbox;
    WritableAnyStatus(c, Stopping, Stopped);
  }

  /** And then it is so on disk as well. */
  lemma KillSucceeds(c: Config, st: State, file: Json, signum: int, f: Faults)
    requires Fits(c) && KillSpec(c, st, file, signum, f).ok
    ensures var o := KillSpec(c, st, file, signum, f); o.status == Stopped && StatusOnDisk(o.file) == Some(Stopped)
  {
    FitsAnyStatus(c, Stopped);
    var f1 := Write(c.(status := Stopping), st.created, f.write1, file).1;
    StatusOfWrite(c.(status := Stopped), st.created, f.write1, file);
    StatusOfWrite(c.(status := Stopped), st.created, f.write3, f1);
    hide StatusOnDisk, StateTree, Writable, Fits, Write;
  }

  /** A toggle reports success exactly when there is nothing to do, or the VM does it and the
      new status is written; it keeps that status in memory even if it is not. */
  lemma ToggleSucceedsIff(c: Config, st: State, file: Json, pause: bool, vmOk: bool, diskOk: bool)
    ensures var (o, dest) := (ToggleSpec(c, st, file, pause, vmOk, diskOk), if pause then Paused else Running);
            && (o.ok <==> st.status == dest || (vmOk && CanWrite(c.(status := dest), st.created, diskOk)))
            && o.status == (if st.status == dest || !vmOk then c.status else dest)
            && (!o.ok || st.status == dest ==> o.file == file)
            && (o.ok && st.status != dest && Fits(c) ==> StatusOnDisk(o.file) == Some(dest))
  {
    var dest := if pause then Paused else Running;
    if Fits(c) {
      FitsAnyStatus(c, dest);
      StatusOfWrite(c.(status := dest), st.created, diskOk, file);
    }
    hide StatusOnDisk, StateTree, Writable, Fits;
  }

  /** A toggle keeps its new status in memory even when the write fails: so they agree
      exactly when there was nothing to do, the VM refused, or the write is possible. */
  lemma ToggleAgreesIff(c: Config, st: State, file: Json, pause: bool, vmOk: bool, diskOk: bool)
    requires Fits(c) && StatusOnDisk(file) == Some(c.status) && st.status == c.status
    ensures var o := ToggleSpec(c, st, file, pause, vmOk, diskOk);
            var dest := if pause then Paused else Running;
            StatusOnDisk(o.file) == Some(o.status)
            <==> c.status == dest || !vmOk || CanWrite(c.(status := dest), st.created, diskOk)
  {
    var dest := if pause then Paused else Running;
    FitsAnyStatus(c, dest);
    StatusOfWrite(c.(status := dest), st.created, diskOk, file);
    hide StatusOnDisk, StateTree, Writable, Fits;
  }

  /** A container as it is written when it runs. */
  const EXAMPLE := Config(
    Some("c"), Some("/b"), "/r", "/s", "/p", 1, Running, [], Process(Some(["sh"]), "/", None, false, 0, 0, -1, -1), None,
    Some(VmCfg(2, "/q", "/i", "/k", "/w", None)), Some(Proxy(None, None, None)), None, [])

  lemma ExampleWritable(s: Status)
    ensures Fits(EXAMPLE.(status := s)) && EXAMPLE.(status := Running) == EXAMPLE
    ensures Writable(EXAMPLE.(status := s)) <==> s != Invalid
    ensures !IsSandbox(EXAMPLE)
  {
  }

  /** The disk fails once the signal could not be sent: the container runs on, but its file
      says that it is stopping. */
  lemma KillStrands(signum: int)
    ensures var file := StateTree(EXAMPLE, "now");
            var o := KillSpec(EXAMPLE, StateBack(EXAMPLE, "now"), file, signum, Faults(false, true, true, false, true));
            StatusOnDisk(file) == Some(Running) && o.status == Running && StatusOnDisk(o.file) == Some(Stopping)
  {
    ExampleWritable(Running);
    ExampleWritable(Stopping);
    StatusOfTree(EXAMPLE, "now");
    StatusOfTree(EXAMPLE.(status := Stopping), "now");
    assert StateBack(EXAMPLE, "now").created == Some("now");
    hide StatusOnDisk, StateTree, StateBack, Writable, Fits, EXAMPLE, IsSandbox;
  }

  /** The VM is paused and the disk fails: its file says that it runs. */
  lemma ToggleStrands()
    ensures var file := StateTree(EXAMPLE, "now");
            var o := ToggleSpec(EXAMPLE, StateBack(EXAMPLE, "now"), file, true, true, false);
            StatusOnDisk(file) == Some(Running) && o.status == Paused && StatusOnDisk(o.file) == Some(Running)
  {
    ExampleWritable(Running);
    StatusOfTree(EXAMPLE, "now");
    assert StateBack(EXAMPLE, "now").status == Running;
    hide StatusOnDisk, StateTree, StateBack, Writable, Fits, EXAMPLE;
  }

  // ------------------------------------------------------------------
  // Any history of commands.

  datatype Command =
    | Toggle(pause: bool, vmOk: bool, diskOk: bool)
    | Kill(signum: int, faults: Faults)

  /** What a command does to the file. */
  ghost function Apply(id: string, runtimePath: PathBuf, file: Json, cmd: Command): Json {
    var loaded := Load(id, runtimePath, file);
    if loaded.None? then file
    else
      var st := loaded.value.1;
      var c := Update(loaded.value.0, st);
      match cmd
      case Toggle(pause, vmOk, diskOk) => ToggleSpec(c, st, file, pause, vmOk, diskOk).file
      case Kill(signum, faults) => KillSpec(c, st, file, signum, faults).file
  }

  /** Whether a command reports success. */
  ghost predicate Reports(id: string, runtimePath: PathBuf, file: Json, cmd: Command) {
    var loaded := Load(id, runtimePath, file);
    loaded.Some? &&
    var st := loaded.value.1;
    var c := Update(loaded.value.0, st);
    match cmd
    case Toggle(pause, vmOk, diskOk) => ToggleSpec(c, st, file, pause, vmOk, diskOk).ok
    case Kill(signum, faults) => KillSpec(c, st, file, signum, faults).ok
  }

  ghost function ApplyAll(id: string, runtimePath: PathBuf, file: Json, cmds: seq<Command>): Json
    decreases |cmds|
  {
    if cmds == [] then file else ApplyAll(id, runtimePath, Apply(id, runtimePath, file, cmds[0]), cmds[1..])
  }

  /** handle_command_toggle and handler_kill: read, rebuild, act. */
  method RunCommand(id: string, runtimePath: PathBuf, file: Json, cmd: Command) returns (ok: bool, after: Json)
    ensures after == Apply(id, runtimePath, file, cmd)
    ensures ok <==> Reports(id, runtimePath, file, cmd)
  {
    hide ReadState, Flatten, Fresh, Update, ToggleSpec, KillSpec;
    var reader := new Reader();
    var read := reader.Read(Flatten(file, false));
    if read.None? { return false, file; }
    var st := read.value;
    if st.bundle.None? || st.bundle.value == "" { return false, file; }
    var container := new Container(Update(Fresh(id, runtimePath, st), st), file);
    match cmd {
      case Toggle(pause, vmOk, diskOk) => ok := container.Toggle(st, pause, vmOk, diskOk);
      case Kill(signum, faults) => ok := container.Kill(st, signum, faults);
    }
    after := container.file;
  }

  /** The configuration that a command rebuilds from a written file. */
  function Rebuilt(c: Config, runtimePath: PathBuf): Config
    requires Writable(c)
  {
    Config(c.id, c.bundle, runtimePath, c.comms, c.procsock, c.pid, c.status, Made(c.mounts), ProcessBack(c.process), c.console,
           Some(VmBack(c.vm.value)), Some(ProxyBack(c.proxy.value)), PodBack(c.pod), [])
  }

  lemma RebuiltIs(c: Config, time: string, runtimePath: PathBuf)
    requires Fits(c) && Writable(c)
    ensures Update(Fresh(c.id.value, runtimePath, StateBack(c, time)), StateBack(c, time)) == Rebuilt(c, runtimePath)
  {
    hide Made, ProcessBack, VmBack, ProxyBack, PodBack, AnnotationsBack, SetAnnotations;
    assert Copied(c.comms) == c.comms && Copied(c.procsock) == c.procsock;
    PodBackSome(c.pod);
  }

  lemma PodBackSome(pod: Option<Pod>)
    ensures PodBack(pod).Some? <==> pod.Some?
    ensures PodBack(PodBack(pod)) == PodBack(pod)
  {
  }

  lemma LoadOfTree(c: Config, time: string, runtimePath: PathBuf)
    requires Fits(c) && Writable(c) && c.bundle.value != ""
    ensures Load(c.id.value, runtimePath, StateTree(c, time))
         == Some((Fresh(c.id.value, runtimePath, StateBack(c, time)), StateBack(c, time)))
  {
    ReadOfWritten(c, time);
    hide ReadState, Flatten, StateTree, Fresh, Fits;
  }

  lemma {:induction false} MadeTwice(mounts: seq<Mount>)
    ensures Made(Made(mounts)) == Made(mounts)
    ensures FitMounts(mounts) ==> FitMounts(Made(mounts))
  {
    if mounts != [] {
      MadeTwice(mounts[1..]);
      if mounts[0].ignored {
        assert Made(mounts) == Made(mounts[1..]);
      } else {
        assert Made(mounts)[0] == mounts[0] && Made(mounts)[1..] == Made(mounts[1..]);
      }
    }
  }

  /** A rebuilt configuration is one that rebuilds to itself. */
  lemma RebuiltTwice(c: Config, runtimePath: PathBuf, s: Status)
    requires Writable(c) && Fits(c) && FitsPath(runtimePath) && Writable(Rebuilt(c, runtimePath).(status := s))
    ensures Fits(Rebuilt(c, runtimePath).(status := s))
    ensures Rebuilt(Rebuilt(c, runtimePath).(status := s), runtimePath) == Rebuilt(c, runtimePath).(status := s)
  {
    MadeTwice(c.mounts);
    PodBackSome(c.pod);
    hide Made, PodBack;
  }

  /** Once rebuilt, the file can be written again exactly when there is a program to run. */
  lemma RewritableIff(c: Config, runtimePath: PathBuf, s: Status)
    requires Writable(c)
    ensures Writable(Rebuilt(c, runtimePath).(status := s))
            <==> s != Invalid && runtimePath != "" && c.process.args.value != []
  {
    hide Made, VmBack, ProxyBack, PodBack;
  }

  /** Exactly when a command on a file that was written reports success. */
  lemma CommandSucceedsIff(c: Config, time: string, runtimePath: PathBuf, cmd: Command)
    requires Fits(c) && Writable(c) && c.bundle.value != ""
    ensures var again := runtimePath != "" && c.process.args.value != [];
            Reports(c.id.value, runtimePath, StateTree(c, time), cmd)
            <==> match cmd
                 case Toggle(pause, vmOk, diskOk) =>
                   c.status == (if pause then Paused else Running) || (vmOk && again && diskOk)
                 case Kill(signum, f) =>
                   again && f.write1
                   && (!IsSandbox(c) ==> f.sent && (signum == 9 || signum == 19 ==> f.agentOk) && f.write3)
  {
    LoadOfTree(c, time, runtimePath);
    RebuiltIs(c, time, runtimePath);
    var (r, st, file) := (Rebuilt(c, runtimePath), StateBack(c, time), StateTree(c, time));
    assert st.created == Some(time) && st.status == c.status == r.status;
    assert IsSandbox(r) == IsSandbox(c);
    RewritableIff(c, runtimePath, Stopped);
    RewritableIff(c, runtimePath, Paused);
    RewritableIff(c, runtimePath, Running);
    hide Load, Update, StateTree, StateBack, Writable, Fits, Rebuilt, IsSandbox;
    match cmd
    case Toggle(pause, vmOk, diskOk) => ToggleSucceedsIff(r, st, file, pause, vmOk, diskOk); hide ToggleSpec;
    case Kill(signum, f) => KillSucceedsIff(r, st, file, signum, f); hide KillSpec;
  }

  // ------------------------------------------------------------------
  // The file as the record of the writes that worked.

  /** The statuses that a command writes, in order, when it finds configuration `c`. */
  function CommandWrites(c: Config, cmd: Command): seq<Status> {
    match cmd
    case Toggle(pause, vmOk, diskOk) =>
      var dest := if pause then Paused else Running;
      if c.status != dest && vmOk then Written(c, dest, diskOk) else []
    case Kill(signum, f) =>
      if IsSandbox(c) then Written(c, Stopped, f.write1)
      else if Written(c, Stopping, f.write1) == [] then []
      else if !f.sent then [Stopping] + Written(c, c.status, f.write2)
      else if (signum == SIGKILL || signum == SIGSTOP) && !f.agentOk then [Stopping]
      else [Stopping] + Written(c, Stopped, f.write3)
  }

  function Written(c: Config, s: Status, diskOk: bool): seq<Status> {
    if Writable(c.(status := s)) && diskOk then [s] else []
  }

  function Latest(s: Status, ws: seq<Status>): Status {
    if ws == [] then s else ws[|ws| - 1]
  }

  /** Each command finds the status that the last write before it left. */
  function HistoryWrites(c: Config, cmds: seq<Command>): seq<Status>
    decreases |cmds|
  {
    if cmds == [] then []
    else
      var ws := CommandWrites(c, cmds[0]);
      ws + HistoryWrites(c.(status := Latest(c.status, ws)), cmds[1..])
  }

  ghost predicate AllWritable(c: Config, ws: seq<Status>) {
    forall i :: 0 <= i < |ws| ==> Writable(c.(status := ws[i]))
  }

  lemma CommandWritable(c: Config, cmd: Command)
    ensures AllWritable(c, CommandWrites(c, cmd))
  {
    hide Writable, IsSandbox;
  }

  /** What the file holds after writes of a configuration with these statuses. */
  ghost function Replaced(file: Json, c: Config, ws: seq<Status>, time: string): Json
    requires AllWritable(c, ws)
  {
    if ws == [] then file else StateTree(c.(status := ws[|ws| - 1]), time)
  }

  lemma ToggleReplaces(c: Config, st: State, file: Json, time: string, cmd: Command)
    requires cmd.Toggle? && st.created == Some(time) && st.status == c.status
    requires AllWritable(c, CommandWrites(c, cmd))
    ensures ToggleSpec(c, st, file, cmd.pause, cmd.vmOk, cmd.diskOk).file == Replaced(file, c, CommandWrites(c, cmd), time)
  {
    hide Writable, StateTree;
  }

  lemma KillReplaces(c: Config, st: State, file: Json, time: string, cmd: Command)
    requires cmd.Kill? && st.created == Some(time)
    requires AllWritable(c, CommandWrites(c, cmd))
    ensures KillSpec(c, st, file, cmd.signum, cmd.faults).file == Replaced(file, c, CommandWrites(c, cmd), time)
  {
    hide Writable, StateTree, IsSandbox;
    assert c.(status := c.status) == c;
  }

  /** The file of a container first written with `c` after further writes. */
  ghost function FileAfter(c: Config, time: string, runtimePath: PathBuf, ws: seq<Status>): Json
    requires Writable(c) && AllWritable(Rebuilt(c, runtimePath), ws)
  {
    Replaced(StateTree(c, time), Rebuilt(c, runtimePath), ws, time)
  }

  /** What a command works with, whatever was written before it. */
  lemma LoadedIs(c: Config, time: string, runtimePath: PathBuf, ws: seq<Status>) returns (st: State)
    requires Fits(c) && FitsPath(runtimePath) && Writable(c) && c.bundle.value != ""
    requires AllWritable(Rebuilt(c, runtimePath), ws)
    ensures st.created == Some(time) && st.status == Latest(c.status, ws)
    ensures var loaded := Load(c.id.value, runtimePath, FileAfter(c, time, runtimePath, ws));
            && loaded.Some? && loaded.value.1 == st
            && Update(loaded.value.0, st) == Rebuilt(c, runtimePath).(status := Latest(c.status, ws))
  {
    if ws == [] {
      LoadOfTree(c, time, runtimePath);
      RebuiltIs(c, time, runtimePath);
      st := StateBack(c, time);
    } else {
      var s := ws[|ws| - 1];
      var r := Rebuilt(c, runtimePath).(status := s);
      RebuiltTwice(c, runtimePath, s);
      LoadOfTree(r, time, runtimePath);
      RebuiltIs(r, time, runtimePath);
      st := StateBack(r, time);
    }
    hide StateTree, Fits, Load, Update, Fresh, ProcessBack, Made, VmBack, ProxyBack, PodBack, AnnotationsBack, SetAnnotations;
  }

  lemma ApplyWrites(c: Config, time: string, runtimePath: PathBuf, ws: seq<Status>, cmd: Command)
    requires Fits(c) && FitsPath(runtimePath) && Writable(c) && c.bundle.value != ""
    requires AllWritable(Rebuilt(c, runtimePath), ws)
    ensures var more := CommandWrites(Rebuilt(c, runtimePath).(status := Latest(c.status, ws)), cmd);
            && AllWritable(Rebuilt(c, runtimePath), ws + more)
            && Apply(c.id.value, runtimePath, FileAfter(c, time, runtimePath, ws), cmd)
               == FileAfter(c, time, runtimePath, ws + more)
  {
    var r := Rebuilt(c, runtimePath).(status := Latest(c.status, ws));
    var file := FileAfter(c, time, runtimePath, ws);
    var st := LoadedIs(c, time, runtimePath, ws);
    CommandWritable(r, cmd);
    WritesAppend(c, time, runtimePath, ws, CommandWrites(r, cmd));
    hide Load, Update, Rebuilt, Writable, Fits, FileAfter, AllWritable, Replaced, CommandWrites, StateTree;
    if cmd.Toggle? {
      ToggleReplaces(r, st, file, time, cmd);
    } else {
      KillReplaces(r, st, file, time, cmd);
    }
    hide ToggleSpec, KillSpec;
  }

  lemma WritesAppend(c: Config, time: string, runtimePath: PathBuf, ws: seq<Status>, more: seq<Status>)
    requires Writable(c) && AllWritable(Rebuilt(c, runtimePath), ws)
    requires AllWritable(Rebuilt(c, runtimePath).(status := Latest(c.status, ws)), more)
    ensures AllWritable(Rebuilt(c, runtimePath), ws + more)
    ensures Replaced(FileAfter(c, time, runtimePath, ws), Rebuilt(c, runtimePath).(status := Latest(c.status, ws)), more, time)
         == FileAfter(c, time, runtimePath, ws + more)
  {
    hide StateTree, Writable, Rebuilt;
    if more == [] { assert ws + more == ws; }
  }

  /** After any commands with any failures the file is the one of the writes that worked. */
  lemma {:induction false} HistoryFile(c: Config, time: string, runtimePath: PathBuf, ws: seq<Status>, cmds: seq<Command>)
    requires Fits(c) && FitsPath(runtimePath) && Writable(c) && c.bundle.value != ""
    requires AllWritable(Rebuilt(c, runtimePath), ws)
    ensures var more := HistoryWrites(Rebuilt(c, runtimePath).(status := Latest(c.status, ws)), cmds);
            && AllWritable(Rebuilt(c, runtimePath), ws + more)
            && ApplyAll(c.id.value, runtimePath, FileAfter(c, time, runtimePath, ws), cmds)
               == FileAfter(c, time, runtimePath, ws + more)
    decreases |cmds|
  {
    hide Apply, FileAfter, Rebuilt, Writable, Fits, AllWritable, CommandWrites;
    if cmds == [] {
      assert ws + [] == ws;
    } else {
      var r := Rebuilt(c, runtimePath).(status := Latest(c.status, ws));
      var one := CommandWrites(r, cmds[0]);
      ApplyWrites(c, time, runtimePath, ws, cmds[0]);
      HistoryFile(c, time, runtimePath, ws + one, cmds[1..]);
      assert Latest(c.status, ws + one) == Latest(Latest(c.status, ws), one);
      var rest := HistoryWrites(r.(status := Latest(r.status, one)), cmds[1..]);
      assert (ws + one) + rest == ws + (one + rest);
    }
  }

  lemma StateOfRebuilt(c: Config, time: string, runtimePath: PathBuf, s: Status)
    requires Writable(c) && Writable(Rebuilt(c, runtimePath).(status := s))
    ensures StateBack(Rebuilt(c, runtimePath).(status := s), time) == StateBack(c, time).(status := s, annotations := [])
  {
    MadeTwice(c.mounts);
    PodBackSome(c.pod);
    hide Made, PodBack;
  }

  /** After any commands with any failures the file reads as the one first written, with the
      status of the last write that worked; the annotations are gone with the first. */
  lemma HistoryReads(c: Config, time: string, runtimePath: PathBuf, cmds: seq<Command>)
    requires Fits(c) && FitsPath(runtimePath) && Writable(c) && c.bundle.value != ""
    ensures var ws := HistoryWrites(Rebuilt(c, runtimePath), cmds);
            var st := ReadState(Flatten(ApplyAll(c.id.value, runtimePath, StateTree(c, time), cmds), false));
            st == Some(if ws == [] then StateBack(c, time)
                       else StateBack(c, time).(status := Latest(c.status, ws), annotations := []))
  {
    var ws := HistoryWrites(Rebuilt(c, runtimePath), cmds);
    var r0 := Rebuilt(c, runtimePath);
    assert r0.(status := c.status) == r0 && [] + ws == ws;
    assert FileAfter(c, time, runtimePath, []) == StateTree(c, time);
    hide ReadState, Flatten, StateTree, ApplyAll, HistoryWrites, StateBack, Fits, FileAfter, Rebuilt, Writable, AllWritable;
    HistoryFile(c, time, runtimePath, [], cmds);
    ReadFileAfter(c, time, runtimePath, ws);
  }

  lemma ReadFileAfter(c: Config, time: string, runtimePath: PathBuf, ws: seq<Status>)
    requires Fits(c) && FitsPath(runtimePath) && Writable(c) && AllWritable(Rebuilt(c, runtimePath), ws)
    ensures ReadState(Flatten(FileAfter(c, time, runtimePath, ws), false))
         == Some(if ws == [] then StateBack(c, time)
                 else StateBack(c, time).(status := Latest(c.status, ws), annotations := []))
  {
    hide ReadState, Flatten, StateTree, StateBack, Fits, Writable, Rebuilt;
    if ws == [] {
      ReadOfWritten(c, time);
    } else {
      var s := ws[|ws| - 1];
      RebuiltTwice(c, runtimePath, s);
      ReadOfWritten(Rebuilt(c, runtimePath).(status := s), time);
      StateOfRebuilt(c, time, runtimePath, s);
    }
  }

  lemma {:induction false} NoneWritable(c: Config, cmds: seq<Command>)
    requires forall s :: !Writable(c.(status := s))
    ensures HistoryWrites(c, cmds) == []
    decreases |cmds|
  {
    if cmds != [] {
      assert CommandWrites(c, cmds[0]) == [];
      assert c.(status := c.status) == c;
      NoneWritable(c, cmds[1..]);
    }
    hide Writable, IsSandbox;
  }

  /** Without a program to run the file can never be rewritten, so no command changes it. */
  lemma NoArgsNoRewrite(c: Config, time: string, runtimePath: PathBuf, cmds: seq<Command>)
    requires Fits(c) && FitsPath(runtimePath) && Writable(c) && c.bundle.value != "" && c.process.args.value == []
    ensures ApplyAll(c.id.value, runtimePath, StateTree(c, time), cmds) == StateTree(c, time)
  {
    var r0 := Rebuilt(c, runtimePath);
    HistoryFile(c, time, runtimePath, [], cmds);
    forall s ensures !Writable(r0.(status := s)) { RewritableIff(c, runtimePath, s); }
    NoneWritable(r0, cmds);
    assert r0.(status := c.status) == r0;
    hide StateTree, ApplyAll, HistoryWrites, Fits;
  }

  /** A bundle path that is empty is written but cannot be loaded again. */
  lemma {:induction false} NoBundleNoRewrite(c: Config, time: string, runtimePath: PathBuf, cmds: seq<Command>)
    requires Fits(c) && Writable(c) && c.bundle.value == ""
    ensures ApplyAll(c.id.value, runtimePath, StateTree(c, time), cmds) == StateTree(c, time)
    decreases |cmds|
  {
    if cmds != [] {
      ReadOfWritten(c, time);
      assert Apply(c.id.value, runtimePath, StateTree(c, time), cmds[0]) == StateTree(c, time);
      NoBundleNoRewrite(c, time, runtimePath, cmds[1..]);
    }
    hide StateTree, Flatten, ReadState, Fits, Fresh, Update, ToggleSpec, KillSpec;
  }
}
