/** The state file (src/state.c): what is written about a container, and what a reader
    makes of it. The tree in between is the one of module Json. */
module StateFile {
  import opened Decimal
  import opened Json
  import opened Option
  import Spec = SpecHandlers

  /** The contents of a path buffer, and a C int; Fits says what they hold. */
  type PathBuf = string
  type Int32 = int

  datatype Status = Created | Running | Paused | Stopped | Stopping | Invalid

  datatype Mount = Mount(dest: PathBuf, created: Option<string>, ignored: bool)

  datatype Process = Process(
    args: Option<seq<string>>, cwd: PathBuf, env: Option<seq<string>>,
    terminal: bool, uid: nat, gid: nat, stdio: Int32, stderr: Int32)

  datatype VmCfg = VmCfg(
    pid: Int32, hypervisor: PathBuf, image: PathBuf, kernel: PathBuf, workload: PathBuf, params: Option<string>)

  datatype Proxy = Proxy(ctl: Option<string>, io: Option<string>, console: Option<string>)

  datatype Pod = Pod(sandbox: bool, name: Option<string>)

  datatype Annotation = Annotation(key: string, value: Option<string>)

  /** The parts of cc_oci_config that reach the state file. */
  datatype Config = Config(
    id: Option<string>, bundle: Option<string>, runtimePath: PathBuf, comms: PathBuf, procsock: PathBuf,
    pid: Int32, status: Status, mounts: seq<Mount>, process: Process, console: Option<string>,
    vm: Option<VmCfg>, proxy: Option<Proxy>, pod: Option<Pod>, annotations: seq<Annotation>)

  /** oci_state. */
  datatype State = State(
    version: Option<string>, id: Option<string>, pid: Int32, bundle: Option<string>, comms: Option<string>,
    procsock: Option<string>, status: Status, created: Option<string>, mounts: seq<Mount>,
    annotations: seq<Annotation>, console: Option<string>, vm: VmCfg, proxy: Proxy,
    pod: Option<Pod>, process: Option<Process>)

  predicate FitsPath(s: PathBuf) {
    |s| < Spec.PATH_MAX
  }

  predicate FitsInt(x: Int32) {
    -0x8000_0000 <= x < 0x8000_0000
  }

  predicate FitsProcess(p: Process) {
    FitsPath(p.cwd) && FitsInt(p.stdio) && FitsInt(p.stderr)
  }

  predicate FitsVm(vm: VmCfg) {
    FitsInt(vm.pid) && FitsPath(vm.hypervisor) && FitsPath(vm.image) && FitsPath(vm.kernel) && FitsPath(vm.workload)
  }

  predicate FitMounts(mounts: seq<Mount>) {
    forall i :: 0 <= i < |mounts| ==> FitsPath(mounts[i].dest)
  }

  /** The sizes of the fields of cc_oci_config. */
  predicate Fits(c: Config) {
    && FitsPath(c.runtimePath) && FitsPath(c.comms) && FitsPath(c.procsock) && FitsInt(c.pid)
    && FitMounts(c.mounts) && FitsProcess(c.process) && (c.vm.Some? ==> FitsVm(c.vm.value))
  }

  const SPEC_VERSION := "1.0.0-rc1"

  const BlankProcess := Process(None, "", None, false, 0, 0, -1, -1)

  const BlankState := State(
    None, None, 0, None, None, None, Created, None, [], [], None,
    VmCfg(0, "", "", "", "", None), Proxy(None, None, None), None, None)

  function Copied(s: string): PathBuf {
    Spec.Truncate(s)
  }

  function Narrow(x: int): Int32 {
    ToInt32(x)
  }

  // ------------------------------------------------------------------
  // Statuses.

  const STATUS_MAP: seq<(Status, string)> := [
    (Created, "created"), (Running, "running"), (Paused, "paused"), (Stopped, "stopped"), (Stopping, "stopping")
  ]

  /** cc_oci_status_to_str: nothing for the invalid status only. */
  method StatusToStr(status: Status) returns (name: Option<string>)
    ensures name == StatusText(status)
    ensures name.None? <==> status == Invalid
  {
    var i := 0;
    while i < |STATUS_MAP|
      invariant 0 <= i <= |STATUS_MAP|
      invariant forall j :: 0 <= j < i ==> STATUS_MAP[j].0 != status
    {
      if STATUS_MAP[i].0 == status { return Some(STATUS_MAP[i].1); }
      i := i + 1;
    }
    assert STATUS_MAP[0].0 != status && STATUS_MAP[1].0 != status && STATUS_MAP[2].0 != status;
    assert STATUS_MAP[3].0 != status && STATUS_MAP[4].0 != status;
    return None;
  }

  /** cc_oci_str_to_status. */
  method StrToStatus(text: string) returns (status: Status)
    ensures status == StatusOf(text)
    ensures status != Invalid ==> StatusText(status) == Some(text)
  {
    var i := 0;
    while i < |STATUS_MAP|
      invariant 0 <= i <= |STATUS_MAP|
      invariant forall j :: 0 <= j < i ==> STATUS_MAP[j].1 != text
    {
      if STATUS_MAP[i].1 == text {
        StatusesDiffer();
        return STATUS_MAP[i].0;
      }
      i := i + 1;
    }
    assert STATUS_MAP[0].1 != text && STATUS_MAP[1].1 != text && STATUS_MAP[2].1 != text;
    assert STATUS_MAP[3].1 != text && STATUS_MAP[4].1 != text;
    return Invalid;
  }

  function StatusText(status: Status): Option<string> {
    match status
    case Created => Some("created")
    case Running => Some("running")
    case Paused => Some("paused")
    case Stopped => Some("stopped")
    case Stopping => Some("stopping")
    case Invalid => None
  }

  function StatusOf(text: string): Status {
    if text == "created" then Created
    else if text == "running" then Running
    else if text == "paused" then Paused
    else if text == "stopped" then Stopped
    else if text == "stopping" then Stopping
    else Invalid
  }

  lemma StatusesDiffer()
    ensures "created" != "running" && "created" != "paused" && "running" != "paused"
    ensures "created" != "stopped" && "running" != "stopped" && "paused" != "stopped"
    ensures "created" != "stopping" && "running" != "stopping" && "paused" != "stopping" && "stopped" != "stopping"
  {
    assert "created"[0] == 'c' && "running"[0] == 'r' && "paused"[0] == 'p' && "stopped"[0] == 's';
    assert "stopping"[0] == 's' && "stopping"[4] == 'p' && "stopping"[5] == 'i' && "stopped"[5] == 'e';
  }

  lemma StatusRoundTrip(status: Status)
    requires status != Invalid
    ensures StatusText(status).Some? && StatusOf(StatusText(status).value) == status
  {
    StatusesDiffer();
  }

  // ------------------------------------------------------------------
  // The reader.

  datatype Section =
    | OciVersion | Id | Pid | BundlePath | CommsPath | ProcessPath | StatusName | CreateTime
    | Mounts | Console | Vm | ProxySockets | PodInfo | Annotations

  /** The table of handlers: name, section, and how many subelements it must count. */
  const HANDLERS: seq<(string, Section, nat)> := [
    ("ociVersion", OciVersion, 1), ("id", Id, 1), ("pid", Pid, 1), ("bundlePath", BundlePath, 1),
    ("commsPath", CommsPath, 1), ("processPath", ProcessPath, 1), ("status", StatusName, 1), ("created", CreateTime, 1),
    ("mounts", Mounts, 0), ("console", Console, 0), ("vm", Vm, 6), ("proxy", ProxySockets, 2),
    ("pod", PodInfo, 0), ("annotations", Annotations, 0)
  ]

  predicate OneText(section: Section) {
    || section.OciVersion? || section.Id? || section.Pid? || section.BundlePath?
    || section.CommsPath? || section.ProcessPath? || section.StatusName? || section.CreateTime?
  }

  /** The handlers of sections that are a single value; true if the subelement counts. */
  function HandleText(section: Section, st: State, text: string): (State, bool)
    requires OneText(section)
  {
    match section
    case OciVersion => (st.(version := Some(text)), true)
    case Id => (st.(id := Some(text)), true)
    case Pid => var r := Strtoll(text); (st.(pid := Narrow(r.0)), r.1)
    case BundlePath => (st.(bundle := Some(text)), true)
    case CommsPath => (st.(comms := Some(text)), true)
    case ProcessPath => (st.(procsock := Some(text)), true)
    case StatusName => (st.(status := StatusOf(text)), true)
    case CreateTime => (st.(created := Some(text)), true)
  }

  function HandleVm(vm: VmCfg, key: string, value: string): (VmCfg, bool) {
    if key == "workload_path" then (vm.(workload := Copied(value)), true)
    else if key == "hypervisor_path" then (vm.(hypervisor := Copied(value)), true)
    else if key == "kernel_path" then (vm.(kernel := Copied(value)), true)
    else if key == "image_path" then (vm.(image := Copied(value)), true)
    else if key == "kernel_params" then (vm.(params := Some(value)), true)
    else if key == "pid" then var r := Strtoll(value); (vm.(pid := Narrow(r.0)), r.1)
    else (vm, false)
  }

  function HandleProxy(proxy: Proxy, key: string, value: string): (Proxy, bool) {
    if key == "ctlSocket" then (proxy.(ctl := Some(value)), true)
    else if key == "ioSocket" then (proxy.(io := Some(value)), true)
    else if key == "consoleSocket" then (proxy.(console := Some(value)), true)
    else (proxy, false)
  }

  function HandlePod(pod: Pod, key: string, value: string): (Pod, bool) {
    if key == "sandbox" then (pod.(sandbox := value == "true"), true)
    else if key == "sandbox_name" then (pod.(name := Some(value)), true)
    else (pod, false)
  }

  function HandleMount(mounts: seq<Mount>, key: string, value: string): seq<Mount> {
    if key == "destination" then mounts + [Mount(Copied(value), None, false)]
    else if key == "directory_created" && mounts != [] then
      mounts[|mounts| - 1 := mounts[|mounts| - 1].(created := Some(value))]
    else mounts
  }

  /** The handlers of sections made of named values. */
  function HandleField(section: Section, st: State, key: string, value: string): (State, bool)
    requires !OneText(section)
  {
    match section
    case Mounts => (st.(mounts := HandleMount(st.mounts, key, value)), false)
    case Console => if key == "path" then (st.(console := Some(value)), true) else (st, false)
    case Vm => var r := HandleVm(st.vm, key, value); (st.(vm := r.0), r.1)
    case ProxySockets => var r := HandleProxy(st.proxy, key, value); (st.(proxy := r.0), r.1)
    case PodInfo =>
      var r := HandlePod(if st.pod.Some? then st.pod.value else Pod(false, None), key, value);
      (st.(pod := Some(r.0)), r.1)
    case Annotations => (st.(annotations := [Annotation(key, Some(value))] + st.annotations), false)
  }

  /** A section's handler on one of its nodes. */
  function Handle(section: Section, st: State, node: GNode): (State, bool) {
    if node.data.None? then (st, false)
    else if OneText(section) then HandleText(section, st, node.data.value)
    else if node.children == [] || node.children[0].data.None? then (st, false)
    else HandleField(section, st, node.data.value, node.children[0].data.value)
  }

  /** A section's handler on all of them, and how many counted. */
  function HandleAll(section: Section, st: State, nodes: seq<GNode>): (State, nat)
    decreases |nodes|
  {
    if nodes == [] then (st, 0)
    else
      var (first, counted) := Handle(section, st, nodes[0]);
      var (last, n) := HandleAll(section, first, nodes[1..]);
      (last, (if counted then 1 else 0) + n)
  }

  /** handle_user_section over the user's nodes; an id is an unsigned 32-bit number. */
  function HandleUser(p: Process, nodes: seq<GNode>): Process
    decreases |nodes|
  {
    if nodes == [] then p
    else
      var value := if nodes[0].children == [] then 0 else Unsigned(AtoI(nodes[0].children[0].data));
      HandleUser(if nodes[0].data == Some("uid") then p.(uid := value)
                 else if nodes[0].data == Some("gid") then p.(gid := value)
                 else p, nodes[1..])
  }

  /** handle_process_section. */
  function HandleProcess(p: Process, node: GNode): Process {
    if node.children == [] || node.data.None? then p
    else
      var key, first := node.data.value, node.children[0].data;
      if key == "cwd" then p.(cwd := Copied(Spec.Shown(first)))
      else if key == "args" then p.(args := Some(Spec.Texts(node.children)))
      else if key == "env" then p.(env := Some(Spec.Texts(node.children)))
      else if key == "terminal" then p.(terminal := first == Some("true"))
      else if key == "user" then HandleUser(p, node.children)
      else if key == "stdio_stream" then p.(stdio := AtoI(first))
      else if key == "stderr_stream" then p.(stderr := AtoI(first))
      else p
  }

  function AtoI(text: Option<string>): Int32 {
    Spec.IntOf(text)
  }

  function ReadProcess(p: Process, nodes: seq<GNode>): Process
    decreases |nodes|
  {
    if nodes == [] then p else ReadProcess(HandleProcess(p, nodes[0]), nodes[1..])
  }

  /** A reading in progress: the state so far and the counters of the table. */
  datatype Reading = Reading(st: State, counts: seq<nat>)

  /** The index of a handler by name; past the table if there is none. */
  function Find(name: string, i: nat): (k: nat)
    requires i <= 14
    ensures i <= k <= 14
    ensures forall j :: i <= j < k ==> HANDLERS[j].0 != name
    ensures k < 14 ==> HANDLERS[k].0 == name
    decreases 14 - i
  {
    if i == 14 || HANDLERS[i].0 == name then i else Find(name, i + 1)
  }

  function Bump(counts: seq<nat>, k: nat, n: nat): (bumped: seq<nat>)
    requires |counts| == 14 && k < 14
    ensures |bumped| == 14
  {
    counts[k := counts[k] + n]
  }

  function HandleSection(r: Reading, node: GNode): (s: Reading)
    requires |r.counts| == 14
    ensures |s.counts| == 14
  {
    if node.data.None? then r
    else
      var k := Find(node.data.value, 0);
      if k < 14 then
        var (st, n) := HandleAll(HANDLERS[k].1, r.st, node.children);
        Reading(st, Bump(r.counts, k, n))
      else if node.data.value == "process" then
        r.(st := r.st.(process := Some(ReadProcess(BlankProcess, node.children))))
      else r
  }

  function HandleSections(r: Reading, nodes: seq<GNode>): (s: Reading)
    requires |r.counts| == 14
    ensures |s.counts| == 14
    decreases |nodes|
  {
    if nodes == [] then r else HandleSections(HandleSection(r, nodes[0]), nodes[1..])
  }

  ghost predicate Enough(counts: seq<nat>)
    requires |counts| == 14
  {
    forall k :: 0 <= k < |counts| ==> counts[k] >= HANDLERS[k].2
  }

  const NoCounts: seq<nat> := [0, 0, 0, 0, 0, 0, 0, 0, 0, 0, 0, 0, 0, 0]

  /** cc_oci_state_file_read, from the root's children on. */
  ghost function ReadState(nodes: seq<GNode>): Option<State> {
    var r := HandleSections(Reading(BlankState, NoCounts), nodes);
    if Enough(r.counts) then Some(r.st) else None
  }

  /** The reader's code: the counters live in a table that outlasts the call. */
  class Reader {
    const counts: array<nat>

    constructor ()
      ensures counts.Length == 14 && fresh(counts)
    {
      counts := new nat[14];
    }

    /** Whatever an earlier read has left in the counters. */
    method Read(nodes: seq<GNode>) returns (r: Option<State>)
      requires counts.Length == 14
      modifies counts
      ensures r == ReadState(nodes)
    {
      ResetCounts();
      var st := BlankState;
      var i := 0;
      ghost var start := Reading(BlankState, counts[..]);
      while i < |nodes|
        invariant 0 <= i <= |nodes|
        invariant HandleSections(start, nodes) == HandleSections(Reading(st, counts[..]), nodes[i..])
      {
        st := Section(nodes[i], st);
        i := i + 1;
      }
      assert HandleSections(start, nodes) == Reading(st, counts[..]);
      i := 0;
      while i < 14
        invariant 0 <= i <= 14
        invariant forall k :: 0 <= k < i ==> counts[..][k] >= HANDLERS[k].2
      {
        if counts[i] < HANDLERS[i].2 {
          assert !Enough(counts[..]) by { assert counts[..][i] < HANDLERS[i].2; }
          return None;
        }
        i := i + 1;
      }
      return Some(st);
    }

    method ResetCounts()
      requires counts.Length == 14
      modifies counts
      ensures counts[..] == NoCounts
    {
      var i := 0;
      while i < 14
        invariant 0 <= i <= 14
        invariant forall j :: 0 <= j < i ==> counts[j] == 0
      {
        counts[i] := 0;
        i := i + 1;
      }
    }

    /** handle_state_sections. */
    method Section(node: GNode, st0: State) returns (st: State)
      requires counts.Length == 14
      modifies counts
      ensures Reading(st, counts[..]) == HandleSection(Reading(st0, old(counts[..])), node)
    {
      st := st0;
      if node.data.None? { return; }
      var k := 0;
      while k < 14 && HANDLERS[k].0 != node.data.value
        invariant 0 <= k <= 14
        invariant forall j :: 0 <= j < k ==> HANDLERS[j].0 != node.data.value
      {
        k := k + 1;
      }
      assert k == Find(node.data.value, 0) by { FindIs(node.data.value, k); }
      if k < 14 {
        st := Children(k, node.children, st);
      } else if node.data.value == "process" {
        st := st.(process := Some(ReadProcess(BlankProcess, node.children)));
      }
    }

    method Children(k: nat, nodes: seq<GNode>, st0: State) returns (st: State)
      requires counts.Length == 14 && k < 14
      modifies counts
      ensures st == HandleAll(HANDLERS[k].1, st0, nodes).0
      ensures counts[..] == old(counts[..])[k := old(counts[k]) + HandleAll(HANDLERS[k].1, st0, nodes).1]
    {
      st := st0;
      var i := 0;
      ghost var all := HandleAll(HANDLERS[k].1, st0, nodes);
      while i < |nodes|
        invariant 0 <= i <= |nodes|
        invariant forall j :: 0 <= j < counts.Length && j != k ==> counts[j] == old(counts[j])
        invariant all.0 == HandleAll(HANDLERS[k].1, st, nodes[i..]).0
        invariant counts[k] + HandleAll(HANDLERS[k].1, st, nodes[i..]).1 == old(counts[k]) + all.1
      {
        assert nodes[i..][0] == nodes[i] && nodes[i..][1..] == nodes[i + 1..];
        var (next, counted) := Handle(HANDLERS[k].1, st, nodes[i]);
        st := next;
        if counted { counts[k] := counts[k] + 1; }
        i := i + 1;
      }
    }
  }

  lemma FindIs(name: string, k: nat)
    requires k <= 14
    requires forall j :: 0 <= j < k ==> HANDLERS[j].0 != name
    requires k < 14 ==> HANDLERS[k].0 == name
    ensures Find(name, 0) == k
  {
  }

  // ------------------------------------------------------------------
  // The writer.

  function OrBlank(text: Option<string>): string {
    if text.Some? then text.value else ""
  }

  function MountMembers(m: Mount): seq<Member> {
    [Member("destination", String(m.dest))]
    + if m.created.Some? then [Member("directory_created", String(m.created.value))] else []
  }

  /** The mounts that were made. */
  function Made(mounts: seq<Mount>): seq<Mount> {
    if mounts == [] then [] else (if mounts[0].ignored then [] else [mounts[0]]) + Made(mounts[1..])
  }

  function MountObjects(mounts: seq<Mount>): seq<Json> {
    if mounts == [] then []
    else (if mounts[0].ignored then [] else [Object(MountMembers(mounts[0]))]) + MountObjects(mounts[1..])
  }

  /** cc_oci_mounts_to_json. */
  method MountsToJson(mounts: seq<Mount>) returns (elems: seq<Json>)
    ensures elems == MountObjects(mounts)
  {
    elems := [];
    var i := 0;
    while i < |mounts|
      invariant 0 <= i <= |mounts|
      invariant elems + MountObjects(mounts[i..]) == MountObjects(mounts)
    {
      if !mounts[i].ignored {
        elems := elems + [Object(MountMembers(mounts[i]))];
      }
      i := i + 1;
    }
  }

  /** json_object_set_member: a name that is there keeps its place. */
  function SetMember(members: seq<Member>, key: string, value: Json): seq<Member> {
    if members == [] then [Member(key, value)]
    else if members[0].key == key then [Member(key, value)] + members[1..]
    else [members[0]] + SetMember(members[1..], key, value)
  }

  function TextOrNull(text: Option<string>): Json {
    if text.Some? then String(text.value) else Null
  }

  function SetAnnotations(members: seq<Member>, annotations: seq<Annotation>): seq<Member>
    decreases |annotations|
  {
    if annotations == [] then members
    else SetAnnotations(SetMember(members, annotations[0].key, TextOrNull(annotations[0].value)), annotations[1..])
  }

  /** cc_oci_annotations_to_json. */
  method AnnotationsToJson(annotations: seq<Annotation>) returns (members: seq<Member>)
    ensures members == SetAnnotations([], annotations)
  {
    members := [];
    var i := 0;
    while i < |annotations|
      invariant 0 <= i <= |annotations|
      invariant SetAnnotations(members, annotations[i..]) == SetAnnotations([], annotations)
    {
      members := SetMember(members, annotations[i].key, TextOrNull(annotations[i].value));
      i := i + 1;
    }
  }

  function Vector(strv: Option<seq<string>>): seq<Json> {
    if strv.Some? then Spec.StringArray(strv.value) else []
  }

  /** cc_oci_process_to_json; the user is written as an empty object. */
  function ProcessMembers(p: Process): seq<Member> {
    [Member("cwd", String(p.cwd)), Member("terminal", Boolean(p.terminal)), Member("user", Object([])),
     Member("args", Array(Vector(p.args))), Member("env", Array(Vector(p.env))),
     Member("stdio_stream", Integer(p.stdio)), Member("stderr_stream", Integer(p.stderr))]
  }

  function Unsigned(x: Int32): nat {
    x % 0x1_0000_0000
  }

  function VmMembers(vm: VmCfg): seq<Member> {
    [Member("pid", Integer(Unsigned(vm.pid))), Member("hypervisor_path", String(vm.hypervisor)),
     Member("image_path", String(vm.image)), Member("kernel_path", String(vm.kernel)),
     Member("workload_path", String(vm.workload)), Member("kernel_params", String(OrBlank(vm.params)))]
  }

  function ProxyMembers(proxy: Proxy): seq<Member> {
    [Member("ctlSocket", String(OrBlank(proxy.ctl))), Member("ioSocket", String(OrBlank(proxy.io))),
     Member("consoleSocket", String(OrBlank(proxy.console)))]
  }

  function PodMembers(pod: Pod): seq<Member> {
    [Member("sandbox", Boolean(pod.sandbox)), Member("sandbox_name", String(OrBlank(pod.name)))]
  }

  /** What the writer insists on. */
  predicate Writable(c: Config) {
    && c.id.Some? && c.id.value != "" && c.bundle.Some?
    && c.runtimePath != "" && c.comms != "" && c.procsock != ""
    && c.vm.Some? && c.proxy.Some?
    && c.status != Invalid
    && c.process.args.Some? && c.process.cwd != ""
  }

  function BasicMembers(c: Config, timestamp: string): seq<Member>
    requires Writable(c)
  {
    [Member("ociVersion", String(SPEC_VERSION)), Member("id", String(c.id.value)),
     Member("pid", Integer(Unsigned(c.pid))), Member("bundlePath", String(c.bundle.value)),
     Member("commsPath", String(c.comms)), Member("processPath", String(c.procsock)),
     Member("status", String(StatusText(c.status).value)), Member("created", String(timestamp))]
  }

  function ConsoleTree(console: Option<string>): Json {
    if console.Some? then Object([Member("path", String(console.value))]) else Null
  }

  function DetailMembers(c: Config): seq<Member>
    requires Writable(c)
  {
    [Member("mounts", Array(MountObjects(c.mounts))), Member("process", Object(ProcessMembers(c.process))),
     Member("console", ConsoleTree(c.console)),
     Member("vm", Object(VmMembers(c.vm.value))), Member("proxy", Object(ProxyMembers(c.proxy.value)))]
  }

  function OptionalMembers(c: Config): seq<Member> {
    (if c.pod.Some? then [Member("pod", Object(PodMembers(c.pod.value)))] else [])
    + if c.annotations != [] then [Member("annotations", Object(SetAnnotations([], c.annotations)))] else []
  }

  function StateTree(c: Config, timestamp: string): Json
    requires Writable(c)
  {
    Object(BasicMembers(c, timestamp) + DetailMembers(c) + OptionalMembers(c))
  }

  /** cc_oci_state_file_create, up to the text of the tree. */
  method StateFileCreate(c: Config, timestamp: string) returns (tree: Option<Json>)
    ensures tree.Some? <==> Writable(c)
    ensures Writable(c) ==> tree == Some(StateTree(c, timestamp))
  {
    if c.id.None? || c.id.value == "" || c.bundle.None? || c.runtimePath == "" || c.comms == "" || c.procsock == "" {
      return None;
    }
    if c.vm.None? || c.proxy.None? { return None; }
    var obj := [Member("ociVersion", String(SPEC_VERSION)), Member("id", String(c.id.value)),
                Member("pid", Integer(Unsigned(c.pid))), Member("bundlePath", String(c.bundle.value)),
                Member("commsPath", String(c.comms)), Member("processPath", String(c.procsock))];
    var status := StatusToStr(c.status);
    if status.None? { return None; }
    obj := obj + [Member("status", String(status.value)), Member("created", String(timestamp))];
    var mounts := MountsToJson(c.mounts);
    if c.process.args.None? || c.process.cwd == "" { return None; }
    assert obj == BasicMembers(c, timestamp);
    obj := obj + [Member("mounts", Array(mounts)), Member("process", Object(ProcessMembers(c.process))),
                  Member("console", if c.console.Some? then Object([Member("path", String(c.console.value))]) else Null),
                  Member("vm", Object(VmMembers(c.vm.value))), Member("proxy", Object(ProxyMembers(c.proxy.value)))];
    assert obj == BasicMembers(c, timestamp) + DetailMembers(c);
    if c.pod.Some? {
      obj := obj + [Member("pod", Object(PodMembers(c.pod.value)))];
    }
    if c.annotations != [] {
      var members := AnnotationsToJson(c.annotations);
      obj := obj + [Member("annotations", Object(members))];
    }
    assert obj == BasicMembers(c, timestamp) + DetailMembers(c) + OptionalMembers(c);
    return Some(Object(obj));
  }

  // ------------------------------------------------------------------
  // What a written file reads back as.

  /** A vector without strings cannot be told from a missing one. */
  function VectorBack(strv: Option<seq<string>>): Option<seq<string>> {
    if strv.Some? && strv.value != [] then strv else None
  }

  /** The user is written as an empty object, so that the ids are lost. */
  function ProcessBack(p: Process): Process {
    p.(args := VectorBack(p.args), env := VectorBack(p.env), uid := 0, gid := 0)
  }

  function VmBack(vm: VmCfg): VmCfg {
    vm.(params := Some(OrBlank(vm.params)))
  }

  function ProxyBack(proxy: Proxy): Proxy {
    Proxy(Some(OrBlank(proxy.ctl)), Some(OrBlank(proxy.io)), Some(OrBlank(proxy.console)))
  }

  function PodBack(pod: Option<Pod>): Option<Pod> {
    if pod.Some? then Some(Pod(pod.value.sandbox, Some(OrBlank(pod.value.name)))) else None
  }

  /** The annotations of an object's members, last one first; nulls are dropped. */
  function AnnotationsBack(members: seq<Member>): seq<Annotation> {
    if members == [] then []
    else AnnotationsBack(members[1..])
         + if members[0].value.String? then [Annotation(members[0].key, Some(members[0].value.s))] else []
  }

  function StateBack(c: Config, timestamp: string): State
    requires Writable(c)
  {
    State(Some(SPEC_VERSION), c.id, c.pid, c.bundle, Some(c.comms), Some(c.procsock), c.status, Some(timestamp),
          Made(c.mounts), AnnotationsBack(SetAnnotations([], c.annotations)), c.console,
          VmBack(c.vm.value), ProxyBack(c.proxy.value), PodBack(c.pod), Some(ProcessBack(c.process)))
  }

  function NodeOf(m: Member): GNode {
    GNode(Some(m.key), Flatten(m.value, false))
  }

  lemma FlattenCons(m: Member, rest: seq<Member>)
    ensures FlattenMembers([m] + rest) == [NodeOf(m)] + FlattenMembers(rest)
  {
    assert ([m] + rest)[1..] == rest;
  }

  predicate Scalars(members: seq<Member>) {
    forall i :: 0 <= i < |members| ==> IsScalar(members[i].value)
  }

  /** The handlers applied to named values, without the nodes. */
  function Fields(section: Section, st: State, members: seq<Member>): (State, nat)
    requires !OneText(section) && Scalars(members)
    decreases |members|
  {
    if members == [] then (st, 0)
    else
      var (first, counted) := HandleField(section, st, members[0].key, ScalarText(members[0].value));
      var (last, n) := Fields(section, first, members[1..]);
      (last, (if counted then 1 else 0) + n)
  }

  lemma FieldsCons(section: Section, st: State, m: Member, rest: seq<Member>)
    requires !OneText(section) && IsScalar(m.value) && Scalars(rest)
    ensures Scalars([m] + rest)
    ensures var (first, counted) := HandleField(section, st, m.key, ScalarText(m.value));
            var (last, n) := Fields(section, first, rest);
            Fields(section, st, [m] + rest) == (last, (if counted then 1 else 0) + n)
  {
    var ms := [m] + rest;
    assert ms[0] == m && ms[1..] == rest;
  }

  lemma AllCons(section: Section, st: State, node: GNode, rest: seq<GNode>)
    ensures var (first, counted) := Handle(section, st, node);
            var (last, n) := HandleAll(section, first, rest);
            HandleAll(section, st, [node] + rest) == (last, (if counted then 1 else 0) + n)
  {
    var ns := [node] + rest;
    assert ns[0] == node && ns[1..] == rest;
    hide Handle;
  }

  lemma {:induction false} AllAppend(section: Section, st: State, a: seq<GNode>, b: seq<GNode>)
    ensures var (mid, n) := HandleAll(section, st, a);
            var (last, k) := HandleAll(section, mid, b);
            HandleAll(section, st, a + b) == (last, n + k)
    decreases |a|
  {
    hide Handle;
    if a == [] {
      assert a + b == b;
    } else {
      assert (a + b)[0] == a[0] && (a + b)[1..] == a[1..] + b;
      AllAppend(section, Handle(section, st, a[0]).0, a[1..], b);
    }
  }

  lemma FieldNode(section: Section, st: State, m: Member)
    requires !OneText(section) && IsScalar(m.value)
    ensures Handle(section, st, NodeOf(m)) == HandleField(section, st, m.key, ScalarText(m.value))
  {
    assert Flatten(m.value, false) == [GNode(Some(ScalarText(m.value)), [])];
    hide HandleField, ScalarText, Flatten;
  }

  lemma {:induction false} AllFields(section: Section, st: State, members: seq<Member>)
    requires !OneText(section) && Scalars(members)
    ensures HandleAll(section, st, FlattenMembers(members)) == Fields(section, st, members)
    decreases |members|
  {
    if members != [] {
      var m, rest := members[0], members[1..];
      assert members == [m] + rest;
      FlattenCons(m, rest);
      FieldNode(section, st, m);
      AllCons(section, st, NodeOf(m), FlattenMembers(rest));
      var first := HandleField(section, st, m.key, ScalarText(m.value)).0;
      AllFields(section, first, rest);
      hide HandleField, Handle, HandleAll, FlattenMembers, ScalarText, NodeOf;
    }
  }

  lemma ObjectFields(section: Section, st: State, members: seq<Member>)
    requires !OneText(section) && Scalars(members)
    ensures HandleAll(section, st, Flatten(Object(members), false)) == Fields(section, st, members)
  {
    AllCons(section, st, Separator, FlattenMembers(members));
    assert Handle(section, st, Separator) == (st, false);
    AllFields(section, st, members);
    hide HandleAll, Fields, FlattenMembers, Handle;
  }

  // ------------------------------------------------------------------
  // Section by section.

  lemma VmPidRead(v: VmCfg, pid: Int32)
    requires FitsInt(pid)
    ensures HandleVm(v, "pid", FromInt(Unsigned(pid))) == (v.(pid := pid), true)
  {
    PidBack(pid);
    hide Strtoll, FromInt, Narrow, Unsigned, FitsInt, Copied;
  }

  lemma VmPathsRead(v: VmCfg, vm: VmCfg)
    requires FitsVm(vm)
    ensures HandleVm(v, "hypervisor_path", vm.hypervisor) == (v.(hypervisor := vm.hypervisor), true)
    ensures HandleVm(v, "image_path", vm.image) == (v.(image := vm.image), true)
    ensures HandleVm(v, "kernel_path", vm.kernel) == (v.(kernel := vm.kernel), true)
    ensures HandleVm(v, "workload_path", vm.workload) == (v.(workload := vm.workload), true)
  {
    hide Strtoll;
  }

  lemma VmParamsRead(v: VmCfg, params: string)
    ensures HandleVm(v, "kernel_params", params) == (v.(params := Some(params)), true)
  {
    hide Strtoll, Copied;
    assert "kernel_params"[0] == 'k' && "workload_path"[0] == 'w';
  }

  lemma VmFields(st: State, v: VmCfg, key: string, value: Json, v1: VmCfg, rest: seq<Member>)
    requires IsScalar(value) && Scalars(rest) && HandleVm(v, key, ScalarText(value)) == (v1, true)
    ensures Scalars([Member(key, value)] + rest)
    ensures var (last, n) := Fields(Vm, st.(vm := v1), rest);
            Fields(Vm, st.(vm := v), [Member(key, value)] + rest) == (last, n + 1)
  {
    FieldsCons(Vm, st.(vm := v), Member(key, value), rest);
    hide HandleVm, ScalarText, Fields, Scalars;
  }

  function VmLast(vm: VmCfg): seq<Member> {
    [Member("kernel_path", String(vm.kernel))] + ([Member("workload_path", String(vm.workload))]
    + ([Member("kernel_params", String(OrBlank(vm.params)))] + []))
  }

  lemma VmLastRead(st: State, v: VmCfg, vm: VmCfg)
    requires FitsVm(vm)
    ensures Scalars(VmLast(vm))
    ensures Fields(Vm, st.(vm := v), VmLast(vm))
         == (st.(vm := v.(kernel := vm.kernel, workload := vm.workload, params := Some(OrBlank(vm.params)))), 3)
  {
    var v1 := v.(kernel := vm.kernel);
    var v2 := v1.(workload := vm.workload);
    var v3 := v2.(params := Some(OrBlank(vm.params)));
    VmPathsRead(v, vm);
    VmPathsRead(v1, vm);
    VmParamsRead(v2, OrBlank(vm.params));
    var t2 := [Member("kernel_params", String(OrBlank(vm.params)))] + [];
    assert Fields(Vm, st.(vm := v3), []) == (st.(vm := v3), 0);
    hide HandleVm, OrBlank, FitsVm, Fields;
    VmFields(st, v2, "kernel_params", String(OrBlank(vm.params)), v3, []);
    VmFields(st, v1, "workload_path", String(vm.workload), v2, t2);
    VmFields(st, v, "kernel_path", String(vm.kernel), v1, [Member("workload_path", String(vm.workload))] + t2);
  }

  lemma VmShape(st: State, vm: VmCfg)
    ensures VmMembers(vm)
         == [Member("pid", Integer(Unsigned(vm.pid)))] + ([Member("hypervisor_path", String(vm.hypervisor))]
            + ([Member("image_path", String(vm.image))] + VmLast(vm)))
    ensures st.vm.(pid := vm.pid, hypervisor := vm.hypervisor, image := vm.image, kernel := vm.kernel,
                   workload := vm.workload, params := Some(OrBlank(vm.params))) == VmBack(vm)
  {
    hide Unsigned;
  }

  lemma VmRead(st: State, vm: VmCfg)
    requires FitsVm(vm)
    ensures Scalars(VmMembers(vm))
    ensures Fields(Vm, st, VmMembers(vm)) == (st.(vm := VmBack(vm)), 6)
  {
    var v1 := st.vm.(pid := vm.pid);
    var v2 := v1.(hypervisor := vm.hypervisor);
    var v3 := v2.(image := vm.image);
    VmShape(st, vm);
    VmPidRead(st.vm, vm.pid);
    VmPathsRead(v1, vm);
    VmPathsRead(v2, vm);
    VmLastRead(st, v3, vm);
    hide HandleVm, VmBack, FromInt, Unsigned, OrBlank, FitsVm, VmMembers, VmLast, Fields;
    var t2 := [Member("image_path", String(vm.image))] + VmLast(vm);
    var t1 := [Member("hypervisor_path", String(vm.hypervisor))] + t2;
    VmFields(st, v2, "image_path", String(vm.image), v3, VmLast(vm));
    VmFields(st, v1, "hypervisor_path", String(vm.hypervisor), v2, t2);
    VmFields(st, st.vm, "pid", Integer(Unsigned(vm.pid)), v1, t1);
    assert st.(vm := st.vm) == st;
  }

  lemma PidBack(x: Int32)
    requires FitsInt(x)
    ensures var r := Strtoll(FromInt(Unsigned(x))); Narrow(r.0) == x && r.1
    ensures var r := Strtoll(FromInt(x)); Narrow(r.0) == x
  {
    ToInt32OfUnsigned(x);
    StrtollOfInt(Unsigned(x), "");
    StrtollOfInt(x, "");
    assert FromInt(Unsigned(x)) + "" == FromInt(Unsigned(x)) && FromInt(x) + "" == FromInt(x);
    hide FromInt, Strtoll, ToInt32;
  }

  lemma ProxyRead(st: State, proxy: Proxy)
    ensures Scalars(ProxyMembers(proxy))
    ensures Fields(ProxySockets, st, ProxyMembers(proxy)) == (st.(proxy := ProxyBack(proxy)), 3)
  {
    var ms := ProxyMembers(proxy);
    assert ms == [ms[0]] + ([ms[1]] + ([ms[2]] + []));
    var p1 := st.proxy.(ctl := Some(OrBlank(proxy.ctl)));
    var p2 := p1.(io := Some(OrBlank(proxy.io)));
    FieldsCons(ProxySockets, st.(proxy := p2), ms[2], []);
    FieldsCons(ProxySockets, st.(proxy := p1), ms[1], [ms[2]] + []);
    FieldsCons(ProxySockets, st, ms[0], [ms[1]] + ([ms[2]] + []));
  }

  lemma PodRead(st: State, pod: Pod)
    requires st.pod.None?
    ensures Scalars(PodMembers(pod))
    ensures Fields(PodInfo, st, PodMembers(pod)) == (st.(pod := PodBack(Some(pod))), 2)
  {
    var ms := PodMembers(pod);
    assert ms == [ms[0]] + ([ms[1]] + []);
    assert "true"[0] == 't' && "false"[0] == 'f';
    FieldsCons(PodInfo, st.(pod := Some(Pod(pod.sandbox, None))), ms[1], []);
    FieldsCons(PodInfo, st, ms[0], [ms[1]] + []);
  }

  lemma MountRead(st: State, m: Mount)
    requires !m.ignored && FitsPath(m.dest)
    ensures HandleAll(Mounts, st, Flatten(Object(MountMembers(m)), true)) == (st.(mounts := st.mounts + [m]), 0)
  {
    var ms := MountMembers(m);
    ObjectFields(Mounts, st, ms);
    assert Flatten(Object(ms), true) == Flatten(Object(ms), false);
    var blank := st.mounts + [Mount(m.dest, None, false)];
    hide HandleAll, Flatten;
    if m.created.Some? {
      assert ms == [ms[0]] + ([ms[1]] + []);
      FieldsCons(Mounts, st.(mounts := blank), ms[1], []);
      FieldsCons(Mounts, st, ms[0], [ms[1]] + []);
      assert HandleMount(blank, "directory_created", m.created.value) == st.mounts + [m];
    } else {
      assert ms == [ms[0]] + [];
      FieldsCons(Mounts, st, ms[0], []);
    }
  }

  lemma {:induction false} MountsRead(st: State, mounts: seq<Mount>)
    requires FitMounts(mounts)
    ensures HandleAll(Mounts, st, FlattenElems(MountObjects(mounts))) == (st.(mounts := st.mounts + Made(mounts)), 0)
    decreases |mounts|
  {
    if mounts == [] {
      assert st.mounts + [] == st.mounts;
    } else {
      var m, rest := mounts[0], mounts[1..];
      if m.ignored {
        assert [] + MountObjects(rest) == MountObjects(rest) && [] + Made(rest) == Made(rest);
        MountsRead(st, rest);
      } else {
        var obj := Object(MountMembers(m));
        assert MountObjects(mounts) == [obj] + MountObjects(rest);
        FlattenElemsAppend([obj], MountObjects(rest));
        FlattenElemsOne(obj);
        MountRead(st, m);
        AllAppend(Mounts, st, Flatten(obj, true), FlattenElems(MountObjects(rest)));
        MountsRead(st.(mounts := st.mounts + [m]), rest);
        assert st.mounts + [m] + Made(rest) == st.mounts + ([m] + Made(rest));
        hide Flatten, FlattenElems, HandleAll, MountMembers;
      }
    }
  }

  predicate TextsOrNulls(members: seq<Member>) {
    forall i :: 0 <= i < |members| ==> members[i].value.String? || members[i].value.Null?
  }

  lemma {:induction false} AnnotationsRead(st: State, members: seq<Member>)
    requires TextsOrNulls(members)
    ensures HandleAll(Annotations, st, FlattenMembers(members))
         == (st.(annotations := AnnotationsBack(members) + st.annotations), 0)
    decreases |members|
  {
    if members == [] {
      assert [] + st.annotations == st.annotations;
    } else {
      var m, rest := members[0], members[1..];
      assert members == [m] + rest;
      FlattenCons(m, rest);
      AllCons(Annotations, st, NodeOf(m), FlattenMembers(rest));
      if m.value.String? {
        FieldNode(Annotations, st, m);
        var one := [Annotation(m.key, Some(m.value.s))];
        AnnotationsRead(st.(annotations := one + st.annotations), rest);
        assert AnnotationsBack(rest) + (one + st.annotations) == (AnnotationsBack(rest) + one) + st.annotations;
      } else {
        assert Handle(Annotations, st, NodeOf(m)) == (st, false);
        AnnotationsRead(st, rest);
        assert AnnotationsBack(rest) + [] == AnnotationsBack(rest);
      }
      hide HandleAll, FlattenMembers, NodeOf, Handle;
    }
  }

  lemma {:induction false} SetMemberKinds(members: seq<Member>, key: string, value: Option<string>)
    requires TextsOrNulls(members)
    ensures TextsOrNulls(SetMember(members, key, TextOrNull(value)))
  {
    if members != [] && members[0].key != key { SetMemberKinds(members[1..], key, value); }
  }

  lemma {:induction false} SetAnnotationsKinds(members: seq<Member>, annotations: seq<Annotation>)
    requires TextsOrNulls(members)
    ensures TextsOrNulls(SetAnnotations(members, annotations))
    decreases |annotations|
  {
    if annotations != [] {
      SetMemberKinds(members, annotations[0].key, annotations[0].value);
      SetAnnotationsKinds(SetMember(members, annotations[0].key, TextOrNull(annotations[0].value)), annotations[1..]);
    }
  }

  lemma ProcessCons(p: Process, m: Member, rest: seq<Member>)
    ensures ReadProcess(p, FlattenMembers([m] + rest)) == ReadProcess(HandleProcess(p, NodeOf(m)), FlattenMembers(rest))
  {
    FlattenCons(m, rest);
    var nodes := [NodeOf(m)] + FlattenMembers(rest);
    assert nodes[0] == NodeOf(m) && nodes[1..] == FlattenMembers(rest);
    hide HandleProcess, FlattenMembers, NodeOf;
  }

  lemma VectorRead(p: Process, strv: Option<seq<string>>)
    requires p.args.None?
    ensures HandleProcess(p, NodeOf(Member("args", Array(Vector(strv))))) == p.(args := VectorBack(strv))
  {
    var texts := if strv.Some? then strv.value else [];
    Spec.TextsOfStrings(texts);
    assert Vector(strv) == Spec.StringArray(texts);
    assert Flatten(Array(Vector(strv)), false) == FlattenElems(Vector(strv));
    hide Flatten, FlattenElems, Spec.Texts, Vector;
  }

  lemma EnvRead(p: Process, strv: Option<seq<string>>)
    requires p.env.None?
    ensures HandleProcess(p, NodeOf(Member("env", Array(Vector(strv))))) == p.(env := VectorBack(strv))
  {
    var texts := if strv.Some? then strv.value else [];
    Spec.TextsOfStrings(texts);
    assert Vector(strv) == Spec.StringArray(texts);
    assert Flatten(Array(Vector(strv)), false) == FlattenElems(Vector(strv));
    hide Flatten, FlattenElems, Spec.Texts, Vector;
    assert "cwd"[0] == 'c' && "env"[0] == 'e';
  }

  lemma ScalarsRead(p: Process, q: Process)
    requires FitsProcess(q)
    ensures HandleProcess(p, NodeOf(Member("cwd", String(q.cwd)))) == p.(cwd := q.cwd)
    ensures HandleProcess(p, NodeOf(Member("terminal", Boolean(q.terminal)))) == p.(terminal := q.terminal)
    ensures HandleProcess(p, NodeOf(Member("user", Object([])))) == p
  {
    assert "true"[0] == 't' && "false"[0] == 'f' && "user"[0] == 'u' && "args"[0] == 'a';
    assert HandleUser(p, [Separator]) == p by { assert [Separator][1..] == []; }
    hide Strtoll, FromInt, Spec.IntOf, Spec.Texts, HandleUser;
  }

  lemma StreamNodes(p: Process, text: string)
    ensures HandleProcess(p, GNode(Some("stdio_stream"), [GNode(Some(text), [])])) == p.(stdio := AtoI(Some(text)))
    ensures HandleProcess(p, GNode(Some("stderr_stream"), [GNode(Some(text), [])])) == p.(stderr := AtoI(Some(text)))
  {
    hide AtoI, Spec.Texts, Copied, Spec.Shown;
  }

  lemma StreamsRead(p: Process, x: Int32)
    requires FitsInt(x)
    ensures HandleProcess(p, NodeOf(Member("stdio_stream", Integer(x)))) == p.(stdio := x)
    ensures HandleProcess(p, NodeOf(Member("stderr_stream", Integer(x)))) == p.(stderr := x)
  {
    StreamRead(x);
    StreamNodes(p, FromInt(x));
    hide HandleProcess, Flatten, AtoI, FromInt;
  }

  lemma StreamRead(x: Int32)
    requires FitsInt(x)
    ensures Flatten(Integer(x), false) == [GNode(Some(FromInt(x)), [])]
    ensures AtoI(Some(FromInt(x))) == x
  {
    PidBack(x);
    hide Strtoll, FromInt;
  }

  lemma ProcessRead(q: Process)
    requires FitsProcess(q)
    ensures ReadProcess(BlankProcess, Flatten(Object(ProcessMembers(q)), false)) == ProcessBack(q)
  {
    var ms := ProcessMembers(q);
    var t6 := [ms[6]] + [];
    var t5 := [ms[5]] + t6;
    var t4 := [ms[4]] + t5;
    var t3 := [ms[3]] + t4;
    var t2 := [ms[2]] + t3;
    var t1 := [ms[1]] + t2;
    assert ms == [ms[0]] + t1;
    var p1 := BlankProcess.(cwd := q.cwd);
    var p2 := p1.(terminal := q.terminal);
    var p4 := p2.(args := VectorBack(q.args));
    var p5 := p4.(env := VectorBack(q.env));
    var p6 := p5.(stdio := q.stdio);
    var nodes := Flatten(Object(ms), false);
    assert nodes[0] == Separator && nodes[1..] == FlattenMembers(ms);
    assert ReadProcess(BlankProcess, nodes) == ReadProcess(BlankProcess, FlattenMembers(ms));
    ScalarsRead(BlankProcess, q);
    ScalarsRead(p1, q);
    ScalarsRead(p2, q);
    VectorRead(p2, q.args);
    EnvRead(p4, q.env);
    StreamsRead(p5, q.stdio);
    StreamsRead(p6, q.stderr);
    hide HandleProcess, Flatten, FlattenMembers, NodeOf, Vector, VectorBack;
    ProcessCons(BlankProcess, ms[0], t1);
    ProcessCons(p1, ms[1], t2);
    ProcessCons(p2, ms[2], t3);
    ProcessCons(p2, ms[3], t4);
    ProcessCons(p4, ms[4], t5);
    ProcessCons(p5, ms[5], t6);
    ProcessCons(p6, ms[6], []);
    assert FlattenMembers([]) == [];
  }

  // ------------------------------------------------------------------
  // The whole file.

  lemma HandlerNames(k: nat)
    requires k < 14
    ensures Find(HANDLERS[k].0, 0) == k
  {
    NamesDiffer();
    assert forall i, j :: 0 <= i < j < 14 ==> HANDLERS[i].0 != HANDLERS[j].0;
    FindIs(HANDLERS[k].0, k);
  }

  lemma NamesDiffer()
    ensures "ociVersion" != "bundlePath" && "id" != "vm" && "pid" != "pod" && "processPath" != "annotations"
    ensures "status" != "mounts" && "created" != "console" && "created" != "process" && "console" != "process"
  {
    assert "ociVersion"[0] == 'o' && "bundlePath"[0] == 'b' && "id"[0] == 'i' && "vm"[0] == 'v';
    assert "pid"[1] == 'i' && "pod"[1] == 'o' && "processPath"[0] == 'p' && "annotations"[0] == 'a';
    assert "status"[0] == 's' && "mounts"[0] == 'm' && "created"[1] == 'r' && "console"[1] == 'o';
    assert "process"[0] == 'p' && "created"[0] == 'c' && "console"[0] == 'c';
  }

  lemma SectionsCons(r: Reading, m: Member, rest: seq<Member>)
    requires |r.counts| == 14
    ensures HandleSections(r, FlattenMembers([m] + rest)) == HandleSections(HandleSection(r, NodeOf(m)), FlattenMembers(rest))
  {
    FlattenCons(m, rest);
    var nodes := [NodeOf(m)] + FlattenMembers(rest);
    assert nodes[0] == NodeOf(m) && nodes[1..] == FlattenMembers(rest);
    hide HandleSection, FlattenMembers, NodeOf;
  }

  /** A section that is one value. */
  lemma TextSection(r: Reading, k: nat, value: Json)
    requires |r.counts| == 14 && k < 8 && IsScalar(value)
    ensures OneText(HANDLERS[k].1)
    ensures var (st, counted) := HandleText(HANDLERS[k].1, r.st, ScalarText(value));
            HandleSection(r, NodeOf(Member(HANDLERS[k].0, value)))
            == Reading(st, Bump(r.counts, k, if counted then 1 else 0))
  {
    HandlerNames(k);
    var node := GNode(Some(ScalarText(value)), []);
    assert Flatten(value, false) == [node] + [];
    AllCons(HANDLERS[k].1, r.st, node, []);
    hide HandleText, Find, Flatten, ScalarText;
  }

  lemma SectionIs(r: Reading, k: nat, m: Member)
    requires |r.counts| == 14 && k < 14 && m.key == HANDLERS[k].0
    ensures var (st, n) := HandleAll(HANDLERS[k].1, r.st, Flatten(m.value, false));
            HandleSection(r, NodeOf(m)) == Reading(st, Bump(r.counts, k, n))
  {
    HandlerNames(k);
    hide Find, HandleAll, Flatten;
  }

  function BasicState(c: Config, timestamp: string, st: State): State
    requires Writable(c)
  {
    st.(version := Some(SPEC_VERSION), id := c.id, pid := c.pid, bundle := c.bundle, comms := Some(c.comms),
        procsock := Some(c.procsock), status := c.status, created := Some(timestamp))
  }

  /** The sections that are one string. */
  lemma StringSection(r: Reading, k: nat, text: string)
    requires |r.counts| == 14 && k < 8 && k != 2
    ensures OneText(HANDLERS[k].1)
    ensures HandleSection(r, NodeOf(Member(HANDLERS[k].0, String(text))))
         == Reading(HandleText(HANDLERS[k].1, r.st, text).0, Bump(r.counts, k, 1))
  {
    TextSection(r, k, String(text));
    hide HandleSection, NodeOf, Bump, StatusOf;
  }

  lemma PidText(st: State, pid: Int32)
    requires FitsInt(pid)
    ensures HandleText(Pid, st, ScalarText(Integer(Unsigned(pid)))) == (st.(pid := pid), true)
  {
    PidBack(pid);
    hide Unsigned, Narrow, FitsInt, Strtoll, FromInt;
  }

  lemma PidSectionOf(r: Reading, value: Json, st: State)
    requires |r.counts| == 14 && IsScalar(value) && HandleText(Pid, r.st, ScalarText(value)) == (st, true)
    ensures HandleSection(r, NodeOf(Member("pid", value))) == Reading(st, Bump(r.counts, 2, 1))
  {
    TextSection(r, 2, value);
    hide ScalarText, HandleText, HandleSection, NodeOf, Bump;
  }

  lemma PidSection(r: Reading, pid: Int32)
    requires |r.counts| == 14 && FitsInt(pid)
    ensures HandleSection(r, NodeOf(Member("pid", Integer(Unsigned(pid))))) == Reading(r.st.(pid := pid), Bump(r.counts, 2, 1))
  {
    PidText(r.st, pid);
    PidSectionOf(r, Integer(Unsigned(pid)), r.st.(pid := pid));
    hide *;
  }

  lemma FirstHandlers()
    ensures HANDLERS[0].0 == "ociVersion" && HANDLERS[0].1 == OciVersion && HANDLERS[1].0 == "id" && HANDLERS[1].1 == Id
    ensures HANDLERS[3].0 == "bundlePath" && HANDLERS[3].1 == BundlePath
    ensures HANDLERS[4].0 == "commsPath" && HANDLERS[4].1 == CommsPath && HANDLERS[5].0 == "processPath" && HANDLERS[5].1 == ProcessPath
    ensures HANDLERS[6].0 == "status" && HANDLERS[6].1 == StatusName && HANDLERS[7].0 == "created" && HANDLERS[7].1 == CreateTime
  {
  }

  function EightBumps(counts: seq<nat>): (bumped: seq<nat>)
    requires |counts| == 14
    ensures |bumped| == 14
  {
    Bump(Bump(Bump(Bump(Bump(Bump(Bump(Bump(counts, 0, 1), 1, 1), 2, 1), 3, 1), 4, 1), 5, 1), 6, 1), 7, 1)
  }

  lemma IdentityRead(r: Reading, id: string, pid: Int32, bundle: string, rest: seq<Member>)
    requires |r.counts| == 14 && FitsInt(pid)
    ensures HandleSections(r, FlattenMembers(
                [Member("ociVersion", String(SPEC_VERSION))] + ([Member("id", String(id))]
                + ([Member("pid", Integer(Unsigned(pid)))] + ([Member("bundlePath", String(bundle))] + rest)))))
         == HandleSections(Reading(r.st.(version := Some(SPEC_VERSION), id := Some(id), pid := pid, bundle := Some(bundle)),
                                   Bump(Bump(Bump(Bump(r.counts, 0, 1), 1, 1), 2, 1), 3, 1)), FlattenMembers(rest))
  {
    FirstHandlers();
    hide HandleSection, HandleSections, NodeOf, FlattenMembers, Bump, Unsigned, HANDLERS, SPEC_VERSION, FitsInt, Strtoll;
    var r1 := Reading(r.st.(version := Some(SPEC_VERSION)), Bump(r.counts, 0, 1));
    var r2 := Reading(r1.st.(id := Some(id)), Bump(r1.counts, 1, 1));
    var r3 := Reading(r2.st.(pid := pid), Bump(r2.counts, 2, 1));
    var r4 := Reading(r3.st.(bundle := Some(bundle)), Bump(r3.counts, 3, 1));
    var m2, m3 := Member("pid", Integer(Unsigned(pid))), Member("bundlePath", String(bundle));
    assert HandleText(OciVersion, r.st, SPEC_VERSION).0 == r1.st && HandleText(Id, r1.st, id).0 == r2.st;
    assert HandleText(BundlePath, r3.st, bundle).0 == r4.st;
    hide HandleText;
    StringSection(r, 0, SPEC_VERSION);
    StringSection(r1, 1, id);
    TwoSections(r, Member("ociVersion", String(SPEC_VERSION)), r1, Member("id", String(id)), r2, [m2] + ([m3] + rest));
    PidSection(r2, pid);
    StringSection(r3, 3, bundle);
    TwoSections(r2, m2, r3, m3, r4, rest);
  }

  lemma ProgressRead(r: Reading, comms: string, procsock: string, status: Status, time: string, rest: seq<Member>)
    requires |r.counts| == 14 && status != Invalid
    ensures HandleSections(r, FlattenMembers(
                [Member("commsPath", String(comms))] + ([Member("processPath", String(procsock))]
                + ([Member("status", String(StatusText(status).value))] + ([Member("created", String(time))] + rest)))))
         == HandleSections(Reading(r.st.(comms := Some(comms), procsock := Some(procsock), status := status, created := Some(time)),
                                   Bump(Bump(Bump(Bump(r.counts, 4, 1), 5, 1), 6, 1), 7, 1)), FlattenMembers(rest))
  {
    StatusRoundTrip(status);
    FirstHandlers();
    hide HandleSection, HandleSections, NodeOf, FlattenMembers, Bump, HANDLERS, StatusText, StatusOf, Strtoll;
    var r1 := Reading(r.st.(comms := Some(comms)), Bump(r.counts, 4, 1));
    var r2 := Reading(r1.st.(procsock := Some(procsock)), Bump(r1.counts, 5, 1));
    var r3 := Reading(r2.st.(status := status), Bump(r2.counts, 6, 1));
    var r4 := Reading(r3.st.(created := Some(time)), Bump(r3.counts, 7, 1));
    var m2, m3 := Member("status", String(StatusText(status).value)), Member("created", String(time));
    assert HandleText(CommsPath, r.st, comms).0 == r1.st && HandleText(ProcessPath, r1.st, procsock).0 == r2.st;
    assert HandleText(StatusName, r2.st, StatusText(status).value).0 == r3.st && HandleText(CreateTime, r3.st, time).0 == r4.st;
    hide HandleText;
    StringSection(r, 4, comms);
    StringSection(r1, 5, procsock);
    TwoSections(r, Member("commsPath", String(comms)), r1, Member("processPath", String(procsock)), r2, [m2] + ([m3] + rest));
    StringSection(r2, 6, StatusText(status).value);
    StringSection(r3, 7, time);
    TwoSections(r2, m2, r3, m3, r4, rest);
  }

  lemma BasicsRead(c: Config, timestamp: string, r: Reading, rest: seq<Member>)
    requires Fits(c) && Writable(c) && |r.counts| == 14
    ensures HandleSections(r, FlattenMembers(BasicMembers(c, timestamp) + rest))
         == HandleSections(Reading(BasicState(c, timestamp, r.st), EightBumps(r.counts)), FlattenMembers(rest))
  {
    var ms := BasicMembers(c, timestamp);
    var t4 := [ms[4]] + ([ms[5]] + ([ms[6]] + ([ms[7]] + rest)));
    assert ms + rest == [ms[0]] + ([ms[1]] + ([ms[2]] + ([ms[3]] + t4)));
    IdentityRead(r, c.id.value, c.pid, c.bundle.value, t4);
    var r4 := Reading(r.st.(version := Some(SPEC_VERSION), id := c.id, pid := c.pid, bundle := c.bundle),
                      Bump(Bump(Bump(Bump(r.counts, 0, 1), 1, 1), 2, 1), 3, 1));
    ProgressRead(r4, c.comms, c.procsock, c.status, timestamp, rest);
    hide HandleSections, FlattenMembers, StatusText, Bump, HANDLERS;
  }

  function DetailState(c: Config, st: State): State
    requires Writable(c)
  {
    st.(mounts := Made(c.mounts), process := Some(ProcessBack(c.process)), console := c.console,
        vm := VmBack(c.vm.value), proxy := ProxyBack(c.proxy.value))
  }

  lemma MountsSection(r: Reading, mounts: seq<Mount>)
    requires FitMounts(mounts) && |r.counts| == 14 && r.st.mounts == []
    ensures HandleSection(r, NodeOf(Member("mounts", Array(MountObjects(mounts)))))
         == r.(st := r.st.(mounts := Made(mounts)))
  {
    SectionIs(r, 8, Member("mounts", Array(MountObjects(mounts))));
    MountsRead(r.st, mounts);
    assert Flatten(Array(MountObjects(mounts)), false) == FlattenElems(MountObjects(mounts));
    assert [] + Made(mounts) == Made(mounts) && Bump(r.counts, 8, 0) == r.counts;
    hide HandleSection, HandleAll, Flatten, FlattenElems, MountObjects, Made, NodeOf;
  }

  lemma ProcessSection(r: Reading, p: Process)
    requires FitsProcess(p) && |r.counts| == 14
    ensures HandleSection(r, NodeOf(Member("process", Object(ProcessMembers(p)))))
         == r.(st := r.st.(process := Some(ProcessBack(p))))
  {
    NamesDiffer();
    FindIs("process", 14);
    ProcessRead(p);
    hide ReadProcess, Flatten, ProcessMembers, ProcessBack, Find;
  }

  lemma ConsoleSection(r: Reading, console: Option<string>)
    requires |r.counts| == 14 && r.st.console.None?
    ensures HandleSection(r, NodeOf(Member("console", ConsoleTree(console))))
         == Reading(r.st.(console := console), Bump(r.counts, 9, if console.Some? then 1 else 0))
  {
    if console.Some? {
      var m := Member("path", String(console.value));
      SectionIs(r, 9, Member("console", Object([m])));
      ObjectFields(Console, r.st, [m]);
      assert [m] + [] == [m];
      FieldsCons(Console, r.st, m, []);
    } else {
      SectionIs(r, 9, Member("console", Null));
    }
    hide HandleSection, NodeOf;
  }

  lemma VmSection(r: Reading, vm: VmCfg)
    requires FitsVm(vm) && |r.counts| == 14
    ensures HandleSection(r, NodeOf(Member("vm", Object(VmMembers(vm)))))
         == Reading(r.st.(vm := VmBack(vm)), Bump(r.counts, 10, 6))
  {
    SectionIs(r, 10, Member("vm", Object(VmMembers(vm))));
    VmRead(r.st, vm);
    ObjectFields(Vm, r.st, VmMembers(vm));
    hide HandleSection, NodeOf, HandleAll, Fields, Flatten, VmMembers, VmBack;
  }

  lemma ProxySection(r: Reading, proxy: Proxy)
    requires |r.counts| == 14
    ensures HandleSection(r, NodeOf(Member("proxy", Object(ProxyMembers(proxy)))))
         == Reading(r.st.(proxy := ProxyBack(proxy)), Bump(r.counts, 11, 3))
  {
    SectionIs(r, 11, Member("proxy", Object(ProxyMembers(proxy))));
    ProxyRead(r.st, proxy);
    ObjectFields(ProxySockets, r.st, ProxyMembers(proxy));
    hide HandleSection, NodeOf, HandleAll, Fields, Flatten, ProxyMembers, ProxyBack;
  }

  lemma PodSection(r: Reading, pod: Pod)
    requires |r.counts| == 14 && r.st.pod.None?
    ensures HandleSection(r, NodeOf(Member("pod", Object(PodMembers(pod)))))
         == Reading(r.st.(pod := PodBack(Some(pod))), Bump(r.counts, 12, 2))
  {
    SectionIs(r, 12, Member("pod", Object(PodMembers(pod))));
    PodRead(r.st, pod);
    ObjectFields(PodInfo, r.st, PodMembers(pod));
    hide HandleSection, NodeOf, HandleAll, Fields, Flatten, PodMembers, PodBack;
  }

  lemma AnnotationsSection(r: Reading, annotations: seq<Annotation>)
    requires |r.counts| == 14 && r.st.annotations == []
    ensures HandleSection(r, NodeOf(Member("annotations", Object(SetAnnotations([], annotations)))))
         == r.(st := r.st.(annotations := AnnotationsBack(SetAnnotations([], annotations))))
  {
    var members := SetAnnotations([], annotations);
    SectionIs(r, 13, Member("annotations", Object(members)));
    SetAnnotationsKinds([], annotations);
    AnnotationsRead(r.st, members);
    AllCons(Annotations, r.st, Separator, FlattenMembers(members));
    assert Handle(Annotations, r.st, Separator) == (r.st, false);
    var back := AnnotationsBack(members);
    assert back + [] == back && Bump(r.counts, 13, 0) == r.counts;
    hide HandleSection, NodeOf, HandleAll, Handle, FlattenMembers, SetAnnotations, AnnotationsBack;
  }

  function DetailCounts(c: Config, counts: seq<nat>): seq<nat>
    requires |counts| == 14
  {
    Bump(Bump(Bump(counts, 9, if c.console.Some? then 1 else 0), 10, 6), 11, 3)
  }

  lemma TwoSections(r: Reading, m: Member, r1: Reading, m1: Member, r2: Reading, rest: seq<Member>)
    requires |r.counts| == 14 && HandleSection(r, NodeOf(m)) == r1 && HandleSection(r1, NodeOf(m1)) == r2
    ensures HandleSections(r, FlattenMembers([m] + ([m1] + rest))) == HandleSections(r2, FlattenMembers(rest))
  {
    SectionsCons(r, m, [m1] + rest);
    SectionsCons(r1, m1, rest);
    hide *;
  }

  lemma DetailShape(c: Config, rest: seq<Member>)
    requires Writable(c)
    ensures DetailMembers(c) + rest
         == [Member("mounts", Array(MountObjects(c.mounts)))] + ([Member("process", Object(ProcessMembers(c.process)))]
            + ([Member("console", ConsoleTree(c.console))] + ([Member("vm", Object(VmMembers(c.vm.value)))]
            + ([Member("proxy", Object(ProxyMembers(c.proxy.value)))] + rest))))
  {
    hide MountObjects, ProcessMembers, VmMembers, ProxyMembers;
  }

  lemma DetailsRead(c: Config, r: Reading, rest: seq<Member>)
    requires Fits(c) && Writable(c) && |r.counts| == 14 && r.st.mounts == [] && r.st.console.None?
    ensures HandleSections(r, FlattenMembers(DetailMembers(c) + rest))
         == HandleSections(Reading(DetailState(c, r.st), DetailCounts(c, r.counts)), FlattenMembers(rest))
  {
    DetailShape(c, rest);
    assert FitMounts(c.mounts) && FitsProcess(c.process) && c.vm.Some? && FitsVm(c.vm.value) && c.proxy.Some?;
    hide HandleSection, HandleSections, NodeOf, FlattenMembers, Flatten, DetailMembers, MountObjects, Made, ConsoleTree;
    hide ProcessMembers, ProcessBack, VmMembers, VmBack, ProxyMembers, ProxyBack, HANDLERS, Writable, Fits, FitMounts, FitsProcess, FitsVm;
    var r2 := r.(st := r.st.(mounts := Made(c.mounts), process := Some(ProcessBack(c.process))));
    var r3 := Reading(r2.st.(console := c.console), Bump(r.counts, 9, if c.console.Some? then 1 else 0));
    var m2 := Member("console", ConsoleTree(c.console));
    var t3 := [Member("vm", Object(VmMembers(c.vm.value)))] + ([Member("proxy", Object(ProxyMembers(c.proxy.value)))] + rest);
    MountsAndProcess(r, c.mounts, c.process, [m2] + t3);
    ConsoleSection(r2, c.console);
    SectionsCons(r2, m2, t3);
    VmAndProxy(r3, c.vm.value, c.proxy.value, rest);
  }

  lemma MountsAndProcess(r: Reading, mounts: seq<Mount>, p: Process, rest: seq<Member>)
    requires |r.counts| == 14 && r.st.mounts == [] && FitMounts(mounts) && FitsProcess(p)
    ensures HandleSections(r, FlattenMembers([Member("mounts", Array(MountObjects(mounts)))]
                                             + ([Member("process", Object(ProcessMembers(p)))] + rest)))
         == HandleSections(r.(st := r.st.(mounts := Made(mounts), process := Some(ProcessBack(p)))), FlattenMembers(rest))
  {
    hide *;
    var r1 := r.(st := r.st.(mounts := Made(mounts)));
    MountsSection(r, mounts);
    ProcessSection(r1, p);
    TwoSections(r, Member("mounts", Array(MountObjects(mounts))), r1, Member("process", Object(ProcessMembers(p))),
                r1.(st := r1.st.(process := Some(ProcessBack(p)))), rest);
  }

  lemma VmAndProxy(r: Reading, vm: VmCfg, proxy: Proxy, rest: seq<Member>)
    requires |r.counts| == 14 && FitsVm(vm)
    ensures HandleSections(r, FlattenMembers([Member("vm", Object(VmMembers(vm)))]
                                             + ([Member("proxy", Object(ProxyMembers(proxy)))] + rest)))
         == HandleSections(Reading(r.st.(vm := VmBack(vm), proxy := ProxyBack(proxy)),
                                   Bump(Bump(r.counts, 10, 6), 11, 3)), FlattenMembers(rest))
  {
    hide *;
    var r1 := Reading(r.st.(vm := VmBack(vm)), Bump(r.counts, 10, 6));
    var r2 := Reading(r1.st.(proxy := ProxyBack(proxy)), Bump(r1.counts, 11, 3));
    VmSection(r, vm);
    ProxySection(r1, proxy);
    TwoSections(r, Member("vm", Object(VmMembers(vm))), r1, Member("proxy", Object(ProxyMembers(proxy))), r2, rest);
  }

  lemma OptionalsRead(c: Config, r: Reading)
    requires |r.counts| == 14 && r.st.pod.None? && r.st.annotations == []
    ensures var s := HandleSections(r, FlattenMembers(OptionalMembers(c)));
            && s.st == r.st.(pod := PodBack(c.pod), annotations := AnnotationsBack(SetAnnotations([], c.annotations)))
            && forall k :: 0 <= k < 14 ==> s.counts[k] >= r.counts[k]
  {
    var ann := if c.annotations != [] then [Member("annotations", Object(SetAnnotations([], c.annotations)))] else [];
    var r1 := if c.pod.Some? then Reading(r.st.(pod := PodBack(c.pod)), Bump(r.counts, 12, 2)) else r;
    if c.pod.Some? {
      PodSection(r, c.pod.value);
      SectionsCons(r, Member("pod", Object(PodMembers(c.pod.value))), ann);
    } else {
      assert [] + ann == ann;
    }
    assert HandleSections(r, FlattenMembers(OptionalMembers(c))) == HandleSections(r1, FlattenMembers(ann));
    if c.annotations != [] {
      AnnotationsSection(r1, c.annotations);
      assert ann == [ann[0]] + [];
      SectionsCons(r1, ann[0], []);
    }
    assert FlattenMembers([]) == [];
    hide HandleSection, NodeOf, FlattenMembers, PodMembers, AnnotationsBack;
  }

  lemma TreeNodes(c: Config, timestamp: string)
    requires Writable(c)
    ensures var start := Reading(BlankState, NoCounts);
            HandleSections(start, Flatten(StateTree(c, timestamp), false))
            == HandleSections(start, FlattenMembers(BasicMembers(c, timestamp) + (DetailMembers(c) + OptionalMembers(c))))
  {
    var basic, detail, optional := BasicMembers(c, timestamp), DetailMembers(c), OptionalMembers(c);
    var nodes := Flatten(StateTree(c, timestamp), false);
    assert basic + detail + optional == basic + (detail + optional);
    hide BasicMembers, DetailMembers, OptionalMembers;
    assert nodes[0] == Separator && nodes[1..] == FlattenMembers(basic + detail + optional);
    hide Flatten, FlattenMembers;
  }

  lemma EnoughCounted(c: Config, counts: seq<nat>)
    requires |counts| == 14
    requires forall k :: 0 <= k < 14 ==> counts[k] >= DetailCounts(c, EightBumps(NoCounts))[k]
    ensures Enough(counts)
  {
    var before := DetailCounts(c, EightBumps(NoCounts));
    assert forall k :: 0 <= k < 14 ==> before[k] >= HANDLERS[k].2;
  }

  /** Whatever the writer writes, the reader reads, and this is what it reads. */
  lemma ReadOfWritten(c: Config, timestamp: string)
    requires Fits(c) && Writable(c)
    ensures ReadState(Flatten(StateTree(c, timestamp), false)) == Some(StateBack(c, timestamp))
  {
    var r0 := Reading(BlankState, NoCounts);
    var r1 := Reading(BasicState(c, timestamp, r0.st), EightBumps(r0.counts));
    var r2 := Reading(DetailState(c, r1.st), DetailCounts(c, r1.counts));
    var last := r2.st.(pod := PodBack(c.pod), annotations := AnnotationsBack(SetAnnotations([], c.annotations)));
    assert last == StateBack(c, timestamp);
    assert r1.st.mounts == [] && r1.st.console.None? && r2.st.pod.None? && r2.st.annotations == [];
    assert |DetailCounts(c, r1.counts)| == 14;
    var nodes := Flatten(StateTree(c, timestamp), false);
    assert HandleSections(r0, nodes) == HandleSections(r2, FlattenMembers(OptionalMembers(c))) by {
      hide *;
      TreeNodes(c, timestamp);
      BasicsRead(c, timestamp, r0, DetailMembers(c) + OptionalMembers(c));
      DetailsRead(c, r1, OptionalMembers(c));
    }
    OptionalsRead(c, r2);
    EnoughCounted(c, HandleSections(r0, nodes).counts);
    hide HandleSections, Flatten, FlattenMembers, StateTree, StateBack, BasicState, DetailState, DetailCounts, EightBumps;
  }

  // ------------------------------------------------------------------
  // Annotations: the last value written under a name is the one that is read.

  function Lookup(members: seq<Member>, key: string): Option<Json> {
    if members == [] then None
    else if members[0].key == key then Some(members[0].value)
    else Lookup(members[1..], key)
  }

  /** The value of the last annotation of that name; an inner None is a null value. */
  function LastValue(annotations: seq<Annotation>, key: string): Option<Option<string>> {
    if annotations == [] then None
    else
      var last := annotations[|annotations| - 1];
      if last.key == key then Some(last.value) else LastValue(annotations[..|annotations| - 1], key)
  }

  lemma {:induction false} SetMemberAt(members: seq<Member>, key: string, value: Json, k: string)
    ensures Lookup(SetMember(members, key, value), k) == if k == key then Some(value) else Lookup(members, k)
  {
    if members != [] && members[0].key != key { SetMemberAt(members[1..], key, value, k); }
  }

  lemma {:induction false} SetAnnotationsLast(members: seq<Member>, annotations: seq<Annotation>)
    requires annotations != []
    ensures var last := annotations[|annotations| - 1];
            SetAnnotations(members, annotations)
            == SetMember(SetAnnotations(members, annotations[..|annotations| - 1]), last.key, TextOrNull(last.value))
    decreases |annotations|
  {
    var front := annotations[..|annotations| - 1];
    if |annotations| == 1 {
      assert annotations[1..] == [] && front == [];
    } else {
      var next := SetMember(members, annotations[0].key, TextOrNull(annotations[0].value));
      SetAnnotationsLast(next, annotations[1..]);
      assert front[1..] == annotations[1..][..|annotations[1..]| - 1] && front[0] == annotations[0];
    }
  }

  lemma {:induction false} WrittenLast(annotations: seq<Annotation>, key: string)
    ensures var last := LastValue(annotations, key);
            Lookup(SetAnnotations([], annotations), key) == if last.None? then None else Some(TextOrNull(last.value))
    decreases |annotations|
  {
    if annotations != [] {
      var front, last := annotations[..|annotations| - 1], annotations[|annotations| - 1];
      SetAnnotationsLast([], annotations);
      WrittenLast(front, key);
      SetMemberAt(SetAnnotations([], front), last.key, TextOrNull(last.value), key);
      hide SetAnnotations, SetMember, Lookup;
    }
  }

  predicate HasName(members: seq<Member>, key: string) {
    exists i :: 0 <= i < |members| && members[i].key == key
  }

  predicate NamesOnce(members: seq<Member>) {
    members == [] || (!HasName(members[1..], members[0].key) && NamesOnce(members[1..]))
  }

  lemma {:induction false} SetMemberNames(members: seq<Member>, key: string, value: Json, k: string)
    ensures HasName(SetMember(members, key, value), k) <==> k == key || HasName(members, k)
  {
    HasNameIff(members, k);
    HasNameIff(SetMember(members, key, value), k);
    SetMemberAt(members, key, value, k);
  }

  lemma {:induction false} HasNameIff(members: seq<Member>, key: string)
    ensures HasName(members, key) <==> Lookup(members, key).Some?
  {
    if members != [] {
      HasNameIff(members[1..], key);
      if HasName(members[1..], key) {
        var i :| 0 <= i < |members[1..]| && members[1..][i].key == key;
        assert members[i + 1].key == key;
      }
      if HasName(members, key) && members[0].key != key {
        var i :| 0 <= i < |members| && members[i].key == key;
        assert members[1..][i - 1].key == key;
      }
    }
  }

  lemma {:induction false} SetMemberOnce(members: seq<Member>, key: string, value: Json)
    requires NamesOnce(members)
    ensures NamesOnce(SetMember(members, key, value))
  {
    if members != [] && members[0].key != key {
      SetMemberOnce(members[1..], key, value);
      SetMemberNames(members[1..], key, value, members[0].key);
      var set1 := SetMember(members, key, value);
      assert set1[1..] == SetMember(members[1..], key, value);
    }
  }

  lemma {:induction false} SetAnnotationsOnce(members: seq<Member>, annotations: seq<Annotation>)
    requires NamesOnce(members)
    ensures NamesOnce(SetAnnotations(members, annotations))
    decreases |annotations|
  {
    if annotations != [] {
      SetMemberOnce(members, annotations[0].key, TextOrNull(annotations[0].value));
      SetAnnotationsOnce(SetMember(members, annotations[0].key, TextOrNull(annotations[0].value)), annotations[1..]);
    }
  }

  lemma {:induction false} BackIff(members: seq<Member>, key: string, value: string)
    requires NamesOnce(members)
    ensures Annotation(key, Some(value)) in AnnotationsBack(members) <==> Lookup(members, key) == Some(String(value))
  {
    if members != [] {
      BackIff(members[1..], key, value);
      HasNameIff(members[1..], key);
      hide HasName;
    }
  }

  /** A name is read back with a value exactly when that is the last one given to it. */
  lemma AnnotationReadIff(c: Config, timestamp: string, key: string, value: string)
    requires Writable(c)
    ensures Annotation(key, Some(value)) in StateBack(c, timestamp).annotations
            <==> LastValue(c.annotations, key) == Some(Some(value))
  {
    var members := SetAnnotations([], c.annotations);
    SetAnnotationsOnce([], c.annotations);
    BackIff(members, key, value);
    WrittenLast(c.annotations, key);
    hide AnnotationsBack, SetAnnotations, Lookup, LastValue, NamesOnce;
  }
}
