/** What the state file's reader makes of any nodes at all (src/state.c): which it refuses,
    and what it takes for each field, by the names in the file. */
module StateReading {
  import opened Decimal
  import opened Json
  import opened Option
  import Spec = SpecHandlers
  import opened StateFile

  // ------------------------------------------------------------------
  // The nodes by name.

  /** All that lies below the sections of a name, in order. */
  function Below(nodes: seq<GNode>, name: string): seq<GNode> {
    if nodes == [] then []
    else if nodes[0].data == Some(name) then nodes[0].children + Below(nodes[1..], name)
    else Below(nodes[1..], name)
  }

  /** The texts of some nodes. */
  function Texts(nodes: seq<GNode>): seq<string> {
    if nodes == [] then []
    else if nodes[0].data.None? then Texts(nodes[1..])
    else [nodes[0].data.value] + Texts(nodes[1..])
  }

  /** The names among some nodes, each with the first text below it. */
  function Pairs(nodes: seq<GNode>): seq<(string, string)> {
    if nodes == [] then []
    else if nodes[0].data.None? || nodes[0].children == [] || nodes[0].children[0].data.None? then Pairs(nodes[1..])
    else [(nodes[0].data.value, nodes[0].children[0].data.value)] + Pairs(nodes[1..])
  }

  function Last(texts: seq<string>): Option<string> {
    if texts == [] then None else Some(texts[|texts| - 1])
  }

  /** The last value of a name. */
  function Value(pairs: seq<(string, string)>, name: string): Option<string> {
    if pairs == [] then None
    else
      var later := Value(pairs[1..], name);
      if later.Some? then later else if pairs[0].0 == name then Some(pairs[0].1) else None
  }

  predicate IsNumber(text: string) {
    Strtoll(text).1
  }

  /** How many of the pairs are values that the section knows. */
  function VmValues(pairs: seq<(string, string)>): nat {
    if pairs == [] then 0
    else
      var (name, value) := pairs[0];
      (if name == "workload_path" || name == "hypervisor_path" || name == "kernel_path" || name == "image_path"
          || name == "kernel_params" || (name == "pid" && IsNumber(value)) then 1 else 0)
      + VmValues(pairs[1..])
  }

  function ProxyValues(pairs: seq<(string, string)>): nat {
    if pairs == [] then 0
    else
      var name := pairs[0].0;
      (if name == "ctlSocket" || name == "ioSocket" || name == "consoleSocket" then 1 else 0) + ProxyValues(pairs[1..])
  }

  // ------------------------------------------------------------------
  // The table.

  function NameOf(section: Section): string {
    match section
    case OciVersion => "ociVersion"
    case Id => "id"
    case Pid => "pid"
    case BundlePath => "bundlePath"
    case CommsPath => "commsPath"
    case ProcessPath => "processPath"
    case StatusName => "status"
    case CreateTime => "created"
    case Mounts => "mounts"
    case Console => "console"
    case Vm => "vm"
    case ProxySockets => "proxy"
    case PodInfo => "pod"
    case Annotations => "annotations"
  }

  function Index(section: Section): (k: nat)
    ensures k < 14
  {
    match section
    case OciVersion => 0
    case Id => 1
    case Pid => 2
    case BundlePath => 3
    case CommsPath => 4
    case ProcessPath => 5
    case StatusName => 6
    case CreateTime => 7
    case Mounts => 8
    case Console => 9
    case Vm => 10
    case ProxySockets => 11
    case PodInfo => 12
    case Annotations => 13
  }

  function Needed(section: Section): nat {
    match section
    case Mounts => 0
    case Console => 0
    case PodInfo => 0
    case Annotations => 0
    case Vm => 6
    case ProxySockets => 2
    case _ => 1
  }

  lemma TableAt(section: Section)
    ensures HANDLERS[Index(section)] == (NameOf(section), section, Needed(section))
  {
  }

  lemma TableOnly(k: nat)
    requires k < 14
    ensures Index(HANDLERS[k].1) == k
  {
    if k < 7 {
      assert k == 0 || k == 1 || k == 2 || k == 3 || k == 4 || k == 5 || k == 6;
    } else {
      assert k == 7 || k == 8 || k == 9 || k == 10 || k == 11 || k == 12 || k == 13;
    }
  }

  /** The names differ: by length, or by a letter. */
  lemma NamesDiffer(s: Section, t: Section)
    requires NameOf(s) == NameOf(t)
    ensures s == t
  {
    assert |NameOf(s)| == |NameOf(t)|;
    assert "id"[0] == 'i' && "vm"[0] == 'v';
    assert "pid"[1] == 'i' && "pod"[1] == 'o';
    assert "status"[0] == 's' && "mounts"[0] == 'm';
    assert "created"[1] == 'r' && "console"[1] == 'o';
    assert "ociVersion"[0] == 'o' && "bundlePath"[0] == 'b';
    assert "processPath"[0] == 'p' && "annotations"[0] == 'a';
  }

  lemma FindName(section: Section)
    ensures Find(NameOf(section), 0) == Index(section)
  {
    TableAt(section);
    var k := Find(NameOf(section), 0);
    if k < Index(section) {
      TableOnly(k);
      TableAt(HANDLERS[k].1);
      NamesDiffer(section, HANDLERS[k].1);
    }
    hide HANDLERS, NameOf, Needed;
  }

  /** A node's section is found by its name. */
  lemma FoundIff(name: string, section: Section)
    ensures Find(name, 0) == Index(section) <==> name == NameOf(section)
  {
    TableAt(section);
    FindName(section);
    hide HANDLERS, NameOf, Needed;
  }

  // ------------------------------------------------------------------
  // One section is independent of the others.

  /** Two states agree on what a section fills in. */
  predicate Same(section: Section, s: State, t: State) {
    match section
    case OciVersion => s.version == t.version
    case Id => s.id == t.id
    case Pid => s.pid == t.pid
    case BundlePath => s.bundle == t.bundle
    case CommsPath => s.comms == t.comms
    case ProcessPath => s.procsock == t.procsock
    case StatusName => s.status == t.status
    case CreateTime => s.created == t.created
    case Mounts => s.mounts == t.mounts
    case Console => s.console == t.console
    case Vm => s.vm == t.vm
    case ProxySockets => s.proxy == t.proxy
    case PodInfo => s.pod == t.pod
    case Annotations => s.annotations == t.annotations
  }

  lemma OneIndependent(section: Section, other: Section, s: State, t: State, node: GNode)
    ensures section != other ==> Same(section, Handle(other, s, node).0, s)
    ensures Same(section, s, t) ==>
              Same(section, Handle(section, s, node).0, Handle(section, t, node).0)
              && Handle(section, s, node).1 == Handle(section, t, node).1
  {
    hide Strtoll, StatusOf, HandleVm, HandleProxy, HandlePod, HandleMount;
  }

  lemma {:induction false} Independent(section: Section, s: State, t: State, nodes: seq<GNode>)
    requires Same(section, s, t)
    ensures Same(section, HandleAll(section, s, nodes).0, HandleAll(section, t, nodes).0)
    ensures HandleAll(section, s, nodes).1 == HandleAll(section, t, nodes).1
    decreases |nodes|
  {
    hide Handle, Same;
    if nodes != [] {
      OneIndependent(section, section, s, t, nodes[0]);
      Independent(section, Handle(section, s, nodes[0]).0, Handle(section, t, nodes[0]).0, nodes[1..]);
    }
  }

  lemma {:induction false} Untouched(section: Section, other: Section, s: State, nodes: seq<GNode>)
    requires section != other
    ensures Same(section, HandleAll(other, s, nodes).0, s)
    decreases |nodes|
  {
    hide Handle, Same;
    if nodes == [] {
      Nothing(section, s);
    } else {
      var first := Handle(other, s, nodes[0]).0;
      OneIndependent(section, other, s, s, nodes[0]);
      Untouched(section, other, first, nodes[1..]);
      SameTwice(section, HandleAll(other, first, nodes[1..]).0, first, s);
    }
  }

  lemma {:induction false} HandleAppend(section: Section, st: State, a: seq<GNode>, b: seq<GNode>)
    ensures var (mid, m) := HandleAll(section, st, a);
            var (end, n) := HandleAll(section, mid, b);
            HandleAll(section, st, a + b) == (end, m + n)
    decreases |a|
  {
    hide Handle;
    if a == [] {
      assert a + b == b;
    } else {
      assert (a + b)[1..] == a[1..] + b;
      HandleAppend(section, Handle(section, st, a[0]).0, a[1..], b);
    }
  }

  /** What a section fills in, and its counter, come from the nodes below its name alone. */
  lemma {:induction false} SectionIs(r: Reading, nodes: seq<GNode>, section: Section)
    requires |r.counts| == 14
    ensures var (st, n) := HandleAll(section, r.st, Below(nodes, NameOf(section)));
            var s := HandleSections(r, nodes);
            Same(section, s.st, st) && s.counts[Index(section)] == r.counts[Index(section)] + n
    decreases |nodes|
  {
    hide HandleAll, HandleSection, NameOf, Index, Same;
    if nodes == [] {
      Nothing(section, r.st);
    } else {
      var (next, rest) := (HandleSection(r, nodes[0]), Below(nodes[1..], NameOf(section)));
      SectionIs(next, nodes[1..], section);
      if nodes[0].data == Some(NameOf(section)) {
        Named(r, nodes[0], section);
        HandleAppend(section, r.st, nodes[0].children, rest);
      } else {
        NotNamed(r, nodes[0], section);
        Independent(section, next.st, r.st, rest);
        SameTwice(section, HandleSections(r, nodes).st, HandleAll(section, next.st, rest).0, HandleAll(section, r.st, rest).0);
      }
    }
  }

  lemma Nothing(section: Section, st: State)
    ensures HandleAll(section, st, []) == (st, 0) && Same(section, st, st)
  {
  }

  lemma SameTwice(section: Section, s: State, t: State, u: State)
    requires Same(section, s, t) && Same(section, t, u)
    ensures Same(section, s, u)
  {
  }

  lemma Named(r: Reading, node: GNode, section: Section)
    requires |r.counts| == 14 && node.data == Some(NameOf(section))
    ensures var (st, n) := HandleAll(section, r.st, node.children);
            HandleSection(r, node) == Reading(st, Bump(r.counts, Index(section), n))
  {
    FoundIff(node.data.value, section);
    TableAt(section);
    hide HandleAll, HANDLERS, NameOf, Index, Needed;
  }

  lemma NotNamed(r: Reading, node: GNode, section: Section)
    requires |r.counts| == 14 && node.data != Some(NameOf(section))
    ensures Same(section, HandleSection(r, node).st, r.st)
    ensures HandleSection(r, node).counts[Index(section)] == r.counts[Index(section)]
  {
    assert |HANDLERS| == 14;
    hide HandleAll, HANDLERS, NameOf, Needed, ReadProcess, Index, Same, BlankProcess;
    Nothing(section, r.st);
    if node.data.Some? {
      var k := Find(node.data.value, 0);
      FoundIff(node.data.value, section);
      if k < 14 {
        TableOnly(k);
        Untouched(section, HANDLERS[k].1, r.st, node.children);
      } else {
        ProcessApart(section, r.st, Some(ReadProcess(BlankProcess, node.children)));
      }
    }
  }

  lemma ProcessApart(section: Section, st: State, p: Option<Process>)
    ensures Same(section, st.(process := p), st)
  {
  }

  // ------------------------------------------------------------------
  // What each section fills in.

  lemma LastIs(text: string, texts: seq<string>)
    ensures Last([text] + texts) == if texts == [] then Some(text) else Last(texts)
  {
  }

  /** A single value: the last text wins, and every text counts, of numbers only those that
      are one. */
  lemma {:induction false} TextIs(section: Section, st: State, nodes: seq<GNode>)
    requires OneText(section)
    ensures var (r, n) := HandleAll(section, st, nodes);
            && r == (match Last(Texts(nodes)) case None => st case Some(text) => HandleText(section, st, text).0)
            && (n >= 1 <==> exists text :: text in Texts(nodes) && (section.Pid? ==> IsNumber(text)))
    decreases |nodes|
  {
    hide Strtoll, StatusOf;
    if nodes != [] {
      var (first, counted) := Handle(section, st, nodes[0]);
      TextIs(section, first, nodes[1..]);
      if nodes[0].data.Some? {
        var (text, rest) := (nodes[0].data.value, Texts(nodes[1..]));
        LastIs(text, rest);
        assert counted <==> (section.Pid? ==> IsNumber(text));
        assert text in Texts(nodes) && forall t :: t in Texts(nodes) <==> t == text || t in rest;
      }
    }
  }

  /** A section of named values is its handler over the pairs. */
  function HandlePairs(section: Section, st: State, pairs: seq<(string, string)>): (State, nat)
    requires !OneText(section)
    decreases |pairs|
  {
    if pairs == [] then (st, 0)
    else
      var (first, counted) := HandleField(section, st, pairs[0].0, pairs[0].1);
      var (last, n) := HandlePairs(section, first, pairs[1..]);
      (last, (if counted then 1 else 0) + n)
  }

  lemma {:induction false} PairsAre(section: Section, st: State, nodes: seq<GNode>)
    requires !OneText(section)
    ensures HandleAll(section, st, nodes) == HandlePairs(section, st, Pairs(nodes))
    decreases |nodes|
  {
    if nodes != [] {
      PairsAre(section, Handle(section, st, nodes[0]).0, nodes[1..]);
      var rest := Pairs(nodes[1..]);
      if Pairs(nodes) != rest { assert Pairs(nodes)[1..] == rest; }
    }
    hide HandleField;
  }

  function PathOr(value: Option<string>, path: PathBuf): PathBuf {
    if value.Some? then Copied(value.value) else path
  }

  function Or(value: Option<string>, other: Option<string>): Option<string> {
    if value.Some? then value else other
  }

  /** The vm section by its names. */
  function VmWith(vm: VmCfg, pairs: seq<(string, string)>): VmCfg {
    VmCfg(if Value(pairs, "pid").Some? then Narrow(Strtoll(Value(pairs, "pid").value).0) else vm.pid,
          PathOr(Value(pairs, "hypervisor_path"), vm.hypervisor), PathOr(Value(pairs, "image_path"), vm.image),
          PathOr(Value(pairs, "kernel_path"), vm.kernel), PathOr(Value(pairs, "workload_path"), vm.workload),
          Or(Value(pairs, "kernel_params"), vm.params))
  }

  lemma VmNamesDiffer()
    ensures "pid" != "hypervisor_path" && "pid" != "image_path" && "pid" != "kernel_path" && "pid" != "workload_path"
    ensures "pid" != "kernel_params" && "hypervisor_path" != "image_path" && "hypervisor_path" != "kernel_path"
    ensures "hypervisor_path" != "workload_path" && "hypervisor_path" != "kernel_params" && "image_path" != "kernel_path"
    ensures "image_path" != "workload_path" && "image_path" != "kernel_params" && "kernel_path" != "workload_path"
    ensures "kernel_path" != "kernel_params" && "workload_path" != "kernel_params"
  {
    assert "workload_path"[0] == 'w' && "kernel_params"[0] == 'k';
    assert |"pid"| == 3 && |"hypervisor_path"| == 15 && |"image_path"| == 10 && |"kernel_path"| == 11;
    assert |"workload_path"| == 13 && |"kernel_params"| == 13;
  }

  lemma VmWithStep(vm: VmCfg, key: string, value: string, rest: seq<(string, string)>)
    ensures VmWith(vm, [(key, value)] + rest) == VmWith(HandleVm(vm, key, value).0, rest)
  {
    VmNamesDiffer();
    ValueStep(key, value, rest, "pid");
    ValueStep(key, value, rest, "hypervisor_path");
    ValueStep(key, value, rest, "image_path");
    ValueStep(key, value, rest, "kernel_path");
    ValueStep(key, value, rest, "workload_path");
    ValueStep(key, value, rest, "kernel_params");
    hide Strtoll, Narrow, Copied, Value;
  }

  lemma ValueStep(key: string, value: string, rest: seq<(string, string)>, name: string)
    ensures Value([(key, value)] + rest, name)
         == if Value(rest, name).Some? then Value(rest, name) else if key == name then Some(value) else None
  {
    assert ([(key, value)] + rest)[1..] == rest;
  }

  lemma {:induction false} VmIs(st: State, pairs: seq<(string, string)>)
    ensures HandlePairs(Vm, st, pairs) == (st.(vm := VmWith(st.vm, pairs)), VmValues(pairs))
    decreases |pairs|
  {
    if pairs == [] {
      hide Strtoll, Narrow, Copied;
    } else {
      var (key, value) := pairs[0];
      assert pairs == [pairs[0]] + pairs[1..];
      VmWithStep(st.vm, key, value, pairs[1..]);
      VmIs(HandleField(Vm, st, key, value).0, pairs[1..]);
      VmNamesDiffer();
      hide VmWith, Strtoll, Narrow, Copied;
    }
  }

  /** The proxy section by its names. */
  function ProxyWith(proxy: Proxy, pairs: seq<(string, string)>): Proxy {
    Proxy(Or(Value(pairs, "ctlSocket"), proxy.ctl), Or(Value(pairs, "ioSocket"), proxy.io),
          Or(Value(pairs, "consoleSocket"), proxy.console))
  }

  lemma {:induction false} ProxyIs(st: State, pairs: seq<(string, string)>)
    ensures HandlePairs(ProxySockets, st, pairs) == (st.(proxy := ProxyWith(st.proxy, pairs)), ProxyValues(pairs))
    decreases |pairs|
  {
    if pairs != [] {
      assert |"ctlSocket"| == 9 && |"ioSocket"| == 8 && |"consoleSocket"| == 13;
      ProxyIs(HandleField(ProxySockets, st, pairs[0].0, pairs[0].1).0, pairs[1..]);
    }
  }

  lemma {:induction false} ConsoleIs(st: State, pairs: seq<(string, string)>)
    ensures HandlePairs(Console, st, pairs).0 == st.(console := Or(Value(pairs, "path"), st.console))
    decreases |pairs|
  {
    if pairs != [] {
      ConsoleIs(HandleField(Console, st, pairs[0].0, pairs[0].1).0, pairs[1..]);
    }
  }

  /** The pod section by its names; it makes a pod as soon as it has any value. */
  function PodWith(pod: Option<Pod>, pairs: seq<(string, string)>): Option<Pod> {
    if pairs == [] then pod
    else
      var was := if pod.Some? then pod.value else Pod(false, None);
      Some(Pod(if Value(pairs, "sandbox").Some? then Value(pairs, "sandbox").value == "true" else was.sandbox,
               Or(Value(pairs, "sandbox_name"), was.name)))
  }

  lemma {:induction false} PodIs(st: State, pairs: seq<(string, string)>)
    ensures HandlePairs(PodInfo, st, pairs).0 == st.(pod := PodWith(st.pod, pairs))
    decreases |pairs|
  {
    if pairs != [] {
      PodWithStep(st.pod, pairs[0].0, pairs[0].1, pairs[1..]);
      assert pairs == [pairs[0]] + pairs[1..];
      PodIs(HandleField(PodInfo, st, pairs[0].0, pairs[0].1).0, pairs[1..]);
      hide PodWith, HandlePod;
    }
  }

  lemma PodWithStep(pod: Option<Pod>, key: string, value: string, rest: seq<(string, string)>)
    ensures PodWith(pod, [(key, value)] + rest)
         == PodWith(Some(HandlePod(if pod.Some? then pod.value else Pod(false, None), key, value).0), rest)
  {
    assert |"sandbox"| == 7 && |"sandbox_name"| == 12;
    ValueStep(key, value, rest, "sandbox");
    ValueStep(key, value, rest, "sandbox_name");
    if rest == [] { assert Value(rest, "sandbox") == None && Value(rest, "sandbox_name") == None; }
    hide Value;
  }

  /** Annotations pile up, the last one on top. */
  function Piled(pairs: seq<(string, string)>): seq<Annotation> {
    if pairs == [] then [] else Piled(pairs[1..]) + [Annotation(pairs[0].0, Some(pairs[0].1))]
  }

  lemma {:induction false} AnnotationsAre(st: State, pairs: seq<(string, string)>)
    ensures HandlePairs(Annotations, st, pairs).0 == st.(annotations := Piled(pairs) + st.annotations)
    decreases |pairs|
  {
    if pairs == [] {
      assert Piled(pairs) + st.annotations == st.annotations;
    } else {
      var a := Annotation(pairs[0].0, Some(pairs[0].1));
      AnnotationsAre(st.(annotations := [a] + st.annotations), pairs[1..]);
      assert Piled(pairs[1..]) + ([a] + st.annotations) == Piled(pairs) + st.annotations;
    }
  }

  /** Mounts: each destination starts one, and the directory named behind it, the last if
      there are several, is the one created for it. */
  lemma MountsAre(st: State, pairs: seq<(string, string)>, dest: string, behind: seq<(string, string)>)
    requires forall i :: 0 <= i < |behind| ==> behind[i].0 != "destination"
    ensures HandlePairs(Mounts, st, pairs + [("destination", dest)] + behind).0.mounts
         == HandlePairs(Mounts, st, pairs).0.mounts + [Mount(Copied(dest), Value(behind, "directory_created"), false)]
  {
    assert |"destination"| == 11 && |"directory_created"| == 17;
    HandlePairsAppend(Mounts, st, pairs + [("destination", dest)], behind);
    HandlePairsAppend(Mounts, st, pairs, [("destination", dest)]);
    var mid := HandlePairs(Mounts, st, pairs).0;
    assert [("destination", dest)][1..] == [];
    CreatedBehind(HandleField(Mounts, mid, "destination", dest).0, behind);
    hide HandlePairs, Copied;
  }

  /** Before the first destination there is nothing to create a directory for. */
  lemma {:induction false} NoMounts(st: State, pairs: seq<(string, string)>)
    requires st.mounts == [] && forall i :: 0 <= i < |pairs| ==> pairs[i].0 != "destination"
    ensures HandlePairs(Mounts, st, pairs).0.mounts == []
    decreases |pairs|
  {
    if pairs != [] { NoMounts(HandleField(Mounts, st, pairs[0].0, pairs[0].1).0, pairs[1..]); }
  }

  lemma {:induction false} CreatedBehind(st: State, pairs: seq<(string, string)>)
    requires st.mounts != [] && forall i :: 0 <= i < |pairs| ==> pairs[i].0 != "destination"
    ensures var (before, after) := (st.mounts, HandlePairs(Mounts, st, pairs).0.mounts);
            var last := before[|before| - 1];
            after == before[..|before| - 1] + [last.(created := Or(Value(pairs, "directory_created"), last.created))]
    decreases |pairs|
  {
    if pairs != [] { CreatedBehind(HandleField(Mounts, st, pairs[0].0, pairs[0].1).0, pairs[1..]); }
    hide Copied;
  }

  lemma {:induction false} HandlePairsAppend(section: Section, st: State, a: seq<(string, string)>, b: seq<(string, string)>)
    requires !OneText(section)
    ensures HandlePairs(section, st, a + b).0 == HandlePairs(section, HandlePairs(section, st, a).0, b).0
    decreases |a|
  {
    hide HandleField;
    if a == [] {
      assert a + b == b;
    } else {
      assert (a + b)[1..] == a[1..] + b;
      HandlePairsAppend(section, HandleField(section, st, a[0].0, a[0].1).0, a[1..], b);
    }
  }

  // ------------------------------------------------------------------
  // The process.

  /** The last process section's nodes. */
  function ProcessNodes(nodes: seq<GNode>): Option<seq<GNode>> {
    if nodes == [] then None
    else
      var later := ProcessNodes(nodes[1..]);
      if later.Some? then later else if nodes[0].data == Some("process") then Some(nodes[0].children) else None
  }

  lemma ProcessNotNamed(section: Section)
    ensures NameOf(section) != "process"
  {
    assert "process"[0] == 'p' && "created"[0] == 'c' && "console"[0] == 'c';
    assert |"process"| == 7;
  }

  lemma SectionProcess(r: Reading, node: GNode)
    requires |r.counts| == 14
    ensures HandleSection(r, node).st.process
         == if node.data == Some("process") then Some(ReadProcess(BlankProcess, node.children)) else r.st.process
  {
    if node.data.Some? {
      var k := Find(node.data.value, 0);
      if k < 14 {
        TableOnly(k);
        TableAt(HANDLERS[k].1);
        ProcessNotNamed(HANDLERS[k].1);
        ProcessUntouched(HANDLERS[k].1, r.st, node.children);
      }
    }
    hide HandleAll, HANDLERS, NameOf, Needed, ReadProcess, Index, BlankProcess;
  }

  lemma {:induction false} ProcessUntouched(section: Section, st: State, nodes: seq<GNode>)
    ensures HandleAll(section, st, nodes).0.process == st.process
    decreases |nodes|
  {
    if nodes != [] {
      var first := Handle(section, st, nodes[0]).0;
      assert first.process == st.process;
      ProcessUntouched(section, first, nodes[1..]);
    }
    hide Strtoll, StatusOf, HandleVm, HandleProxy, HandlePod, HandleMount;
  }

  lemma {:induction false} ProcessIs(r: Reading, nodes: seq<GNode>)
    requires |r.counts| == 14
    ensures HandleSections(r, nodes).st.process
         == match ProcessNodes(nodes)
            case None => r.st.process
            case Some(ns) => Some(ReadProcess(BlankProcess, ns))
    decreases |nodes|
  {
    if nodes != [] {
      SectionProcess(r, nodes[0]);
      ProcessIs(HandleSection(r, nodes[0]), nodes[1..]);
    }
    hide HandleSection, ReadProcess, BlankProcess;
  }

  /** What lies below the last node of a name that has anything below it. */
  function Child(nodes: seq<GNode>, name: string): (r: Option<seq<GNode>>)
    ensures r.Some? ==> r.value != []
  {
    if nodes == [] then None
    else
      var later := Child(nodes[1..], name);
      if later.Some? then later
      else if nodes[0].data == Some(name) && nodes[0].children != [] then Some(nodes[0].children)
      else None
  }

  function FirstText(nodes: seq<GNode>, name: string): Option<string>
    requires Child(nodes, name).Some?
  {
    Child(nodes, name).value[0].data
  }

  /** The last id of a name. */
  function IdOr(nodes: seq<GNode>, name: string, id: nat): nat {
    if nodes == [] then id
    else
      var first := if nodes[0].children == [] then 0 else Unsigned(AtoI(nodes[0].children[0].data));
      IdOr(nodes[1..], name, if nodes[0].data == Some(name) then first else id)
  }

  function IntOr(nodes: seq<GNode>, name: string, other: Int32): Int32 {
    if Child(nodes, name).Some? then AtoI(FirstText(nodes, name)) else other
  }

  function VectorOr(nodes: seq<GNode>, name: string, other: Option<seq<string>>): Option<seq<string>> {
    if Child(nodes, name).Some? then Some(Spec.Texts(Child(nodes, name).value)) else other
  }

  /** The process section by its names. */
  function ProcessWith(p: Process, nodes: seq<GNode>): Process {
    Process(VectorOr(nodes, "args", p.args),
            if Child(nodes, "cwd").Some? then Copied(Spec.Shown(FirstText(nodes, "cwd"))) else p.cwd,
            VectorOr(nodes, "env", p.env),
            if Child(nodes, "terminal").Some? then FirstText(nodes, "terminal") == Some("true") else p.terminal,
            IdOr(Below(nodes, "user"), "uid", p.uid), IdOr(Below(nodes, "user"), "gid", p.gid),
            IntOr(nodes, "stdio_stream", p.stdio), IntOr(nodes, "stderr_stream", p.stderr))
  }

  lemma {:induction false} UserIs(p: Process, nodes: seq<GNode>)
    ensures HandleUser(p, nodes) == p.(uid := IdOr(nodes, "uid", p.uid), gid := IdOr(nodes, "gid", p.gid))
    decreases |nodes|
  {
    if nodes != [] {
      assert "uid"[0] == 'u' && "gid"[0] == 'g';
      var value := if nodes[0].children == [] then 0 else Unsigned(AtoI(nodes[0].children[0].data));
      UserIs(if nodes[0].data == Some("uid") then p.(uid := value)
             else if nodes[0].data == Some("gid") then p.(gid := value) else p, nodes[1..]);
    }
    hide Unsigned, AtoI;
  }

  lemma {:induction false} IdOrAppend(a: seq<GNode>, b: seq<GNode>, name: string, id: nat)
    ensures IdOr(a + b, name, id) == IdOr(b, name, IdOr(a, name, id))
    decreases |a|
  {
    if a == [] {
      assert a + b == b;
    } else {
      assert (a + b)[1..] == a[1..] + b;
      var first := if a[0].children == [] then 0 else Unsigned(AtoI(a[0].children[0].data));
      IdOrAppend(a[1..], b, name, if a[0].data == Some(name) then first else id);
    }
    hide Unsigned, AtoI;
  }

  lemma ProcessNamesDiffer()
    ensures "cwd" != "args" && "cwd" != "env" && "cwd" != "terminal" && "cwd" != "user" && "cwd" != "stdio_stream"
    ensures "cwd" != "stderr_stream" && "args" != "env" && "args" != "terminal" && "args" != "user"
    ensures "args" != "stdio_stream" && "args" != "stderr_stream" && "env" != "terminal" && "env" != "user"
    ensures "env" != "stdio_stream" && "env" != "stderr_stream" && "terminal" != "user" && "terminal" != "stdio_stream"
    ensures "terminal" != "stderr_stream" && "user" != "stdio_stream" && "user" != "stderr_stream"
    ensures "stdio_stream" != "stderr_stream"
  {
    assert "cwd"[0] == 'c' && "env"[0] == 'e' && "args"[0] == 'a' && "user"[0] == 'u';
    assert |"cwd"| == 3 && |"args"| == 4 && |"env"| == 3 && |"terminal"| == 8 && |"user"| == 4;
    assert |"stdio_stream"| == 12 && |"stderr_stream"| == 13;
  }

  lemma ChildStep(node: GNode, rest: seq<GNode>, name: string)
    ensures Child([node] + rest, name)
         == if Child(rest, name).Some? then Child(rest, name)
            else if node.data == Some(name) && node.children != [] then Some(node.children) else None
  {
    assert ([node] + rest)[1..] == rest;
  }

  lemma UserStep(p: Process, node: GNode, rest: seq<GNode>)
    ensures var (users, q) := (Below([node] + rest, "user"), if node.data == Some("user") then HandleUser(p, node.children) else p);
            && IdOr(users, "uid", p.uid) == IdOr(Below(rest, "user"), "uid", q.uid)
            && IdOr(users, "gid", p.gid) == IdOr(Below(rest, "user"), "gid", q.gid)
  {
    assert ([node] + rest)[1..] == rest;
    if node.data == Some("user") {
      UserIs(p, node.children);
      IdOrAppend(node.children, Below(rest, "user"), "uid", p.uid);
      IdOrAppend(node.children, Below(rest, "user"), "gid", p.gid);
    }
    hide IdOr, HandleUser;
  }

  lemma UserOnly(p: Process, nodes: seq<GNode>)
    ensures HandleUser(p, nodes) == p.(uid := HandleUser(p, nodes).uid, gid := HandleUser(p, nodes).gid)
    ensures nodes == [] ==> HandleUser(p, nodes) == p
  {
    UserIs(p, nodes);
    hide IdOr;
  }

  predicate Has(node: GNode, name: string) {
    node.data == Some(name) && node.children != []
  }

  /** One node fills in the field of its name. */
  lemma HandledIs(p: Process, node: GNode)
    ensures HandleProcess(p, node)
         == Process(if Has(node, "args") then Some(Spec.Texts(node.children)) else p.args,
                    if Has(node, "cwd") then Copied(Spec.Shown(node.children[0].data)) else p.cwd,
                    if Has(node, "env") then Some(Spec.Texts(node.children)) else p.env,
                    if Has(node, "terminal") then node.children[0].data == Some("true") else p.terminal,
                    if node.data == Some("user") then HandleUser(p, node.children).uid else p.uid,
                    if node.data == Some("user") then HandleUser(p, node.children).gid else p.gid,
                    if Has(node, "stdio_stream") then AtoI(node.children[0].data) else p.stdio,
                    if Has(node, "stderr_stream") then AtoI(node.children[0].data) else p.stderr)
  {
    hide AtoI, HandleUser, Copied, Spec.Texts, Spec.Shown;
    ProcessNamesDiffer();
    UserOnly(p, node.children);
  }

  lemma FieldSteps(node: GNode, rest: seq<GNode>, name: string, other: Int32, strv: Option<seq<string>>)
    ensures IntOr([node] + rest, name, other)
         == IntOr(rest, name, if Has(node, name) then AtoI(node.children[0].data) else other)
    ensures VectorOr([node] + rest, name, strv)
         == VectorOr(rest, name, if Has(node, name) then Some(Spec.Texts(node.children)) else strv)
  {
    hide AtoI, Spec.Texts;
    ChildStep(node, rest, name);
  }

  lemma ProcessWithStep(p: Process, node: GNode, rest: seq<GNode>)
    ensures ProcessWith(p, [node] + rest) == ProcessWith(HandleProcess(p, node), rest)
  {
    hide AtoI, IdOr, HandleUser, Copied, Spec.Texts, Spec.Shown, Below, Child, IntOr, VectorOr, HandleProcess;
    HandledIs(p, node);
    UserStep(p, node, rest);
    FieldSteps(node, rest, "args", 0, p.args);
    FieldSteps(node, rest, "env", 0, p.env);
    FieldSteps(node, rest, "stdio_stream", p.stdio, None);
    FieldSteps(node, rest, "stderr_stream", p.stderr, None);
    ChildStep(node, rest, "cwd");
    ChildStep(node, rest, "terminal");
  }

  lemma {:induction false} ProcessFieldsAre(p: Process, nodes: seq<GNode>)
    ensures ReadProcess(p, nodes) == ProcessWith(p, nodes)
    decreases |nodes|
  {
    if nodes != [] {
      assert nodes == [nodes[0]] + nodes[1..];
      ProcessWithStep(p, nodes[0], nodes[1..]);
      ProcessFieldsAre(HandleProcess(p, nodes[0]), nodes[1..]);
      hide ProcessWith, HandleProcess;
    }
  }

  // ------------------------------------------------------------------
  // The whole file.

  /** What a state file must have. */
  ghost predicate Complete(nodes: seq<GNode>) {
    && Texts(Below(nodes, "ociVersion")) != [] && Texts(Below(nodes, "id")) != []
    && (exists text :: text in Texts(Below(nodes, "pid")) && IsNumber(text))
    && Texts(Below(nodes, "bundlePath")) != [] && Texts(Below(nodes, "commsPath")) != []
    && Texts(Below(nodes, "processPath")) != [] && Texts(Below(nodes, "status")) != []
    && Texts(Below(nodes, "created")) != []
    && VmValues(Pairs(Below(nodes, "vm"))) >= 6 && ProxyValues(Pairs(Below(nodes, "proxy"))) >= 2
  }

  lemma FromBlank(nodes: seq<GNode>, section: Section)
    ensures var (r, (st, n)) := (HandleSections(Reading(BlankState, NoCounts), nodes),
                                 HandleAll(section, BlankState, Below(nodes, NameOf(section))));
            Same(section, r.st, st) && r.counts[Index(section)] == n
  {
    assert forall k :: 0 <= k < 14 ==> NoCounts[k] == 0;
    hide *;
    SectionIs(Reading(BlankState, NoCounts), nodes, section);
  }

  lemma EnoughIff(counts: seq<nat>)
    requires |counts| == 14
    ensures Enough(counts) <==> forall section :: counts[Index(section)] >= Needed(section)
  {
    assert |HANDLERS| == 14;
    hide HANDLERS, Index, Needed;
    if Enough(counts) {
      forall section ensures counts[Index(section)] >= Needed(section) { TableAt(section); }
    }
    if forall section :: counts[Index(section)] >= Needed(section) {
      forall k | 0 <= k < 14 ensures counts[k] >= HANDLERS[k].2 {
        TableOnly(k);
        TableAt(HANDLERS[k].1);
      }
    }
  }

  /** The condition of one section, by its name. */
  ghost predicate SectionComplete(nodes: seq<GNode>, section: Section) {
    if section.Pid? then exists text :: text in Texts(Below(nodes, "pid")) && IsNumber(text)
    else if OneText(section) then Texts(Below(nodes, NameOf(section))) != []
    else if section.Vm? then VmValues(Pairs(Below(nodes, "vm"))) >= 6
    else if section.ProxySockets? then ProxyValues(Pairs(Below(nodes, "proxy"))) >= 2
    else true
  }

  lemma SectionCompleteIff(nodes: seq<GNode>, section: Section)
    ensures HandleAll(section, BlankState, Below(nodes, NameOf(section))).1 >= Needed(section)
       <==> SectionComplete(nodes, section)
  {
    var below := Below(nodes, NameOf(section));
    hide HandleAll, HandlePairs, Below, BlankState, Texts, Pairs, VmValues, ProxyValues, IsNumber;
    if OneText(section) {
      TextIs(section, BlankState, below);
      assert Texts(below) != [] ==> Texts(below)[0] in Texts(below);
    } else {
      PairsAre(section, BlankState, below);
      if section.Vm? { VmIs(BlankState, Pairs(below)); }
      if section.ProxySockets? { ProxyIs(BlankState, Pairs(below)); }
    }
  }

  /** The reader accepts exactly the files with a text for each of the single values, a number
      for the pid, six known values for the vm and two for the proxy. */
  lemma ReadStateIff(nodes: seq<GNode>)
    ensures ReadState(nodes).Some? <==> Complete(nodes)
  {
    var r := HandleSections(Reading(BlankState, NoCounts), nodes);
    EnoughIff(r.counts);
    hide HandleSections, HandleAll, BlankState, Index, Needed, Enough, Below, Texts, Pairs, VmValues, ProxyValues, IsNumber;
    forall section ensures r.counts[Index(section)] >= Needed(section) <==> SectionComplete(nodes, section) {
      FromBlank(nodes, section);
      SectionCompleteIff(nodes, section);
    }
    CompleteIff(nodes);
    hide SectionComplete, Complete;
  }

  lemma CompleteIff(nodes: seq<GNode>)
    ensures Complete(nodes) <==> forall section :: SectionComplete(nodes, section)
  {
    hide Below, Texts, Pairs, VmValues, ProxyValues, IsNumber;
    if forall section :: SectionComplete(nodes, section) {
      assert SectionComplete(nodes, OciVersion) && SectionComplete(nodes, Id) && SectionComplete(nodes, Pid);
      assert SectionComplete(nodes, BundlePath) && SectionComplete(nodes, CommsPath) && SectionComplete(nodes, ProcessPath);
      assert SectionComplete(nodes, StatusName) && SectionComplete(nodes, CreateTime);
      assert SectionComplete(nodes, Vm) && SectionComplete(nodes, ProxySockets);
    }
  }

  /** So a file in which one of the ten names is missing is refused. */
  lemma MissingRefused(nodes: seq<GNode>, name: string)
    requires name in ["ociVersion", "id", "pid", "bundlePath", "commsPath", "processPath", "status", "created", "vm", "proxy"]
    requires forall i :: 0 <= i < |nodes| ==> nodes[i].data != Some(name)
    ensures ReadState(nodes).None?
  {
    ReadStateIff(nodes);
    NothingBelow(nodes, name);
    assert Texts([]) == [] && VmValues(Pairs([])) == 0 && ProxyValues(Pairs([])) == 0;
    hide ReadState, Below, Texts, Pairs, VmValues, ProxyValues, IsNumber;
  }

  /** In terms of the file: an object without one of the members. */
  lemma MemberMissingRefused(members: seq<Member>, name: string)
    requires name in ["ociVersion", "id", "pid", "bundlePath", "commsPath", "processPath", "status", "created", "vm", "proxy"]
    requires forall i :: 0 <= i < |members| ==> members[i].key != name
    ensures ReadState(Flatten(Object(members), false)).None?
  {
    var nodes := Flatten(Object(members), false);
    Spec.FlattenObject(members);
    forall i | 0 <= i < |members| ensures FlattenMembers(members)[i].data == Some(members[i].key) {
      Spec.FlattenMembersAt(members, i);
    }
    hide Flatten, FlattenMembers, ReadState;
    forall i | 0 <= i < |nodes| ensures nodes[i].data != Some(name) {
      if i > 0 { assert nodes[i] == FlattenMembers(members)[i - 1]; }
    }
    MissingRefused(nodes, name);
  }

  lemma {:induction false} NothingBelow(nodes: seq<GNode>, name: string)
    requires forall i :: 0 <= i < |nodes| ==> nodes[i].data != Some(name)
    ensures Below(nodes, name) == []
  {
    if nodes != [] { NothingBelow(nodes[1..], name); }
  }

  lemma TextField(nodes: seq<GNode>, section: Section)
    requires OneText(section)
    ensures Same(section, HandleSections(Reading(BlankState, NoCounts), nodes).st,
                 match Last(Texts(Below(nodes, NameOf(section))))
                 case None => BlankState
                 case Some(text) => HandleText(section, BlankState, text).0)
  {
    hide *;
    FromBlank(nodes, section);
    TextIs(section, BlankState, Below(nodes, NameOf(section)));
  }

  lemma PairsField(nodes: seq<GNode>, section: Section)
    requires !OneText(section)
    ensures Same(section, HandleSections(Reading(BlankState, NoCounts), nodes).st,
                 HandlePairs(section, BlankState, Pairs(Below(nodes, NameOf(section)))).0)
  {
    hide *;
    FromBlank(nodes, section);
    PairsAre(section, BlankState, Below(nodes, NameOf(section)));
  }

  lemma ReadIs(nodes: seq<GNode>)
    requires ReadState(nodes).Some?
    ensures ReadState(nodes).value == HandleSections(Reading(BlankState, NoCounts), nodes).st
  {
    hide HandleSections, BlankState, NoCounts, Enough;
  }

  /** The fields that are a text. */
  function TextOf(section: Section, st: State): Option<string>
    requires OneText(section) && !section.Pid? && !section.StatusName?
  {
    match section
    case OciVersion => st.version
    case Id => st.id
    case BundlePath => st.bundle
    case CommsPath => st.comms
    case ProcessPath => st.procsock
    case CreateTime => st.created
  }

  lemma TextFieldIs(nodes: seq<GNode>, section: Section)
    requires ReadState(nodes).Some? && OneText(section) && !section.Pid? && !section.StatusName?
    ensures TextOf(section, ReadState(nodes).value) == Last(Texts(Below(nodes, NameOf(section))))
  {
    assert TextOf(section, BlankState) == None;
    hide ReadState, HandleSections, BlankState, NoCounts, Below, Texts, Last, NameOf;
    ReadIs(nodes);
    TextField(nodes, section);
  }

  /** Of a file that is accepted, each single value is the last text below its name. */
  lemma SingleValuesAre(nodes: seq<GNode>)
    requires ReadState(nodes).Some?
    ensures var st := ReadState(nodes).value;
            && st.version == Last(Texts(Below(nodes, "ociVersion"))) && st.id == Last(Texts(Below(nodes, "id")))
            && st.bundle == Last(Texts(Below(nodes, "bundlePath"))) && st.comms == Last(Texts(Below(nodes, "commsPath")))
            && st.procsock == Last(Texts(Below(nodes, "processPath"))) && st.created == Last(Texts(Below(nodes, "created")))
  {
    hide ReadState, Below, Texts, Last;
    TextFieldIs(nodes, OciVersion);
    TextFieldIs(nodes, Id);
    TextFieldIs(nodes, BundlePath);
    TextFieldIs(nodes, CommsPath);
    TextFieldIs(nodes, ProcessPath);
    TextFieldIs(nodes, CreateTime);
  }

  /** The pid is the number that the last text starts with, and the status the one of that
      name. */
  lemma ConvertedValuesAre(nodes: seq<GNode>)
    requires ReadState(nodes).Some?
    ensures Texts(Below(nodes, "pid")) != [] && Texts(Below(nodes, "status")) != []
    ensures var (st, pids, names) := (ReadState(nodes).value, Texts(Below(nodes, "pid")), Texts(Below(nodes, "status")));
            && st.pid == ToInt32(Strtoll(pids[|pids| - 1]).0)
            && st.status == StatusOf(names[|names| - 1])
  {
    hide ReadState, HandleSections, BlankState, NoCounts, Below, Texts, Strtoll, ToInt32, StatusOf, IsNumber, VmValues, ProxyValues, Pairs;
    ReadIs(nodes);
    ReadStateIff(nodes);
    TextField(nodes, Pid);
    TextField(nodes, StatusName);
  }

  /** Of a section, each field is the last value of its name. */
  lemma VmFieldIs(nodes: seq<GNode>)
    requires ReadState(nodes).Some?
    ensures ReadState(nodes).value.vm == VmWith(VmCfg(0, "", "", "", "", None), Pairs(Below(nodes, "vm")))
  {
    assert BlankState.vm == VmCfg(0, "", "", "", "", None);
    hide ReadState, HandleSections, BlankState, NoCounts, Below, Pairs, VmWith, HandlePairs, VmValues;
    ReadIs(nodes);
    PairsField(nodes, Vm);
    VmIs(BlankState, Pairs(Below(nodes, "vm")));
  }

  lemma ProxyFieldIs(nodes: seq<GNode>)
    requires ReadState(nodes).Some?
    ensures ReadState(nodes).value.proxy == ProxyWith(Proxy(None, None, None), Pairs(Below(nodes, "proxy")))
  {
    assert BlankState.proxy == Proxy(None, None, None);
    hide ReadState, HandleSections, BlankState, NoCounts, Below, Pairs, ProxyWith, HandlePairs, ProxyValues;
    ReadIs(nodes);
    PairsField(nodes, ProxySockets);
    ProxyIs(BlankState, Pairs(Below(nodes, "proxy")));
  }

  lemma ConsoleFieldIs(nodes: seq<GNode>)
    requires ReadState(nodes).Some?
    ensures ReadState(nodes).value.console == Value(Pairs(Below(nodes, "console")), "path")
  {
    assert BlankState.console == None;
    hide ReadState, HandleSections, BlankState, NoCounts, Below, Pairs, HandlePairs, Value;
    ReadIs(nodes);
    PairsField(nodes, Console);
    ConsoleIs(BlankState, Pairs(Below(nodes, "console")));
  }

  lemma PodFieldIs(nodes: seq<GNode>)
    requires ReadState(nodes).Some?
    ensures ReadState(nodes).value.pod == PodWith(None, Pairs(Below(nodes, "pod")))
  {
    assert BlankState.pod == None;
    hide ReadState, HandleSections, BlankState, NoCounts, Below, Pairs, HandlePairs, PodWith;
    ReadIs(nodes);
    PairsField(nodes, PodInfo);
    PodIs(BlankState, Pairs(Below(nodes, "pod")));
  }

  lemma AnnotationsFieldIs(nodes: seq<GNode>)
    requires ReadState(nodes).Some?
    ensures ReadState(nodes).value.annotations == Piled(Pairs(Below(nodes, "annotations")))
  {
    assert BlankState.annotations == [];
    hide ReadState, HandleSections, BlankState, NoCounts, Below, Pairs, HandlePairs, Piled;
    ReadIs(nodes);
    PairsField(nodes, Annotations);
    var all := Piled(Pairs(Below(nodes, "annotations")));
    AnnotationsAre(BlankState, Pairs(Below(nodes, "annotations")));
    assert all + [] == all;
  }

  /** The mounts are those that MountsAre and NoMounts describe. */
  lemma MountsFieldIs(nodes: seq<GNode>)
    requires ReadState(nodes).Some?
    ensures ReadState(nodes).value.mounts == HandlePairs(Mounts, BlankState, Pairs(Below(nodes, "mounts"))).0.mounts
  {
    hide ReadState, HandleSections, BlankState, NoCounts, Below, Pairs, HandlePairs;
    ReadIs(nodes);
    PairsField(nodes, Mounts);
  }

  /** The process is that of the last process section, each field by its name. */
  lemma ProcessFieldIs(nodes: seq<GNode>)
    requires ReadState(nodes).Some?
    ensures ReadState(nodes).value.process
         == match ProcessNodes(nodes)
            case None => None
            case Some(ns) => Some(ProcessWith(Process(None, "", None, false, 0, 0, -1, -1), ns))
  {
    assert BlankState.process == None && BlankProcess == Process(None, "", None, false, 0, 0, -1, -1);
    assert |NoCounts| == 14;
    hide ReadState, HandleSections, BlankState, NoCounts, BlankProcess, ProcessWith, ProcessNodes, ReadProcess;
    ReadIs(nodes);
    ProcessIs(Reading(BlankState, NoCounts), nodes);
    if ProcessNodes(nodes).Some? { ProcessFieldsAre(BlankProcess, ProcessNodes(nodes).value); }
  }

  /** Whatever is written, a reader finds an id, both socket paths, a working directory and a
      status in it, none of them blank. */
  lemma WrittenNeverBlank(c: Config, time: string)
    requires Fits(c) && Writable(c)
    ensures var read := ReadState(Flatten(StateTree(c, time), false));
            && read.Some? && read.value.id.Some? && read.value.id.value != ""
            && read.value.comms.Some? && read.value.comms.value != ""
            && read.value.procsock.Some? && read.value.procsock.value != ""
            && read.value.status != Invalid
            && read.value.process.Some? && read.value.process.value.cwd != ""
  {
    ReadOfWritten(c, time);
    hide ReadState, Flatten, StateTree, Fits;
  }
}
