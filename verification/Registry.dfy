/** The proxy's registry of VMs by container id (proxy/proxy.go), as a step system: each
    step is what a handler does while it holds the proxy's lock, or the end of a Connect. */
module Registry {
  /** Where a client's handler is between two locked sections. */
  datatype Pc = Idle | Connecting(id: string, vm: nat) | Leaving(id: string)

  /** `ids` has the container id of each VM object made; a VM is known by its position.
      `monitors` has the VMs that a goroutine waits on to close them. */
  datatype State = State(
    vms: map<string, nat>, ids: seq<string>, pcs: map<nat, Pc>, attached: map<nat, nat>, monitors: multiset<nat>)

  const INITIAL := State(map[], [], map[], map[], multiset{})

  function PcOf(s: State, client: nat): Pc {
    if client in s.pcs then s.pcs[client] else Idle
  }

  function ContainerID(s: State, vm: nat): string {
    if vm < |s.ids| then s.ids[vm] else ""
  }

  datatype Step =
    | Hello(client: nat, id: string)
    | Connected(client: nat)
    | ConnectFailed(client: nat)
    | Attach(client: nat, id: string)
    | Bye(client: nat, id: string)
    | ByeDeletes(client: nat)

  predicate Enabled(s: State, a: Step) {
    match a
    case Hello(c, _) => PcOf(s, c).Idle?
    case Connected(c) => PcOf(s, c).Connecting?
    case ConnectFailed(c) => PcOf(s, c).Connecting?
    case Attach(c, _) => PcOf(s, c).Idle?
    case Bye(c, _) => PcOf(s, c).Idle?
    case ByeDeletes(c) => PcOf(s, c).Leaving?
  }

  /** A hello or bye that is refused changes nothing. Note that the two deletions go by the
      container id, not by the VM. */
  function Apply(s: State, a: Step): State
    requires Enabled(s, a)
  {
    match a
    case Hello(c, id) =>
      if id in s.vms then s
      else s.(vms := s.vms[id := |s.ids|], ids := s.ids + [id], pcs := s.pcs[c := Connecting(id, |s.ids|)])
    case Connected(c) =>
      var vm := PcOf(s, c).vm;
      s.(attached := s.attached[c := vm], monitors := s.monitors + multiset{vm}, pcs := s.pcs[c := Idle])
    case ConnectFailed(c) =>
      s.(vms := s.vms - {PcOf(s, c).id}, pcs := s.pcs[c := Idle])
    case Attach(c, id) =>
      if id in s.vms then s.(attached := s.attached[c := s.vms[id]]) else s
    case Bye(c, id) =>
      if id in s.vms then s.(pcs := s.pcs[c := Leaving(ContainerID(s, s.vms[id]))]) else s
    case ByeDeletes(c) =>
      s.(vms := s.vms - {PcOf(s, c).id}, attached := s.attached - {c}, pcs := s.pcs[c := Idle])
  }

  // ------------------------------------------------------------------
  // What every run keeps.

  ghost predicate Registered(s: State) {
    forall id :: id in s.vms ==> s.vms[id] < |s.ids| && s.ids[s.vms[id]] == id
  }

  ghost predicate ConnectingOk(s: State) {
    && (forall c :: c in s.pcs && s.pcs[c].Connecting? ==>
          s.pcs[c].vm < |s.ids| && s.ids[s.pcs[c].vm] == s.pcs[c].id && s.pcs[c].vm !in s.monitors)
    && (forall c, d :: c in s.pcs && d in s.pcs && s.pcs[c].Connecting? && s.pcs[d].Connecting? && s.pcs[c].vm == s.pcs[d].vm ==> c == d)
  }

  ghost predicate MonitorsOk(s: State) {
    forall vm :: s.monitors[vm] <= 1 && (vm in s.monitors ==> vm < |s.ids|)
  }

  ghost predicate AttachedOk(s: State) {
    forall c :: c in s.attached ==> s.attached[c] < |s.ids|
  }

  ghost predicate Inv(s: State) {
    Registered(s) && ConnectingOk(s) && MonitorsOk(s) && AttachedOk(s)
  }

  predicate IsRun(s: State, steps: seq<Step>)
    decreases |steps|
  {
    steps == [] || (Enabled(s, steps[0]) && IsRun(Apply(s, steps[0]), steps[1..]))
  }

  function After(s: State, steps: seq<Step>): State
    requires IsRun(s, steps)
    decreases |steps|
  {
    if steps == [] then s else After(Apply(s, steps[0]), steps[1..])
  }

  lemma HelloKeeps(s: State, a: Step)
    requires Inv(s) && Enabled(s, a) && a.Hello?
    ensures Inv(Apply(s, a))
  {
  }

  lemma ConnectedKeeps(s: State, a: Step)
    requires Inv(s) && Enabled(s, a) && a.Connected?
    ensures Inv(Apply(s, a))
  {
  }

  lemma StepKeeps(s: State, a: Step)
    requires Inv(s) && Enabled(s, a)
    ensures Inv(Apply(s, a))
  {
    if a.Hello? {
      HelloKeeps(s, a);
    } else if a.Connected? {
      ConnectedKeeps(s, a);
    }
  }

  lemma {:induction false} RunKeeps(s: State, steps: seq<Step>)
    requires Inv(s) && IsRun(s, steps)
    ensures Inv(After(s, steps))
    decreases |steps|
  {
    if steps != [] {
      StepKeeps(s, steps[0]);
      RunKeeps(Apply(s, steps[0]), steps[1..]);
    }
    hide Inv, Apply, Enabled;
  }

  /** In every run a VM has at most one monitor, so Close is called at most once for it; a
      name leads to a VM made for that name; and only made VMs are attached to. */
  lemma RegistrySafe(steps: seq<Step>, id: string, vm: nat, client: nat)
    requires IsRun(INITIAL, steps)
    ensures var s := After(INITIAL, steps);
            && s.monitors[vm] <= 1
            && (id in s.vms ==> s.vms[id] < |s.ids| && s.ids[s.vms[id]] == id)
            && (client in s.attached ==> s.attached[client] < |s.ids|)
  {
    RunKeeps(INITIAL, steps);
  }

  // ------------------------------------------------------------------
  // Who loses a VM.

  /** A name disappears from the registry exactly when a handler deletes that name. */
  lemma NameLostIff(s: State, a: Step, id: string)
    requires Enabled(s, a) && id in s.vms
    ensures id !in Apply(s, a).vms
       <==> (a.ConnectFailed? || a.ByeDeletes?) && PcOf(s, a.client).id == id
    ensures id in Apply(s, a).vms ==> Apply(s, a).vms[id] == s.vms[id]
  {
  }

  /** A step in which a handler deletes the name it carries. */
  predicate Deletes(s: State, a: Step, id: string)
    requires Enabled(s, a)
  {
    (a.ConnectFailed? || a.ByeDeletes?) && PcOf(s, a.client).id == id
  }

  predicate Deleted(s: State, steps: seq<Step>, id: string)
    requires IsRun(s, steps)
    decreases |steps|
  {
    steps != [] && (Deletes(s, steps[0], id) || Deleted(Apply(s, steps[0]), steps[1..], id))
  }

  predicate Leads(s: State, id: string, vm: nat) {
    id in s.vms && s.vms[id] == vm
  }

  lemma LeadsStep(s: State, a: Step, id: string, vm: nat)
    requires Enabled(s, a) && vm < |s.ids|
    ensures vm < |Apply(s, a).ids|
    ensures Leads(Apply(s, a), id, vm) <==> Leads(s, id, vm) && !Deletes(s, a, id)
  {
  }

  /** Over every run from any state: a name leads to a VM that has been made exactly when it
      did so at the start and no step deleted the name. In particular a VM that lost its
      name never gets it back, whoever registers that name again. */
  lemma {:induction false} LeadsIff(s: State, steps: seq<Step>, id: string, vm: nat)
    requires IsRun(s, steps) && vm < |s.ids|
    ensures Leads(After(s, steps), id, vm) <==> Leads(s, id, vm) && !Deleted(s, steps, id)
    decreases |steps|
  {
    if steps != [] {
      LeadsStep(s, steps[0], id, vm);
      LeadsIff(Apply(s, steps[0]), steps[1..], id, vm);
    }
    hide Apply, Enabled, Leads, Deletes;
  }

  /** So the VM of an accepted hello is registered for as long as nobody deletes its name:
      not its own client, if Connect fails, and no other. */
  lemma StaysRegisteredIff(s: State, client: nat, id: string, steps: seq<Step>)
    requires Enabled(s, Hello(client, id)) && id !in s.vms
    requires IsRun(Apply(s, Hello(client, id)), steps)
    ensures var s1 := Apply(s, Hello(client, id));
            Leads(After(s1, steps), id, |s.ids|) <==> !Deleted(s1, steps, id)
  {
    LeadsIff(Apply(s, Hello(client, id)), steps, id, |s.ids|);
    hide IsRun, After, Deleted;
  }

  /** What other clients do leaves a client where it is. */
  lemma {:induction false} LeftAlone(s: State, steps: seq<Step>, client: nat)
    requires IsRun(s, steps) && forall i :: 0 <= i < |steps| ==> steps[i].client != client
    ensures var t := After(s, steps);
            && PcOf(t, client) == PcOf(s, client)
            && (client in t.attached <==> client in s.attached)
            && (client in s.attached ==> t.attached[client] == s.attached[client])
    decreases |steps|
  {
    if steps != [] { LeftAlone(Apply(s, steps[0]), steps[1..], client); }
  }

  /** An attach gives the client the VM that its name led to at that moment, whatever happens
      to the name afterwards. */
  lemma AttachReaches(s: State, client: nat, id: string, steps: seq<Step>)
    requires Enabled(s, Attach(client, id)) && IsRun(Apply(s, Attach(client, id)), steps)
    requires forall i :: 0 <= i < |steps| ==> steps[i].client != client
    ensures var t := After(Apply(s, Attach(client, id)), steps);
            && (id in s.vms ==> client in t.attached && t.attached[client] == s.vms[id])
            && (id !in s.vms ==> (client in t.attached <==> client in s.attached)
                                 && (client in s.attached ==> t.attached[client] == s.attached[client]))
  {
    LeftAlone(Apply(s, Attach(client, id)), steps, client);
  }

  /** Some step of the run is the end of a Connect to this VM that worked. */
  predicate ConnectedIn(s: State, steps: seq<Step>, vm: nat)
    requires IsRun(s, steps)
    decreases |steps|
  {
    steps != [] && ((steps[0].Connected? && PcOf(s, steps[0].client).vm == vm) || ConnectedIn(Apply(s, steps[0]), steps[1..], vm))
  }

  /** Over every run: exactly the VMs with such a step are monitored. */
  lemma {:induction false} MonitoredIff(s: State, steps: seq<Step>, vm: nat)
    requires IsRun(s, steps)
    ensures vm in After(s, steps).monitors <==> vm in s.monitors || ConnectedIn(s, steps, vm)
    decreases |steps|
  {
    if steps != [] { MonitoredIff(Apply(s, steps[0]), steps[1..], vm); }
  }

  /** An accepted hello whose Connect works attaches the client to the VM made for it, and has
      it monitored. */
  lemma HelloReaches(s: State, client: nat, id: string, meanwhile: seq<Step>, steps: seq<Step>)
    requires Enabled(s, Hello(client, id)) && id !in s.vms
    requires IsRun(Apply(s, Hello(client, id)), meanwhile)
    requires forall i :: 0 <= i < |meanwhile| ==> meanwhile[i].client != client
    ensures var u := After(Apply(s, Hello(client, id)), meanwhile);
            && Enabled(u, Connected(client))
            && (IsRun(Apply(u, Connected(client)), steps) && (forall i :: 0 <= i < |steps| ==> steps[i].client != client) ==>
                  var t := After(Apply(u, Connected(client)), steps);
                  client in t.attached && t.attached[client] == |s.ids| && |s.ids| in t.monitors)
  {
    LeftAlone(Apply(s, Hello(client, id)), meanwhile, client);
    var u := After(Apply(s, Hello(client, id)), meanwhile);
    var v := Apply(u, Connected(client));
    if IsRun(v, steps) && forall i :: 0 <= i < |steps| ==> steps[i].client != client {
      LeftAlone(v, steps, client);
      MonitoredIff(v, steps, |s.ids|);
    }
    hide IsRun, After;
  }

  /** Whatever others do meanwhile, a hello whose Connect fails deletes the name it came with,
      and attaches nobody. */
  lemma FailedHelloDeletes(s: State, client: nat, id: string, meanwhile: seq<Step>)
    requires Enabled(s, Hello(client, id)) && id !in s.vms
    requires IsRun(Apply(s, Hello(client, id)), meanwhile)
    requires forall i :: 0 <= i < |meanwhile| ==> meanwhile[i].client != client
    ensures var u := After(Apply(s, Hello(client, id)), meanwhile);
            && Enabled(u, ConnectFailed(client))
            && Apply(u, ConnectFailed(client)).vms == u.vms - {id}
            && Apply(u, ConnectFailed(client)).attached == u.attached
            && PcOf(Apply(u, ConnectFailed(client)), client).Idle?
  {
    LeftAlone(Apply(s, Hello(client, id)), meanwhile, client);
    hide IsRun, After;
  }

  /** And a bye deletes the name it came with, and detaches its client, which stays detached
      until it does something itself. */
  lemma ByeDetaches(s: State, client: nat, id: string, meanwhile: seq<Step>, steps: seq<Step>)
    requires Registered(s) && Enabled(s, Bye(client, id)) && id in s.vms
    requires IsRun(Apply(s, Bye(client, id)), meanwhile)
    requires forall i :: 0 <= i < |meanwhile| ==> meanwhile[i].client != client
    ensures var u := After(Apply(s, Bye(client, id)), meanwhile);
            && Enabled(u, ByeDeletes(client))
            && Apply(u, ByeDeletes(client)).vms == u.vms - {id}
            && (IsRun(Apply(u, ByeDeletes(client)), steps) && (forall i :: 0 <= i < |steps| ==> steps[i].client != client) ==>
                  client !in After(Apply(u, ByeDeletes(client)), steps).attached)
  {
    LeftAlone(Apply(s, Bye(client, id)), meanwhile, client);
    var u := After(Apply(s, Bye(client, id)), meanwhile);
    var v := Apply(u, ByeDeletes(client));
    if IsRun(v, steps) && forall i :: 0 <= i < |steps| ==> steps[i].client != client {
      LeftAlone(v, steps, client);
    }
    hide IsRun, After;
  }

  /** A hello whose Connect fails takes a VM from another client exactly when its container
      id has been deleted since that hello and is registered again. */
  lemma TakesAnotherIff(s: State, client: nat, id: string, steps: seq<Step>)
    requires Enabled(s, Hello(client, id)) && id !in s.vms
    requires IsRun(Apply(s, Hello(client, id)), steps)
    requires PcOf(After(Apply(s, Hello(client, id)), steps), client) == Connecting(id, |s.ids|)
    ensures var s1 := Apply(s, Hello(client, id));
            var t := After(s1, steps);
            (exists name :: name in t.vms && t.vms[name] != |s.ids| && name !in Apply(t, ConnectFailed(client)).vms)
            <==> Deleted(s1, steps, id) && id in t.vms
  {
    StaysRegisteredIff(s, client, id, steps);
    var t := After(Apply(s, Hello(client, id)), steps);
    assert Apply(t, ConnectFailed(client)).vms == t.vms - {id};
    hide IsRun, After, Deleted, Apply;
  }

  /** That happens: client 1 says hello, client 2 bye, client 3 hello again and is
      connected; then the first Connect fails and deletes the name, which by now is the
      third client's, whose VM runs on, monitored but unknown. */
  lemma FailedHelloTakesAnother()
    ensures var steps := [Hello(1, "x")] + ([Bye(2, "x")] + ([ByeDeletes(2)] + ([Hello(3, "x")] + ([Connected(3)] + ([ConnectFailed(1)] + [])))));
            IsRun(INITIAL, steps)
            && var s := After(INITIAL, steps);
               s.vms == map[] && 3 in s.attached && s.attached[3] in s.monitors && ContainerID(s, s.attached[3]) == "x"
  {
    var s1, s2, s3 := FirstThree();
    var s5, s6 := LastThree(s3);
    RunCons(s5, ConnectFailed(1), []);
    RunCons(Apply(s3, Hello(3, "x")), Connected(3), [ConnectFailed(1)] + []);
    var rest := [Connected(3)] + ([ConnectFailed(1)] + []);
    RunCons(s3, Hello(3, "x"), rest);
    RunCons(s2, ByeDeletes(2), [Hello(3, "x")] + rest);
    RunCons(s1, Bye(2, "x"), [ByeDeletes(2)] + ([Hello(3, "x")] + rest));
    RunCons(INITIAL, Hello(1, "x"), [Bye(2, "x")] + ([ByeDeletes(2)] + ([Hello(3, "x")] + rest)));
    assert IsRun(s6, []) && After(s6, []) == s6;
    hide Apply, Enabled, IsRun, After;
  }

  lemma FirstThree() returns (s1: State, s2: State, s3: State)
    ensures Enabled(INITIAL, Hello(1, "x")) && s1 == Apply(INITIAL, Hello(1, "x"))
    ensures Enabled(s1, Bye(2, "x")) && s2 == Apply(s1, Bye(2, "x"))
    ensures Enabled(s2, ByeDeletes(2)) && s3 == Apply(s2, ByeDeletes(2))
    ensures s3 == State(map[], ["x"], map[1 := Connecting("x", 0), 2 := Idle], map[], multiset{})
  {
    s1 := Apply(INITIAL, Hello(1, "x"));
    assert s1 == State(map["x" := 0], ["x"], map[1 := Connecting("x", 0)], map[], multiset{});
    s2 := Apply(s1, Bye(2, "x"));
    assert s2 == s1.(pcs := map[1 := Connecting("x", 0), 2 := Leaving("x")]);
    s3 := Apply(s2, ByeDeletes(2));
  }

  lemma LastThree(s: State) returns (s5: State, s6: State)
    requires s == State(map[], ["x"], map[1 := Connecting("x", 0), 2 := Idle], map[], multiset{})
    ensures Enabled(s, Hello(3, "x")) && Enabled(Apply(s, Hello(3, "x")), Connected(3))
    ensures s5 == Apply(Apply(s, Hello(3, "x")), Connected(3))
    ensures Enabled(s5, ConnectFailed(1)) && s6 == Apply(s5, ConnectFailed(1))
    ensures s6.vms == map[] && s6.attached == map[3 := 1] && s6.monitors == multiset{1} && s6.ids == ["x", "x"]
  {
    var s4 := Apply(s, Hello(3, "x"));
    assert s4.ids == ["x", "x"] && PcOf(s4, 1) == Connecting("x", 0) && PcOf(s4, 3) == Connecting("x", 1);
    s5 := Apply(s4, Connected(3));
    assert PcOf(s5, 1) == Connecting("x", 0) && s5.vms == map["x" := 1];
    s6 := Apply(s5, ConnectFailed(1));
  }

  lemma RunCons(s: State, a: Step, rest: seq<Step>)
    requires Enabled(s, a) && IsRun(Apply(s, a), rest)
    ensures IsRun(s, [a] + rest) && After(s, [a] + rest) == After(Apply(s, a), rest)
  {
    hide Apply, Enabled;
    assert ([a] + rest)[0] == a && ([a] + rest)[1..] == rest;
  }

  // ------------------------------------------------------------------
  // The handlers, each run without another in between.

  class Proxy {
    var vms: map<string, nat>
    var ids: seq<string>
    var attached: map<nat, nat>
    var monitors: multiset<nat>

    ghost function View(): State
      reads this
    {
      State(vms, ids, map[], attached, monitors)
    }

    /** helloHandler: a name is taken once; a Connect that fails leaves the registry as it
        was. An empty name is reported but not refused. */
    method HelloHandler(client: nat, id: string, serialsOk: bool, connectOk: bool) returns (failed: bool)
      modifies this
      ensures failed <==> id == "" || !serialsOk || id in old(vms) || !connectOk
      ensures View() == if id in old(vms) then Apply(old(View()), Hello(client, id))
                        else Apply(Apply(old(View()), Hello(client, id)),
                                   if connectOk then Connected(client) else ConnectFailed(client)).(pcs := map[])
      ensures !connectOk ==> vms == old(vms) && attached == old(attached) && monitors == old(monitors)
    {
      failed := id == "" || !serialsOk;
      if id in vms { return true; }
      var vm := |ids|;
      ids := ids + [id];
      vms := vms[id := vm];
      if !connectOk {
        vms := vms - {id};
        assert vms == old(vms);
        return true;
      }
      attached := attached[client := vm];
      monitors := monitors + multiset{vm};
    }

    /** attachHandler. */
    method AttachHandler(client: nat, id: string) returns (failed: bool)
      modifies this`attached
      ensures failed <==> id !in vms
      ensures View() == Apply(old(View()), Attach(client, id))
    {
      if id !in vms { return true; }
      attached := attached[client := vms[id]];
      return false;
    }

    /** byeHandler: the name goes, the VM itself stays monitored. */
    method ByeHandler(client: nat, id: string) returns (failed: bool)
      modifies this`vms, this`attached
      ensures failed <==> id !in old(vms)
      ensures View() == if failed then Apply(old(View()), Bye(client, id))
                        else Apply(Apply(old(View()), Bye(client, id)), ByeDeletes(client)).(pcs := map[])
      ensures !failed && Registered(old(View())) ==> vms == old(vms) - {id}
    {
      if id !in vms { return true; }
      vms := vms - {if vms[id] < |ids| then ids[vms[id]] else ""};
      attached := attached - {client};
      return false;
    }
  }
}
