/** How the handlers for mounts, hooks and namespaces (src/spec_handlers) get records back
    out of the flattened tree: an array of objects has become one run of nodes, with an
    empty node in front of each object, and the record being filled lives in a static
    variable between calls. */
module Records {
  import opened Json
  import opened Option

  /** What differs between the handlers: an empty record, how a field is taken up (None
      where the handler gives up), and which records may be kept. */
  datatype Rules<!R> = Rules(
    blank: R,
    take: (R, string, seq<GNode>) -> Option<R>,
    complete: R -> bool)

  /** The two static variables and the list under construction. */
  datatype Machine<R> = Machine(current: Option<R>, error: bool, list: seq<R>)

  function Save<R>(rules: Rules<R>, m: Machine<R>): Machine<R> {
    if m.current.None? then m
    else if rules.complete(m.current.value) then Machine(None, m.error, m.list + [m.current.value])
    else Machine(None, true, m.list)
  }

  function Step<R>(rules: Rules<R>, m: Machine<R>, node: GNode): Machine<R> {
    if m.error then m
    else if node.data.None? then Save(rules, m)
    else if node.children == [] then m
    else
      var r := if m.current.Some? then m.current.value else rules.blank;
      match rules.take(r, node.data.value, node.children)
      case None => Machine(None, true, m.list)
      case Some(r') => m.(current := Some(r'))
  }

  function Run<R>(rules: Rules<R>, m: Machine<R>, nodes: seq<GNode>): Machine<R>
    decreases |nodes|
  {
    if nodes == [] then m else Run(rules, Step(rules, m, nodes[0]), nodes[1..])
  }

  /** The last record has no separator behind it. */
  function Finish<R>(rules: Rules<R>, m: Machine<R>): Machine<R> {
    if m.error then m else Save(rules, m)
  }

  // ------------------------------------------------------------------
  // The same without separators and static variables: object by object.

  datatype Filled<R> = Failed | Open(current: Option<R>)

  /** A record filled from the members of one object; members that flatten to nothing
      (empty arrays, null) are not seen. */
  function Fill<R>(rules: Rules<R>, current: Option<R>, members: seq<Member>): Filled<R>
    decreases |members|
  {
    if members == [] then Open(current)
    else
      var children := Flatten(members[0].value, false);
      if children == [] then Fill(rules, current, members[1..])
      else
        match rules.take(if current.Some? then current.value else rules.blank, members[0].key, children)
        case None => Failed
        case Some(r) => Fill(rules, Some(r), members[1..])
  }

  datatype Built<R> = Nothing | Bad | Good(record: R)

  function Build<R>(rules: Rules<R>, members: seq<Member>): Built<R> {
    match Fill(rules, None, members)
    case Failed => Bad
    case Open(None) => Nothing
    case Open(Some(r)) => if rules.complete(r) then Good(r) else Bad
  }

  predicate AllObjects(objs: seq<Json>) {
    forall i :: 0 <= i < |objs| ==> objs[i].Object?
  }

  /** The records of an array of objects, up to the first bad one, and whether all are
      good. */
  function Direct<R>(rules: Rules<R>, objs: seq<Json>): (r: (seq<R>, bool))
    requires AllObjects(objs)
    ensures r.1 <==> forall i :: 0 <= i < |objs| ==> Build(rules, objs[i].members) != Bad
  {
    if objs == [] then ([], true)
    else
      assert forall i :: 1 <= i < |objs| ==> objs[i] == objs[1..][i - 1];
      match Build(rules, objs[0].members)
      case Bad => ([], false)
      case Nothing => Direct(rules, objs[1..])
      case Good(r) =>
        var (rs, ok) := Direct(rules, objs[1..]);
        ([r] + rs, ok)
  }

  // ------------------------------------------------------------------
  // They agree.

  lemma {:induction false} RunAppend<R>(rules: Rules<R>, m: Machine<R>, a: seq<GNode>, b: seq<GNode>)
    ensures Run(rules, m, a + b) == Run(rules, Run(rules, m, a), b)
    decreases |a|
  {
    if a == [] {
      assert a + b == b;
    } else {
      assert (a + b)[1..] == a[1..] + b;
      RunAppend(rules, Step(rules, m, a[0]), a[1..], b);
    }
  }

  lemma {:induction false} RunAfterError<R>(rules: Rules<R>, m: Machine<R>, nodes: seq<GNode>)
    requires m.error
    ensures Run(rules, m, nodes) == m
    decreases |nodes|
  {
    if nodes != [] { RunAfterError(rules, m, nodes[1..]); }
  }

  lemma {:induction false} RunMembers<R>(rules: Rules<R>, m: Machine<R>, members: seq<Member>)
    requires !m.error
    ensures Run(rules, m, FlattenMembers(members))
         == match Fill(rules, m.current, members)
            case Failed => Machine(None, true, m.list)
            case Open(c) => m.(current := c)
    decreases |members|
  {
    if members != [] {
      var nodes := FlattenMembers(members);
      var first := GNode(Some(members[0].key), Flatten(members[0].value, false));
      assert nodes[0] == first && nodes[1..] == FlattenMembers(members[1..]);
      hide Flatten, FlattenMembers;
      var n := Step(rules, m, first);
      if n.error {
        RunAfterError(rules, n, nodes[1..]);
      } else {
        RunMembers(rules, n, members[1..]);
      }
    }
  }

  /** One object: the separator saves what was being filled, the members start afresh. */
  lemma RunObject<R>(rules: Rules<R>, m: Machine<R>, obj: Json)
    requires obj.Object?
    ensures var n := Finish(rules, m);
            Run(rules, m, Flatten(obj, true))
            == if n.error then n
               else match Fill(rules, None, obj.members)
                    case Failed => Machine(None, true, n.list)
                    case Open(c) => Machine(c, false, n.list)
  {
    var nodes := Flatten(obj, true);
    assert nodes == [Separator] + FlattenMembers(obj.members);
    if m.error {
      RunAfterError(rules, m, nodes);
    } else {
      var n := Step(rules, m, Separator);
      assert n == Save(rules, m) == Finish(rules, m);
      assert nodes[0] == Separator && nodes[1..] == FlattenMembers(obj.members);
      hide Flatten, FlattenMembers, Save, Fill;
      if n.error {
        RunAfterError(rules, n, nodes[1..]);
      } else {
        SavedIsClear(rules, m);
        RunMembers(rules, n, obj.members);
      }
    }
  }

  lemma SavedIsClear<R>(rules: Rules<R>, m: Machine<R>)
    ensures Save(rules, m).current.None?
  {
  }

  lemma FinishOpen<R>(rules: Rules<R>, members: seq<Member>, list: seq<R>)
    ensures match Fill(rules, None, members)
            case Failed => Build(rules, members) == Bad
            case Open(c) =>
              Finish(rules, Machine(c, false, list))
              == match Build(rules, members)
                 case Bad => Machine(None, true, list)
                 case Nothing => Machine(None, false, list)
                 case Good(r) => Machine(None, false, list + [r])
  {
    hide Fill;
  }

  /** Over every array of objects, whatever was being filled before it: the run through
      the separators ends with exactly the records of the object-by-object mapping, the
      same verdict, and nothing left in the static variable. */
  lemma {:induction false} SeparatorsRecoverRecords<R>(rules: Rules<R>, m: Machine<R>, objs: seq<Json>)
    requires AllObjects(objs)
    ensures var n := Finish(rules, m);
            Finish(rules, Run(rules, m, FlattenElems(objs)))
            == if n.error then n
               else Machine(None, !Direct(rules, objs).1, n.list + Direct(rules, objs).0)
    decreases |objs|
  {
    var n := Finish(rules, m);
    if objs == [] {
      SavedIsClear(rules, m);
      assert n.list + [] == n.list;
    } else {
      var nodes := FlattenElems(objs[1..]);
      assert FlattenElems(objs) == Flatten(objs[0], true) + nodes;
      RunAppend(rules, m, Flatten(objs[0], true), nodes);
      RunObject(rules, m, objs[0]);
      hide Flatten, FlattenElems, Run, Save;
      var k := Run(rules, m, Flatten(objs[0], true));
      SeparatorsRecoverRecords(rules, k, objs[1..]);
      if !n.error {
        AfterFirst(rules, objs, n.list, k);
      }
    }
  }

  lemma AfterFirst<R>(rules: Rules<R>, objs: seq<Json>, list: seq<R>, k: Machine<R>)
    requires AllObjects(objs) && objs != []
    requires k == match Fill(rules, None, objs[0].members)
                  case Failed => Machine(None, true, list)
                  case Open(c) => Machine(c, false, list)
    ensures var n := Finish(rules, k);
            (if n.error then n else Machine(None, !Direct(rules, objs[1..]).1, n.list + Direct(rules, objs[1..]).0))
            == Machine(None, !Direct(rules, objs).1, list + Direct(rules, objs).0)
  {
    FinishOpen(rules, objs[0].members, list);
    var b := Build(rules, objs[0].members);
    var rest := Direct(rules, objs[1..]);
    match b {
      case Bad =>
        assert list + [] == list;
      case Nothing =>
      case Good(r) =>
        assert list + [r] + rest.0 == list + ([r] + rest.0);
    }
    hide Fill, Build, Save, Flatten;
  }

  /** A record in the making never outlives an error, nor the final save. */
  lemma {:induction false} RunLeavesNothing<R>(rules: Rules<R>, m: Machine<R>, nodes: seq<GNode>)
    requires m.error ==> m.current.None?
    ensures Run(rules, m, nodes).error ==> Run(rules, m, nodes).current.None?
    ensures Finish(rules, Run(rules, m, nodes)).current.None?
    decreases |nodes|
  {
    if nodes != [] { RunLeavesNothing(rules, Step(rules, m, nodes[0]), nodes[1..]); }
  }

  // ------------------------------------------------------------------
  // The handler's code.

  /** One handler's static state, with the list it appends to. */
  class Handler<!R> {
    const rules: Rules<R>
    var current: Option<R>
    var errorDetected: bool
    var list: seq<R>

    ghost function View(): Machine<R>
      reads this
    {
      Machine(current, errorDetected, list)
    }

    constructor (r: Rules<R>)
      ensures rules == r && View() == Machine(None, false, [])
    {
      rules, current, errorDetected, list := r, None, false, [];
    }

    /** save_current_mount, save_current_hook, save_current_ns. */
    method SaveCurrent()
      modifies this
      ensures View() == Save(rules, old(View()))
    {
      if current.None? {
        return;
      }
      if rules.complete(current.value) {
        list := list + [current.value];
      } else {
        errorDetected := true;
      }
      current := None;
    }

    /** handle_mounts_section, handle_hook, handle_namespaces_section. */
    method HandleNode(node: GNode)
      modifies this
      ensures View() == Step(rules, old(View()), node)
    {
      if errorDetected {
        return;
      }
      if node.data.None? {
        SaveCurrent();
      } else if node.children != [] {
        if current.None? {
          current := Some(rules.blank);
        }
        var r := rules.take(current.value, node.data.value, node.children);
        if r.None? {
          errorDetected := true;
          current := None;
        } else {
          current := r;
        }
      }
    }

    /** g_node_children_foreach over a section's nodes. */
    method ForEach(nodes: seq<GNode>)
      modifies this
      ensures View() == Run(rules, old(View()), nodes)
    {
      ghost var start := View();
      var i := 0;
      assert nodes[..0] == [];
      while i < |nodes|
        invariant 0 <= i <= |nodes|
        invariant View() == Run(rules, start, nodes[..i])
      {
        HandleNode(nodes[i]);
        assert nodes[..i + 1] == nodes[..i] + [nodes[i]];
        RunAppend(rules, start, nodes[..i], [nodes[i]]);
        assert Run(rules, Run(rules, start, nodes[..i]), [nodes[i]]) == View();
        i := i + 1;
      }
      assert nodes[..i] == nodes;
    }

    method HandleNodes(nodes: seq<GNode>)
      modifies this
      ensures View() == Finish(rules, Run(rules, old(View()), nodes))
    {
      ForEach(nodes);
      if !errorDetected {
        SaveCurrent();
      }
    }

    /** A whole section: for an array of objects, with nothing left over from before, the
        new records are the object-by-object ones and nothing is left over afterwards. */
    method HandleSection(nodes: seq<GNode>) returns (ok: bool)
      modifies this
      ensures ok <==> !errorDetected
      ensures View() == Finish(rules, Run(rules, old(View()).(error := false), nodes))
      ensures current.None?
      ensures forall objs | AllObjects(objs) && nodes == FlattenElems(objs) && old(current).None? ::
                && ok == Direct(rules, objs).1
                && list == old(list) + Direct(rules, objs).0
    {
      errorDetected := false;
      ghost var start := View();
      RunLeavesNothing(rules, start, nodes);
      HandleNodes(nodes);
      ok := !errorDetected;
      forall objs | AllObjects(objs) && nodes == FlattenElems(objs) && old(current).None?
        ensures ok == Direct(rules, objs).1
        ensures list == old(list) + Direct(rules, objs).0
      {
        SeparatorsRecoverRecords(rules, start, objs);
      }
    }
  }
}
