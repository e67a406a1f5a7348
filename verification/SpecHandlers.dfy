/** The mounts, hooks and namespaces handlers (src/spec_handlers): what each takes from a
    member, and what the records of a section are in terms of the JSON objects. */
module SpecHandlers {
  import opened Decimal
  import opened Json
  import opened Option
  import opened Records

  const PATH_MAX := 4096

  /** What a copy into a fixed path buffer keeps. */
  function Truncate(s: string): string {
    if |s| < PATH_MAX then s else s[..PATH_MAX - 1]
  }

  /** How printf shows an absent string. */
  function Shown(s: Option<string>): string {
    if s.Some? then s.value else "(null)"
  }

  // ------------------------------------------------------------------
  // Members by name.

  predicate UniqueKeys(members: seq<Member>) {
    forall i, j :: 0 <= i < j < |members| ==> members[i].key != members[j].key
  }

  /** The nodes below the member of that name; none if it is missing. */
  function Below(members: seq<Member>, key: string): seq<GNode> {
    if members == [] then []
    else if members[0].key == key then Flatten(members[0].value, false)
    else Below(members[1..], key)
  }

  /** No member has anything below it. */
  predicate NothingBelow(members: seq<Member>) {
    forall i :: 0 <= i < |members| ==> Flatten(members[i].value, false) == []
  }

  lemma {:induction false} BelowAbsent(members: seq<Member>, key: string)
    requires forall i :: 0 <= i < |members| ==> members[i].key != key
    ensures Below(members, key) == []
  {
    if members != [] { BelowAbsent(members[1..], key); }
  }

  /** With names used once, the first member is the only one of its name. */
  lemma FirstMember(members: seq<Member>, key: string)
    requires members != [] && UniqueKeys(members)
    ensures UniqueKeys(members[1..])
    ensures members[0].key == key ==>
              Below(members, key) == Flatten(members[0].value, false) && Below(members[1..], key) == []
    ensures members[0].key != key ==> Below(members, key) == Below(members[1..], key)
  {
    if members[0].key == key { BelowAbsent(members[1..], key); }
  }

  lemma NothingBelowStep(members: seq<Member>)
    requires members != []
    ensures NothingBelow(members) <==> Flatten(members[0].value, false) == [] && NothingBelow(members[1..])
  {
    hide Flatten;
    assert forall i :: 1 <= i < |members| ==> members[i] == members[1..][i - 1];
  }

  function FirstText(nodes: seq<GNode>, otherwise: Option<string>): Option<string> {
    if nodes == [] then otherwise else nodes[0].data
  }

  // ------------------------------------------------------------------
  // Mounts.

  /** The mount flags of mount(2) that the table knows; a set of them stands for their
      bitwise or. */
  datatype MountFlag =
    | Bind | Dirsync | Mandlock | Move | Noatime | Nodev | Nodiratime | Noexec | Nosuid | Rdonly
    | Relatime | Remount | Silent | Strictatime | Synchronous | Rec | Private | Slave | Shared

  const MNT_FLAG_MAP: seq<(string, set<MountFlag>)> := [
    ("bind", {Bind}), ("dirsync", {Dirsync}), ("mandlock", {Mandlock}), ("move", {Move}),
    ("noatime", {Noatime}), ("nodev", {Nodev}), ("nodiratime", {Nodiratime}), ("noexec", {Noexec}),
    ("nosuid", {Nosuid}), ("ro", {Rdonly}), ("relatime", {Relatime}), ("remount", {Remount}),
    ("silent", {Silent}), ("strictatime", {Strictatime}), ("sync", {Synchronous}),
    ("rbind", {Bind, Rec}), ("rprivate", {Private, Rec}), ("private", {Private}),
    ("rslave", {Slave, Rec}), ("slave", {Slave}), ("rshared", {Shared, Rec}), ("shared", {Shared})]

  /** The flags of the first entry of that name; none if there is no such entry. */
  function LookupFlag(table: seq<(string, set<MountFlag>)>, name: Option<string>): set<MountFlag> {
    if table == [] then {}
    else if Some(table[0].0) == name then table[0].1
    else LookupFlag(table[1..], name)
  }

  /** mount_get_flag_value. */
  method MountGetFlagValue(flag: Option<string>) returns (value: set<MountFlag>)
    ensures value == LookupFlag(MNT_FLAG_MAP, flag)
  {
    var table := MNT_FLAG_MAP;
    var i := 0;
    while i < |table|
      invariant 0 <= i <= |table|
      invariant LookupFlag(table[i..], flag) == LookupFlag(table, flag)
    {
      if Some(table[i].0) == flag {
        return table[i].1;
      }
      assert table[i..][1..] == table[i + 1..];
      i := i + 1;
    }
    return {};
  }

  function OptionFlags(nodes: seq<GNode>): set<MountFlag> {
    if nodes == [] then {} else LookupFlag(MNT_FLAG_MAP, nodes[0].data) + OptionFlags(nodes[1..])
  }

  /** The options that ask for a flag. */
  function NamesFor(flag: MountFlag): seq<string> {
    match flag
    case Bind => ["bind", "rbind"]
    case Dirsync => ["dirsync"]
    case Mandlock => ["mandlock"]
    case Move => ["move"]
    case Noatime => ["noatime"]
    case Nodev => ["nodev"]
    case Nodiratime => ["nodiratime"]
    case Noexec => ["noexec"]
    case Nosuid => ["nosuid"]
    case Rdonly => ["ro"]
    case Relatime => ["relatime"]
    case Remount => ["remount"]
    case Silent => ["silent"]
    case Strictatime => ["strictatime"]
    case Synchronous => ["sync"]
    case Rec => ["rbind", "rprivate", "rslave", "rshared"]
    case Private => ["private", "rprivate"]
    case Slave => ["slave", "rslave"]
    case Shared => ["shared", "rshared"]
  }

  /** Enough of a name to tell the options apart. */
  function Mark(name: string): int
    requires |name| >= 2
  {
    |name| * 65536 + name[1] as int * 256 + name[|name| - 1] as int
  }

  const MARKS: seq<int> := [
    289124, 485731, 549227, 290661, 487269, 356214, 683877, 421731, 421732, 159599, 550245,
    484724, 420212, 750693, 293219, 352868, 553061, 488037, 422757, 355429, 488292, 419940]

  lemma EarlyMarks(i: nat)
    requires 0 <= i < 11
    ensures |MNT_FLAG_MAP[i].0| >= 2 && Mark(MNT_FLAG_MAP[i].0) == MARKS[i]
  {
    assert Mark("bind") == 289124 && Mark("dirsync") == 485731 && Mark("mandlock") == 549227 && Mark("move") == 290661;
    assert Mark("noatime") == 487269 && Mark("nodev") == 356214 && Mark("nodiratime") == 683877 && Mark("noexec") == 421731;
    assert Mark("nosuid") == 421732 && Mark("ro") == 159599 && Mark("relatime") == 550245;
    hide Mark;
  }

  lemma LateMarks(i: nat)
    requires 11 <= i < 22
    ensures |MNT_FLAG_MAP[i].0| >= 2 && Mark(MNT_FLAG_MAP[i].0) == MARKS[i]
  {
    assert Mark("remount") == 484724 && Mark("silent") == 420212 && Mark("strictatime") == 750693 && Mark("sync") == 293219;
    assert Mark("rbind") == 352868 && Mark("rprivate") == 553061 && Mark("private") == 488037 && Mark("rslave") == 422757;
    assert Mark("slave") == 355429 && Mark("rshared") == 488292 && Mark("shared") == 419940;
    hide Mark;
  }

  lemma MarksDiffer(i: nat, j: nat)
    requires i < 22 && j < 22 && MARKS[i] == MARKS[j]
    ensures i == j
  {
  }

  lemma {:induction false} LookupIs(table: seq<(string, set<MountFlag>)>, name: string, i: nat)
    requires i < |table| && table[i].0 == name && forall j :: 0 <= j < i ==> table[j].0 != name
    ensures LookupFlag(table, Some(name)) == table[i].1
    decreases i
  {
    if i > 0 { LookupIs(table[1..], name, i - 1); }
  }

  lemma {:induction false} LookupNone(table: seq<(string, set<MountFlag>)>, name: Option<string>)
    requires forall j :: 0 <= j < |table| ==> Some(table[j].0) != name
    ensures LookupFlag(table, name) == {}
  {
    if table != [] { LookupNone(table[1..], name); }
  }

  /** The first entry of a name, if there is one. */
  lemma Lookup(name: string) returns (i: nat)
    ensures i <= 22 && (i < 22 ==> MNT_FLAG_MAP[i].0 == name && LookupFlag(MNT_FLAG_MAP, Some(name)) == MNT_FLAG_MAP[i].1)
    ensures i == 22 ==> LookupFlag(MNT_FLAG_MAP, Some(name)) == {} && forall j :: 0 <= j < 22 ==> MNT_FLAG_MAP[j].0 != name
  {
    assert |MNT_FLAG_MAP| == 22;
    hide MNT_FLAG_MAP, LookupFlag;
    i := 0;
    while i < 22 && MNT_FLAG_MAP[i].0 != name
      invariant i <= 22 && forall j :: 0 <= j < i ==> MNT_FLAG_MAP[j].0 != name
    {
      i := i + 1;
    }
    if i < 22 { LookupIs(MNT_FLAG_MAP, name, i); } else { LookupNone(MNT_FLAG_MAP, Some(name)); }
  }

  lemma EarlyNamed(i: nat, flag: MountFlag)
    requires i < 11 && flag in MNT_FLAG_MAP[i].1
    ensures MNT_FLAG_MAP[i].0 in NamesFor(flag)
  {
  }

  lemma LateNamed(i: nat, flag: MountFlag)
    requires 11 <= i < 22 && flag in MNT_FLAG_MAP[i].1
    ensures MNT_FLAG_MAP[i].0 in NamesFor(flag)
  {
  }

  lemma NameEntered(flag: MountFlag, name: string) returns (i: nat)
    requires name in NamesFor(flag)
    ensures i < 22 && MNT_FLAG_MAP[i].0 == name && flag in MNT_FLAG_MAP[i].1
  {
    match flag
    case Bind => i := if name == "bind" then 0 else 15;
    case Dirsync => i := 1;
    case Mandlock => i := 2;
    case Move => i := 3;
    case Noatime => i := 4;
    case Nodev => i := 5;
    case Nodiratime => i := 6;
    case Noexec => i := 7;
    case Nosuid => i := 8;
    case Rdonly => i := 9;
    case Relatime => i := 10;
    case Remount => i := 11;
    case Silent => i := 12;
    case Strictatime => i := 13;
    case Synchronous => i := 14;
    case Rec => i := if name == "rbind" then 15 else if name == "rprivate" then 16 else if name == "rslave" then 18 else 20;
    case Private => i := if name == "private" then 17 else 16;
    case Slave => i := if name == "slave" then 19 else 18;
    case Shared => i := if name == "shared" then 21 else 20;
  }

  /** A name asks for a flag exactly when it is one of these. */
  lemma OptionIff(name: string, flag: MountFlag)
    ensures flag in LookupFlag(MNT_FLAG_MAP, Some(name)) <==> name in NamesFor(flag)
  {
    var i := Lookup(name);
    if i < 11 && flag in MNT_FLAG_MAP[i].1 { EarlyNamed(i, flag); }
    if 11 <= i < 22 && flag in MNT_FLAG_MAP[i].1 { LateNamed(i, flag); }
    if name in NamesFor(flag) {
      var j := NameEntered(flag, name);
      hide MNT_FLAG_MAP, LookupFlag, NamesFor;
      assert i < 22;
      SameEntry(i, j);
    }
  }

  lemma SameEntry(i: nat, j: nat)
    requires i < 22 && j < 22 && MNT_FLAG_MAP[i].0 == MNT_FLAG_MAP[j].0
    ensures i == j
  {
    if i < 11 { EarlyMarks(i); } else { LateMarks(i); }
    if j < 11 { EarlyMarks(j); } else { LateMarks(j); }
    MarksDiffer(i, j);
    hide MNT_FLAG_MAP, Mark, MARKS;
  }

  /** A flag is set exactly when one of the options asks for it. */
  lemma {:induction false} FlagIff(nodes: seq<GNode>, flag: MountFlag)
    ensures flag in OptionFlags(nodes)
       <==> exists i :: 0 <= i < |nodes| && nodes[i].data.Some? && nodes[i].data.value in NamesFor(flag)
  {
    if nodes != [] {
      FlagIff(nodes[1..], flag);
      if nodes[0].data.Some? { OptionIff(nodes[0].data.value, flag); } else { NoNameNoFlag(); }
      hide MNT_FLAG_MAP, LookupFlag, NamesFor;
      assert forall i :: 1 <= i < |nodes| ==> nodes[i] == nodes[1..][i - 1];
    }
  }

  /** And an option is kept as text exactly when it asks for none. */
  lemma OtherIff(name: string)
    ensures LookupFlag(MNT_FLAG_MAP, Some(name)) == {} <==> forall flag :: name !in NamesFor(flag)
  {
    forall flag ensures flag in LookupFlag(MNT_FLAG_MAP, Some(name)) <==> name in NamesFor(flag) {
      OptionIff(name, flag);
    }
    hide MNT_FLAG_MAP, LookupFlag, NamesFor;
  }

  lemma NoNameNoFlag()
    ensures LookupFlag(MNT_FLAG_MAP, None) == {}
  {
    LookupNone(MNT_FLAG_MAP, None);
    hide MNT_FLAG_MAP, LookupFlag;
  }

  /** The options that are not flags. */
  function OtherOptions(nodes: seq<GNode>): seq<string> {
    if nodes == [] then []
    else if LookupFlag(MNT_FLAG_MAP, nodes[0].data) != {} then OtherOptions(nodes[1..])
    else [Shown(nodes[0].data)] + OtherOptions(nodes[1..])
  }

  function JoinCommas(texts: seq<string>): string {
    if texts == [] then ""
    else if |texts| == 1 then texts[0]
    else texts[0] + "," + JoinCommas(texts[1..])
  }

  function EndWithCommas(texts: seq<string>): string {
    if texts == [] then "" else texts[0] + "," + EndWithCommas(texts[1..])
  }

  lemma {:induction false} DropLastComma(texts: seq<string>)
    ensures texts == [] <==> EndWithCommas(texts) == ""
    ensures texts != [] ==> EndWithCommas(texts) == JoinCommas(texts) + ","
  {
    if texts != [] {
      DropLastComma(texts[1..]);
      if |texts| > 1 {
        assert texts[0] + "," + (JoinCommas(texts[1..]) + ",") == texts[0] + "," + JoinCommas(texts[1..]) + ",";
      }
    }
  }

  /** The options branch of handle_mounts_section: flags are or-ed together, everything
      else goes into a buffer with a comma behind it, and the last comma is cut off. */
  method HandleOptions(nodes: seq<GNode>) returns (flags: set<MountFlag>, opts: Option<string>)
    ensures flags == OptionFlags(nodes)
    ensures opts == if OtherOptions(nodes) == [] then None else Some(JoinCommas(OtherOptions(nodes)))
  {
    var buffer := "";
    flags := {};
    var i := 0;
    assert nodes[0..] == nodes;
    while i < |nodes|
      invariant 0 <= i <= |nodes|
      invariant flags + OptionFlags(nodes[i..]) == OptionFlags(nodes)
      invariant buffer + EndWithCommas(OtherOptions(nodes[i..])) == EndWithCommas(OtherOptions(nodes))
    {
      var flag := MountGetFlagValue(nodes[i].data);
      ghost var rest := OtherOptions(nodes[i + 1..]);
      assert nodes[i..][1..] == nodes[i + 1..];
      if flag != {} {
        flags := flags + flag;
      } else {
        ghost var text := Shown(nodes[i].data);
        assert ([text] + rest)[1..] == rest;
        assert EndWithCommas([text] + rest) == text + "," + EndWithCommas(rest);
        assert buffer + (text + "," + EndWithCommas(rest)) == buffer + (text + ",") + EndWithCommas(rest);
        buffer := buffer + (Shown(nodes[i].data) + ",");
      }
      i := i + 1;
    }
    DropLastComma(OtherOptions(nodes));
    assert buffer == EndWithCommas(OtherOptions(nodes));
    if |buffer| > 0 {
      opts := Some(buffer[..|buffer| - 1]);
    } else {
      opts := None;
    }
  }

  datatype Mount = Mount(
    dir: Option<string>, fstype: Option<string>, source: Option<string>,
    flags: set<MountFlag>, opts: Option<string>)

  const BlankMount := Mount(None, None, None, {}, None)

  function TakeMount(m: Mount, key: string, nodes: seq<GNode>): Option<Mount> {
    if key == "destination" then Some(m.(dir := FirstText(nodes, m.dir)))
    else if key == "type" then Some(m.(fstype := FirstText(nodes, m.fstype)))
    else if key == "source" then Some(m.(source := FirstText(nodes, m.source)))
    else if key == "options" then
      var other := OtherOptions(nodes);
      Some(m.(flags := m.flags + OptionFlags(nodes), opts := if other == [] then m.opts else Some(JoinCommas(other))))
    else Some(m)
  }

  function MountComplete(m: Mount): bool {
    m.dir.Some? && m.fstype.Some? && m.source.Some?
  }

  const MountRules: Rules<Mount> := Rules(BlankMount, TakeMount, MountComplete)

  /** A mount from an object's members by name, over what is there already. */
  function MountOver(m: Mount, members: seq<Member>): Mount {
    var options := Below(members, "options");
    var other := OtherOptions(options);
    Mount(FirstText(Below(members, "destination"), m.dir),
          FirstText(Below(members, "type"), m.fstype),
          FirstText(Below(members, "source"), m.source),
          m.flags + OptionFlags(options),
          if other == [] then m.opts else Some(JoinCommas(other)))
  }

  lemma MountOverStep(m: Mount, members: seq<Member>)
    requires members != [] && UniqueKeys(members)
    ensures var nodes := Flatten(members[0].value, false);
            if nodes == [] then MountOver(m, members) == MountOver(m, members[1..])
            else
              TakeMount(m, members[0].key, nodes).Some?
              && MountOver(m, members) == MountOver(TakeMount(m, members[0].key, nodes).value, members[1..])
  {
    FirstMember(members, "destination");
    FirstMember(members, "type");
    FirstMember(members, "source");
    FirstMember(members, "options");
    assert OptionFlags([]) == {} && OtherOptions([]) == [];
    hide Flatten, Below, OptionFlags, OtherOptions, JoinCommas;
  }

  lemma {:induction false} FillMount(current: Option<Mount>, members: seq<Member>)
    requires UniqueKeys(members)
    ensures Fill(MountRules, current, members)
         == Open(if current.None? && NothingBelow(members) then None
                 else Some(MountOver(if current.Some? then current.value else BlankMount, members)))
    decreases |members|
  {
    if members != [] {
      NothingBelowStep(members);
      FirstMember(members, "");
      var m := if current.Some? then current.value else BlankMount;
      MountOverStep(m, members);
      var nodes := Flatten(members[0].value, false);
      hide Flatten, MountOver, Below, TakeMount;
      if nodes == [] {
        FillMount(current, members[1..]);
      } else {
        FillMount(TakeMount(m, members[0].key, nodes), members[1..]);
      }
    } else {
      assert OptionFlags([]) == {} && OtherOptions([]) == [];
      assert current.Some? ==> current.value.flags + {} == current.value.flags;
    }
  }

  /** Destination, type and source all have a text. */
  predicate HasTexts(members: seq<Member>) {
    && FirstText(Below(members, "destination"), None).Some?
    && FirstText(Below(members, "type"), None).Some?
    && FirstText(Below(members, "source"), None).Some?
  }

  /** What an object of the mounts array comes to: nothing if no member has a value;
      otherwise a mount with the named members' values, the flags or-ed together and the
      other options joined by commas, and it is refused exactly when destination, type
      or source has no text. */
  lemma MountOfObject(members: seq<Member>)
    requires UniqueKeys(members)
    ensures Build(MountRules, members)
            == if NothingBelow(members) then Nothing
               else if HasTexts(members) then Good(MountOver(BlankMount, members)) else Bad
  {
    FillMount(None, members);
    hide Fill, Below, NothingBelow, OptionFlags, OtherOptions, JoinCommas;
  }

  predicate ObjectsOk(objs: seq<Json>) {
    forall i :: 0 <= i < |objs| ==> objs[i].Object? && UniqueKeys(objs[i].members)
  }

  /** The objects that have a value. */
  function Valued(objs: seq<Json>): (r: seq<Json>)
    requires ObjectsOk(objs)
    ensures ObjectsOk(r)
  {
    if objs == [] then []
    else (if NothingBelow(objs[0].members) then [] else [objs[0]]) + Valued(objs[1..])
  }

  function MountsOf(objs: seq<Json>): (r: seq<Mount>)
    requires ObjectsOk(objs)
    ensures |r| == |objs| && forall i :: 0 <= i < |objs| ==> r[i] == MountOver(BlankMount, objs[i].members)
  {
    if objs == [] then [] else [MountOver(BlankMount, objs[0].members)] + MountsOf(objs[1..])
  }

  predicate AllHaveTexts(objs: seq<Json>)
    requires ObjectsOk(objs)
  {
    forall i :: 0 <= i < |objs| ==> HasTexts(objs[i].members)
  }

  lemma AllHaveTextsStep(objs: seq<Json>)
    requires ObjectsOk(objs) && objs != []
    ensures AllHaveTexts(objs) <==> HasTexts(objs[0].members) && AllHaveTexts(objs[1..])
  {
    hide HasTexts;
    assert forall i :: 1 <= i < |objs| ==> objs[i] == objs[1..][i - 1];
  }

  /** The whole list: it is refused exactly when an object with a value lacks a text, and
      otherwise holds the mount of each object with a value, in order. */
  lemma {:induction false} MountList(objs: seq<Json>)
    requires ObjectsOk(objs)
    ensures var (list, ok) := Direct(MountRules, objs);
            && (ok <==> AllHaveTexts(Valued(objs)))
            && (ok ==> list == MountsOf(Valued(objs)))
  {
    hide NothingBelow, HasTexts, MountOver, Build, UniqueKeys;
    assert AllHaveTexts([]);
    hide AllHaveTexts;
    if objs != [] {
      MountList(objs[1..]);
      MountOfObject(objs[0].members);
      var vs := Valued(objs);
      if NothingBelow(objs[0].members) {
        assert vs == Valued(objs[1..]);
      } else {
        assert vs[0] == objs[0] && vs[1..] == Valued(objs[1..]);
        AllHaveTextsStep(vs);
      }
    }
  }

  /** mounts_handle_section.  Mounts that are already there are left alone; otherwise the
      list is the one MountList describes. */
  method MountsHandleSection(handler: Handler<Mount>, nodes: seq<GNode>) returns (ok: bool)
    requires handler.rules == MountRules && handler.current.None?
    modifies handler
    ensures old(handler.list) != [] ==> ok && handler.list == old(handler.list)
    ensures handler.current.None?
    ensures forall objs: seq<Json> | old(handler.list) == [] && AllObjects(objs) && nodes == FlattenElems(objs) ::
              (handler.list, ok) == Direct(MountRules, objs)
  {
    handler.errorDetected := false;
    if handler.list != [] {
      return true;
    }
    ok := handler.HandleSection(nodes);
    forall objs: seq<Json> | AllObjects(objs) && nodes == FlattenElems(objs) && old(handler.list) == []
      ensures handler.list == Direct(MountRules, objs).0
    {
      assert [] + Direct(MountRules, objs).0 == Direct(MountRules, objs).0;
    }
  }

  // ------------------------------------------------------------------
  // Hooks.

  /** The string vector of a node's children: it ends at the first child without text. */
  function Texts(nodes: seq<GNode>): seq<string> {
    if nodes == [] || nodes[0].data.None? then [] else [nodes[0].data.value] + Texts(nodes[1..])
  }

  /** A NULL-terminated vector as its readers see it. */
  function Terminated(strv: seq<Option<string>>): seq<string> {
    if strv == [] || strv[0].None? then [] else [strv[0].value] + Terminated(strv[1..])
  }

  /** node_to_strv. */
  method NodeToStrv(nodes: seq<GNode>) returns (strv: seq<Option<string>>)
    ensures |strv| == |nodes| + 1 && strv[|nodes|] == None
    ensures Terminated(strv) == Texts(nodes)
  {
    strv := [];
    var i := 0;
    while i < |nodes|
      invariant 0 <= i <= |nodes| && |strv| == i
      invariant forall j :: 0 <= j < i ==> strv[j] == nodes[j].data
    {
      strv := strv + [nodes[i].data];
      i := i + 1;
    }
    strv := strv + [None];
    TerminatedTexts(strv, nodes);
  }

  lemma {:induction false} TerminatedTexts(strv: seq<Option<string>>, nodes: seq<GNode>)
    requires |strv| == |nodes| + 1 && strv[|nodes|] == None
    requires forall j :: 0 <= j < |nodes| ==> strv[j] == nodes[j].data
    ensures Terminated(strv) == Texts(nodes)
    decreases |nodes|
  {
    if nodes != [] && nodes[0].data.Some? {
      TerminatedTexts(strv[1..], nodes[1..]);
    }
  }

  /** A vector of strings survives as an array of JSON strings. */
  function StringArray(texts: seq<string>): (elems: seq<Json>)
    ensures |elems| == |texts| && forall i :: 0 <= i < |texts| ==> elems[i] == String(texts[i])
  {
    seq(|texts|, i requires 0 <= i < |texts| => String(texts[i]))
  }

  lemma {:induction false} TextsOfStrings(texts: seq<string>)
    ensures Texts(FlattenElems(StringArray(texts))) == texts
    ensures FlattenElems(StringArray(texts)) == [] <==> texts == []
  {
    var elems := StringArray(texts);
    if texts != [] {
      assert elems[1..] == StringArray(texts[1..]);
      TextsOfStrings(texts[1..]);
      var node := GNode(Some(texts[0]), [Separator]);
      assert Flatten(elems[0], true) == [node];
      assert FlattenElems(elems)[0] == node && FlattenElems(elems)[1..] == FlattenElems(elems[1..]);
    }
  }

  datatype Hook = Hook(path: string, args: Option<seq<string>>, env: Option<seq<string>>, timeout: int)

  const BlankHook := Hook("", None, None, 0)

  /** The int that strtoll yields; a missing text counts as no number. */
  function IntOf(text: Option<string>): int {
    if text.None? then 0 else ToInt32(Strtoll(text.value).0)
  }

  function TakeHook(h: Hook, key: string, nodes: seq<GNode>): Option<Hook> {
    if nodes == [] then Some(h)
    else if key == "path" then Some(h.(path := Truncate(Shown(nodes[0].data))))
    else if key == "args" then Some(h.(args := Some(Texts(nodes))))
    else if key == "env" then Some(h.(env := Some(Texts(nodes))))
    else if key == "timeout" then Some(h.(timeout := IntOf(nodes[0].data)))
    else Some(h)
  }

  function HookComplete(h: Hook): bool {
    h.path != ""
  }

  const HookRules: Rules<Hook> := Rules(BlankHook, TakeHook, HookComplete)

  /** A hook from an object's members by name, over what is there already. */
  function HookOver(h: Hook, members: seq<Member>): Hook {
    var path, args, env, timeout :=
      Below(members, "path"), Below(members, "args"), Below(members, "env"), Below(members, "timeout");
    Hook(if path == [] then h.path else Truncate(Shown(path[0].data)),
         if args == [] then h.args else Some(Texts(args)),
         if env == [] then h.env else Some(Texts(env)),
         if timeout == [] then h.timeout else IntOf(timeout[0].data))
  }

  lemma HookOverStep(h: Hook, members: seq<Member>)
    requires members != [] && UniqueKeys(members)
    ensures var nodes := Flatten(members[0].value, false);
            TakeHook(h, members[0].key, nodes).Some?
            && HookOver(h, members) == HookOver(TakeHook(h, members[0].key, nodes).value, members[1..])
  {
    FirstMember(members, "path");
    FirstMember(members, "args");
    FirstMember(members, "env");
    FirstMember(members, "timeout");
    hide Flatten, Below, Texts, IntOf, Truncate, Shown;
  }

  lemma {:induction false} FillHook(current: Option<Hook>, members: seq<Member>)
    requires UniqueKeys(members)
    ensures Fill(HookRules, current, members)
         == Open(if current.None? && NothingBelow(members) then None
                 else Some(HookOver(if current.Some? then current.value else BlankHook, members)))
    decreases |members|
  {
    if members != [] {
      NothingBelowStep(members);
      FirstMember(members, "");
      var h := if current.Some? then current.value else BlankHook;
      HookOverStep(h, members);
      var nodes := Flatten(members[0].value, false);
      if nodes == [] {
        assert TakeHook(h, members[0].key, nodes) == Some(h);
      }
      hide Flatten, HookOver, Below, TakeHook;
      if nodes == [] {
        FillHook(current, members[1..]);
      } else {
        FillHook(TakeHook(h, members[0].key, nodes), members[1..]);
      }
    }
  }

  /** What an object of a hooks array comes to; it is refused exactly when it has values
      but no path, or an empty one. */
  lemma HookOfObject(members: seq<Member>)
    requires UniqueKeys(members)
    ensures Build(HookRules, members)
         == if NothingBelow(members) then Nothing
            else if HookOver(BlankHook, members).path != "" then Good(HookOver(BlankHook, members)) else Bad
  {
    FillHook(None, members);
    hide Fill, NothingBelow, HookOver;
  }

  datatype HookLists = HookLists(prestart: seq<Hook>, poststart: seq<Hook>, poststop: seq<Hook>) {
    function Get(key: string): seq<Hook> {
      if key == "prestart" then prestart else if key == "poststart" then poststart else poststop
    }

    function Put(key: string, list: seq<Hook>): HookLists {
      if key == "prestart" then this.(prestart := list)
      else if key == "poststart" then this.(poststart := list)
      else this.(poststop := list)
    }
  }

  predicate KnownHook(key: string) {
    key == "prestart" || key == "poststart" || key == "poststop"
  }

  /** handle_hooks_section on one node: its records go to the list of that name, through
      the shared record; unknown names are only reported. */
  function HookStep(lists: HookLists, error: bool, node: GNode): (HookLists, bool) {
    if node.children == [] || error || node.data.None? || !KnownHook(node.data.value) then (lists, error)
    else
      var key := node.data.value;
      var m := Finish(HookRules, Run(HookRules, Machine(None, false, lists.Get(key)), node.children));
      (lists.Put(key, m.list), m.error)
  }

  function HookSteps(lists: HookLists, error: bool, nodes: seq<GNode>): (HookLists, bool)
    decreases |nodes|
  {
    if nodes == [] then (lists, error)
    else
      var (lists', error') := HookStep(lists, error, nodes[0]);
      HookSteps(lists', error', nodes[1..])
  }

  /** hooks_handle_section. */
  method HooksHandleSection(handler: Handler<Hook>, lists0: HookLists, nodes: seq<GNode>)
    returns (ok: bool, lists: HookLists)
    requires handler.rules == HookRules && handler.current.None?
    modifies handler
    ensures (lists, !ok) == HookSteps(lists0, false, nodes)
    ensures handler.current.None?
  {
    handler.errorDetected := false;
    lists := lists0;
    var i := 0;
    assert nodes[0..] == nodes;
    while i < |nodes|
      invariant 0 <= i <= |nodes|
      invariant handler.current.None?
      invariant HookSteps(lists, handler.errorDetected, nodes[i..]) == HookSteps(lists0, false, nodes)
    {
      assert nodes[i..][1..] == nodes[i + 1..];
      lists := HandleHooksSection(handler, lists, nodes[i]);
      i := i + 1;
    }
    ok := !handler.errorDetected;
  }

  method HandleHooksSection(handler: Handler<Hook>, lists0: HookLists, node: GNode) returns (lists: HookLists)
    requires handler.rules == HookRules && handler.current.None?
    modifies handler
    ensures (lists, handler.errorDetected) == HookStep(lists0, old(handler.errorDetected), node)
    ensures handler.current.None?
  {
    lists := lists0;
    if node.children == [] || handler.errorDetected {
      return;
    }
    if node.data.None? || !KnownHook(node.data.value) {
      return;
    }
    handler.list := lists.Get(node.data.value);
    RunLeavesNothing(HookRules, handler.View(), node.children);
    handler.HandleNodes(node.children);
    lists := lists.Put(node.data.value, handler.list);
  }

  /** The array under a hook's name; nothing if the name is missing. */
  function HookObjs(members: seq<Member>, key: string): seq<Json> {
    if members == [] then []
    else if members[0].key == key then (if members[0].value.Array? then members[0].value.elems else [])
    else HookObjs(members[1..], key)
  }

  ghost predicate HookArrays(members: seq<Member>) {
    forall i :: 0 <= i < |members| && KnownHook(members[i].key) ==>
      members[i].value.Array? && AllObjects(members[i].value.elems)
  }

  lemma {:induction false} HookObjsOk(members: seq<Member>, key: string)
    requires HookArrays(members) && KnownHook(key)
    ensures AllObjects(HookObjs(members, key))
  {
    if members != [] && members[0].key != key { HookObjsOk(members[1..], key); }
  }

  lemma {:induction false} HookObjsAbsent(members: seq<Member>, key: string)
    requires forall i :: 0 <= i < |members| ==> members[i].key != key
    ensures HookObjs(members, key) == []
  {
    if members != [] { HookObjsAbsent(members[1..], key); }
  }

  ghost function DirectHooks(members: seq<Member>, key: string): (seq<Hook>, bool)
    requires HookArrays(members) && KnownHook(key)
  {
    HookObjsOk(members, key);
    Direct(HookRules, HookObjs(members, key))
  }

  lemma DirectHooksStep(members: seq<Member>, key: string)
    requires HookArrays(members) && KnownHook(key) && members != [] && UniqueKeys(members)
    ensures HookArrays(members[1..])
    ensures members[0].key == key ==>
              DirectHooks(members, key) == Direct(HookRules, members[0].value.elems)
              && DirectHooks(members[1..], key) == ([], true)
    ensures members[0].key != key ==> DirectHooks(members, key) == DirectHooks(members[1..], key)
  {
    if members[0].key == key { HookObjsAbsent(members[1..], key); }
    hide Direct;
    assert Direct(HookRules, []) == ([], true) by { DirectNone(HookRules); }
  }

  lemma DirectNone<R>(rules: Rules<R>)
    ensures Direct(rules, []) == ([], true)
  {
  }

  /** One hooks member: its records behind the ones already in the list of its name. */
  lemma HookStepIsDirect(lists: HookLists, m: Member)
    requires KnownHook(m.key) && m.value.Array? && AllObjects(m.value.elems)
    ensures var d := Direct(HookRules, m.value.elems);
            HookStep(lists, false, GNode(Some(m.key), Flatten(m.value, false)))
            == (lists.Put(m.key, lists.Get(m.key) + d.0), !d.1)
  {
    var objs := m.value.elems;
    assert Flatten(m.value, false) == FlattenElems(objs);
    var start := Machine(None, false, lists.Get(m.key));
    SeparatorsRecoverRecords(HookRules, start, objs);
    if FlattenElems(objs) == [] {
      assert Run(HookRules, start, []) == start;
      assert lists.Put(m.key, lists.Get(m.key)) == lists;
    }
    hide Flatten, FlattenElems, Run, Direct, Build;
  }

  lemma {:induction false} HookStepsAfterError(lists: HookLists, nodes: seq<GNode>)
    ensures HookSteps(lists, true, nodes) == (lists, true)
    decreases |nodes|
  {
    if nodes != [] { HookStepsAfterError(lists, nodes[1..]); }
  }

  lemma {:induction false} HookMembersRecovered(lists: HookLists, members: seq<Member>)
    requires UniqueKeys(members) && HookArrays(members)
    ensures var (ls, error) := HookSteps(lists, false, FlattenMembers(members));
            var pre, post, stop := DirectHooks(members, "prestart"), DirectHooks(members, "poststart"), DirectHooks(members, "poststop");
            && (!error <==> pre.1 && post.1 && stop.1)
            && (!error ==> ls == HookLists(lists.prestart + pre.0, lists.poststart + post.0, lists.poststop + stop.0))
    decreases |members|
  {
    if members == [] {
      DirectNone(HookRules);
    } else {
      var m := members[0];
      var node := GNode(Some(m.key), Flatten(m.value, false));
      var nodes := FlattenMembers(members);
      assert nodes[0] == node && nodes[1..] == FlattenMembers(members[1..]);
      DirectHooksStep(members, "prestart");
      DirectHooksStep(members, "poststart");
      DirectHooksStep(members, "poststop");
      if KnownHook(m.key) { HookStepIsDirect(lists, m); }
      FirstMember(members, "");
      hide Flatten, FlattenMembers, Direct, DirectHooks;
      var (ls, error) := HookStep(lists, false, node);
      if error {
        HookStepsAfterError(ls, nodes[1..]);
      } else {
        HookMembersRecovered(ls, members[1..]);
      }
    }
  }

  /** The three hook lists, recovered through one shared record, are the object-by-object
      ones; the section is refused exactly when one of the three has a bad object. */
  lemma HooksRecovered(lists: HookLists, members: seq<Member>)
    requires UniqueKeys(members) && HookArrays(members)
    ensures var (ls, error) := HookSteps(lists, false, Flatten(Object(members), false));
            var pre, post, stop := DirectHooks(members, "prestart"), DirectHooks(members, "poststart"), DirectHooks(members, "poststop");
            && (!error <==> pre.1 && post.1 && stop.1)
            && (!error ==> ls == HookLists(lists.prestart + pre.0, lists.poststart + post.0, lists.poststop + stop.0))
  {
    HookMembersRecovered(lists, members);
    var nodes := Flatten(Object(members), false);
    assert nodes[0] == Separator && nodes[1..] == FlattenMembers(members);
    assert HookStep(lists, false, Separator) == (lists, false);
    hide HookStep, Flatten, FlattenMembers, DirectHooks;
  }

  // ------------------------------------------------------------------
  // Namespaces.

  datatype NsType = CgroupNs | IpcNs | MountNs | NetNs | PidNs | UserNs | UtsNs

  /** cc_oci_str_to_ns. */
  function StrToNs(text: string): Option<NsType> {
    if text == "cgroup" then Some(CgroupNs)
    else if text == "ipc" then Some(IpcNs)
    else if text == "mount" then Some(MountNs)
    else if text == "network" then Some(NetNs)
    else if text == "pid" then Some(PidNs)
    else if text == "user" then Some(UserNs)
    else if text == "uts" then Some(UtsNs)
    else None
  }

  function NsName(ns: NsType): string {
    match ns
    case CgroupNs => "cgroup"
    case IpcNs => "ipc"
    case MountNs => "mount"
    case NetNs => "network"
    case PidNs => "pid"
    case UserNs => "user"
    case UtsNs => "uts"
  }

  /** Each type has one name, and only these are names. */
  lemma NsNames(text: string, ns: NsType)
    ensures StrToNs(text) == Some(ns) <==> text == NsName(ns)
  {
    assert |"cgroup"| == 6 && |"mount"| == 5 && |"network"| == 7 && |"user"| == 4;
    assert "ipc"[0] == 'i' && "pid"[0] == 'p' && "uts"[0] == 'u';
  }

  /** A namespace without a type has the value 0 there, which is none of them. */
  datatype Ns = Ns(nsType: Option<NsType>, path: Option<string>)

  function TypeOf(nodes: seq<GNode>): Option<NsType> {
    if nodes == [] || nodes[0].data.None? then None else StrToNs(nodes[0].data.value)
  }

  function TakeNs(n: Ns, key: string, nodes: seq<GNode>): Option<Ns> {
    if nodes == [] then Some(n)
    else if key == "type" then
      if TypeOf(nodes).None? then None else Some(n.(nsType := TypeOf(nodes)))
    else if key == "path" then
      if nodes[0].data.Some? && nodes[0].data.value != "" then Some(n.(path := nodes[0].data)) else Some(n)
    else Some(n)
  }

  const NsRules: Rules<Ns> := Rules(Ns(None, None), TakeNs, (n: Ns) => true)

  predicate BadType(members: seq<Member>) {
    Below(members, "type") != [] && TypeOf(Below(members, "type")).None?
  }

  function NsOver(n: Ns, members: seq<Member>): Ns {
    var nsType, path := Below(members, "type"), Below(members, "path");
    Ns(if nsType == [] then n.nsType else TypeOf(nsType),
       if path != [] && path[0].data.Some? && path[0].data.value != "" then path[0].data else n.path)
  }

  lemma NsOverStep(n: Ns, members: seq<Member>)
    requires members != [] && UniqueKeys(members)
    ensures var r := TakeNs(n, members[0].key, Flatten(members[0].value, false));
            && (r.None? ==> BadType(members))
            && (r.Some? ==> (BadType(members) <==> BadType(members[1..])) && NsOver(n, members) == NsOver(r.value, members[1..]))
  {
    FirstMember(members, "type");
    FirstMember(members, "path");
    hide Flatten, Below, StrToNs;
  }

  lemma {:induction false} FillNs(current: Option<Ns>, members: seq<Member>)
    requires UniqueKeys(members)
    ensures Fill(NsRules, current, members)
         == if BadType(members) then Failed
            else Open(if current.None? && NothingBelow(members) then None
                      else Some(NsOver(if current.Some? then current.value else Ns(None, None), members)))
    decreases |members|
  {
    if members != [] {
      NothingBelowStep(members);
      FirstMember(members, "");
      var n := if current.Some? then current.value else Ns(None, None);
      NsOverStep(n, members);
      var nodes := Flatten(members[0].value, false);
      var r := TakeNs(n, members[0].key, nodes);
      if nodes == [] {
        assert r == Some(n);
      }
      hide Flatten, NsOver, BadType, TakeNs;
      if nodes == [] {
        FillNs(current, members[1..]);
      } else if r.Some? {
        FillNs(r, members[1..]);
      }
    }
  }

  /** What an object of the namespaces array comes to; it is refused exactly when it has a
      type that is not the name of one. */
  lemma NsOfObject(members: seq<Member>)
    requires UniqueKeys(members)
    ensures Build(NsRules, members)
         == if BadType(members) then Bad
            else if NothingBelow(members) then Nothing
            else Good(NsOver(Ns(None, None), members))
  {
    FillNs(None, members);
    hide Fill, NothingBelow, NsOver, BadType;
  }

  /** linux_handle_section: only the namespaces member matters, and the last namespace is
      saved at the very end. */
  method LinuxHandleSection(handler: Handler<Ns>, nodes: seq<GNode>) returns (ok: bool)
    requires handler.rules == NsRules && handler.current.None?
    modifies handler
    ensures ok <==> !handler.errorDetected
    ensures handler.View() == Finish(NsRules, LinuxRun(old(handler.View()).(error := false), nodes))
    ensures handler.current.None?
  {
    handler.errorDetected := false;
    ghost var start := handler.View();
    var i := 0;
    while i < |nodes|
      invariant 0 <= i <= |nodes|
      invariant handler.View() == LinuxRun(start, nodes[..i])
    {
      LinuxRunStep(start, nodes, i);
      if nodes[i].children != [] && nodes[i].data == Some("namespaces") {
        handler.ForEach(nodes[i].children);
      }
      i := i + 1;
    }
    assert nodes[..i] == nodes;
    LinuxRunClear(start, nodes);
    if !handler.errorDetected {
      handler.SaveCurrent();
    }
    ok := !handler.errorDetected;
  }

  /** handle_linux_section over the first nodes. */
  ghost function LinuxRun(m: Machine<Ns>, nodes: seq<GNode>): Machine<Ns> {
    if nodes == [] then m
    else
      var n, node := LinuxRun(m, nodes[..|nodes| - 1]), nodes[|nodes| - 1];
      if node.children != [] && node.data == Some("namespaces") then Run(NsRules, n, node.children) else n
  }

  lemma LinuxRunStep(m: Machine<Ns>, nodes: seq<GNode>, i: nat)
    requires i < |nodes|
    ensures LinuxRun(m, nodes[..i + 1])
         == if nodes[i].children != [] && nodes[i].data == Some("namespaces")
            then Run(NsRules, LinuxRun(m, nodes[..i]), nodes[i].children) else LinuxRun(m, nodes[..i])
  {
    assert nodes[..i + 1][..i] == nodes[..i];
  }

  lemma {:induction false} LinuxRunClear(m: Machine<Ns>, nodes: seq<GNode>)
    requires m.error ==> m.current.None?
    ensures LinuxRun(m, nodes).error ==> LinuxRun(m, nodes).current.None?
  {
    if nodes != [] {
      var node := nodes[|nodes| - 1];
      LinuxRunClear(m, nodes[..|nodes| - 1]);
      RunLeavesNothing(NsRules, LinuxRun(m, nodes[..|nodes| - 1]), node.children);
    }
  }

  lemma {:induction false} FlattenMembersAt(members: seq<Member>, i: nat)
    requires i < |members|
    ensures FlattenMembers(members)[i] == GNode(Some(members[i].key), Flatten(members[i].value, false))
  {
    if i > 0 { FlattenMembersAt(members[1..], i - 1); }
  }

  lemma {:induction false} LinuxRunUpTo(m: Machine<Ns>, members: seq<Member>, k: nat, n: nat)
    requires k < |members| && n <= |members| && UniqueKeys(members)
    requires members[k].key == "namespaces" && members[k].value.Array?
    ensures LinuxRun(m, FlattenMembers(members)[..n])
         == if k < n then Run(NsRules, m, FlattenElems(members[k].value.elems)) else m
  {
    if n > 0 {
      FlattenMembersAt(members, n - 1);
      assert Flatten(members[k].value, false) == FlattenElems(members[k].value.elems);
      assert Run(NsRules, m, []) == m;
      hide Flatten, FlattenMembers, FlattenElems, Run, LinuxRun;
      LinuxRunUpTo(m, members, k, n - 1);
      LinuxRunStep(m, FlattenMembers(members), n - 1);
    }
  }

  lemma {:induction false} LinuxRunWithout(m: Machine<Ns>, members: seq<Member>, n: nat)
    requires n <= |members| && forall i :: 0 <= i < |members| ==> members[i].key != "namespaces"
    ensures LinuxRun(m, FlattenMembers(members)[..n]) == m
  {
    if n > 0 {
      FlattenMembersAt(members, n - 1);
      hide Flatten, FlattenMembers, Run, LinuxRun;
      LinuxRunWithout(m, members, n - 1);
      LinuxRunStep(m, FlattenMembers(members), n - 1);
    }
  }

  lemma {:induction false} LinuxRunBehind(m: Machine<Ns>, nodes: seq<GNode>)
    ensures LinuxRun(m, [Separator] + nodes) == LinuxRun(m, nodes)
  {
    if nodes != [] {
      var all := [Separator] + nodes;
      assert all[..|all| - 1] == [Separator] + nodes[..|nodes| - 1] && all[|all| - 1] == nodes[|nodes| - 1];
      LinuxRunBehind(m, nodes[..|nodes| - 1]);
    } else {
      assert ([Separator] + nodes)[..0] == [];
    }
  }

  /** The namespaces of a linux section are those of its namespaces array, object by
      object; without one there are none. */
  lemma NamespacesRecovered(list: seq<Ns>, members: seq<Member>)
    requires UniqueKeys(members)
    ensures var n := Finish(NsRules, LinuxRun(Machine(None, false, list), Flatten(Object(members), false)));
            && (forall k :: 0 <= k < |members| && members[k].key == "namespaces"
                            && members[k].value.Array? && AllObjects(members[k].value.elems) ==>
                  n == Machine(None, !Direct(NsRules, members[k].value.elems).1, list + Direct(NsRules, members[k].value.elems).0))
            && ((forall k :: 0 <= k < |members| ==> members[k].key != "namespaces") ==> n == Machine(None, false, list))
  {
    var m := Machine(None, false, list);
    var nodes := FlattenMembers(members);
    LinuxRunBehind(m, nodes);
    assert nodes[..|members|] == nodes;
    hide LinuxRun, Run, Flatten, FlattenMembers, FlattenElems, Direct;
    assert Flatten(Object(members), false) == [Separator] + nodes by { FlattenObject(members); }
    if k :| 0 <= k < |members| && members[k].key == "namespaces" && members[k].value.Array? && AllObjects(members[k].value.elems) {
      OneNamespaces(m, members, k);
    } else if forall k :: 0 <= k < |members| ==> members[k].key != "namespaces" {
      LinuxRunWithout(m, members, |members|);
    }
  }

  lemma OneNamespaces(m: Machine<Ns>, members: seq<Member>, k: nat)
    requires k < |members| && UniqueKeys(members) && m.current.None? && !m.error
    requires members[k].key == "namespaces" && members[k].value.Array? && AllObjects(members[k].value.elems)
    ensures Finish(NsRules, LinuxRun(m, FlattenMembers(members)))
         == Machine(None, !Direct(NsRules, members[k].value.elems).1, m.list + Direct(NsRules, members[k].value.elems).0)
  {
    var nodes := FlattenMembers(members);
    assert nodes[..|members|] == nodes;
    hide LinuxRun, Run, Flatten, FlattenMembers, FlattenElems, Direct;
    LinuxRunUpTo(m, members, k, |members|);
    SeparatorsRecoverRecords(NsRules, m, members[k].value.elems);
  }

  lemma FlattenObject(members: seq<Member>)
    ensures Flatten(Object(members), false) == [Separator] + FlattenMembers(members)
  {
  }
}
