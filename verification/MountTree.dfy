/** Mounting and its undoing (src/mount.c): the directories made on the way to each mount
    point, the topmost of them remembered, and all of them deleted again. */
module MountTree {
  import opened CStrings
  import opened Option

  /** An absolute path by its components; the empty one is the root. */
  type Path = seq<string>

  ghost predicate ValidPath(p: Path) {
    forall i :: 0 <= i < |p| ==> p[i] != "" && '/' !in p[i] && '\0' !in p[i]
  }

  /** The text of a path; the root comes out as the empty string, which names nothing. */
  function Render(p: Path): string {
    if p == [] then "" else Render(Parent(p)) + "/" + p[|p| - 1]
  }

  function Parent(p: Path): Path
    requires p != []
  {
    p[..|p| - 1]
  }

  ghost predicate Closed(dirs: set<Path>) {
    && [] in dirs
    && (forall p :: p in dirs && p != [] ==> Parent(p) in dirs)
    && (forall p :: p in dirs ==> ValidPath(p))
  }

  /** g_file_test for a directory. */
  predicate IsDir(dirs: set<Path>, s: string) {
    exists p :: p in dirs && p != [] && Render(p) == s
  }

  // ------------------------------------------------------------------
  // Paths and their texts.

  lemma {:induction false} RenderClean(p: Path)
    requires ValidPath(p)
    ensures '\0' !in Render(p)
    ensures p != [] ==> Render(p) != ""
  {
    if p != [] { RenderClean(Parent(p)); }
  }

  /** The last slash of a text, by g_strrstr. */
  function LastSlash(s: string): (c: int)
    ensures -1 <= c < |s|
    ensures c >= 0 ==> s[c] == '/'
    ensures forall i :: c < i < |s| ==> s[i] != '/'
  {
    if s == "" then -1
    else if s[|s| - 1] == '/' then |s| - 1
    else LastSlash(s[..|s| - 1])
  }

  lemma LastSlashAt(a: string, b: string)
    requires '/' !in b
    ensures LastSlash(a + "/" + b) == |a|
  {
    hide LastSlash;
    var s := a + "/" + b;
    assert s[|a|] == '/';
    assert forall i :: |a| < i < |s| ==> s[i] in b;
  }

  /** Cutting a path's text at its last slash leaves its parent's. */
  lemma CutIsParent(p: Path)
    requires ValidPath(p) && p != []
    ensures LastSlash(Render(p)) == |Render(Parent(p))|
    ensures Render(p)[..|Render(Parent(p))|] == Render(Parent(p))
  {
    LastSlashAt(Render(Parent(p)), p[|p| - 1]);
  }

  lemma {:induction false} RenderInjective(p: Path, q: Path)
    requires ValidPath(p) && ValidPath(q) && Render(p) == Render(q)
    ensures p == q
  {
    RenderClean(p);
    RenderClean(q);
    if p != [] && q != [] {
      CutIsParent(p);
      CutIsParent(q);
      RenderInjective(Parent(p), Parent(q));
      var n := |Render(Parent(p))|;
      assert p[|p| - 1] == Render(p)[n + 1..] && q[|q| - 1] == Render(q)[n + 1..];
      assert p == Parent(p) + [p[|p| - 1]] && q == Parent(q) + [q[|q| - 1]];
    }
  }

  lemma IsDirIff(dirs: set<Path>, p: Path)
    requires Closed(dirs) && ValidPath(p)
    ensures IsDir(dirs, Render(p)) <==> p != [] && p in dirs
  {
    if IsDir(dirs, Render(p)) {
      var q :| q in dirs && q != [] && Render(q) == Render(p);
      RenderInjective(p, q);
    }
  }

  // ------------------------------------------------------------------
  // The topmost missing ancestor.

  function TopMissing(dirs: set<Path>, p: Path): (top: Path)
    requires [] in dirs && p !in dirs
    ensures top <= p && top != [] && top !in dirs && Parent(top) in dirs
    decreases |p|
  {
    if Parent(p) in dirs then p else TopMissing(dirs, Parent(p))
  }

  /** What is remembered for a directory that has to be there. */
  function Remembered(dirs: set<Path>, q: Path): Option<string>
    requires [] in dirs
  {
    if q in dirs || q[..1] !in dirs then None else Some(Render(TopMissing(dirs, q)))
  }

  lemma {:induction false} TopBelow(dirs: set<Path>, q: Path, k: nat)
    requires Closed(dirs) && q !in dirs && 1 <= k <= |q| && q[..k] !in dirs
    ensures TopMissing(dirs, q) == TopMissing(dirs, q[..k])
    decreases |q|
  {
    if k == |q| {
      assert q[..k] == q;
    } else {
      ClosedPrefix(dirs, Parent(q), k);
      assert Parent(q)[..k] == q[..k];
      TopBelow(dirs, Parent(q), k);
    }
  }

  lemma {:induction false} ClosedPrefix(dirs: set<Path>, p: Path, k: nat)
    requires Closed(dirs) && k <= |p|
    ensures p in dirs ==> p[..k] in dirs
    decreases |p|
  {
    if k < |p| {
      assert Parent(p)[..k] == p[..k];
      ClosedPrefix(dirs, Parent(p), k);
    } else {
      assert p[..k] == p;
    }
  }

  /** The buffer reads as the text of the path. */
  ghost predicate Holds(buf: seq<char>, p: Path) {
    var n := |Render(p)|;
    n < |buf| && buf[n] == '\0' && buf[..n] == Render(p)
  }

  lemma HoldsText(buf: seq<char>, p: Path)
    requires ValidPath(p) && Holds(buf, p)
    ensures CString(buf) == Render(p)
  {
    RenderClean(p);
    CStringIs(buf, |Render(p)|);
  }

  lemma CutText(buf: seq<char>, s: string, c: nat)
    requires c < |s| < |buf| && buf[..|s|] == s && s[c] == '/'
    ensures buf[c := '\0'][..c] == s[..c] && buf[c := '\0'][c := '/'] == buf
  {
    assert buf[..|s|][..c] == buf[..c] && buf[..|s|][c] == buf[c];
  }

  /** Cutting at the last slash makes the buffer read as the parent; putting the slash back
      undoes the cut. */
  lemma CutHolds(buf: seq<char>, p: Path)
    requires ValidPath(p) && p != [] && Holds(buf, p)
    ensures var c := LastSlash(CString(buf));
            0 <= c < |buf| && Holds(buf[c := '\0'], Parent(p)) && buf[c := '\0'][c := '/'] == buf
  {
    HoldsText(buf, p);
    CutIsParent(p);
    hide Render, CString, LastSlash, ValidPath;
    CutText(buf, Render(p), LastSlash(CString(buf)));
  }

  lemma FirstFound(dirs: set<Path>, q: Path, k: nat)
    requires Closed(dirs) && q !in dirs && 2 <= k <= |q| && q[..k] !in dirs && q[..k - 1] in dirs
    ensures Remembered(dirs, q) == Some(Render(q[..k]))
  {
    TopBelow(dirs, q, k);
    assert Parent(q[..k]) == q[..k - 1];
    ClosedPrefix(dirs, q[..k - 1], 1);
    assert q[..k - 1][..1] == q[..1];
  }

  /** The loop of cc_oci_handle_mounts that cuts a copy of the path, slash by slash, until
      it names a directory, and then takes the last cut back. */
  method FirstParentToCreate(dirs: set<Path>, q: Path) returns (created: Option<string>)
    requires Closed(dirs) && ValidPath(q) && q != []
    ensures created == Remembered(dirs, q)
  {
    hide Render, CString, LastSlash, Holds, TopMissing;
    var buf := Strdup(q);
    HoldsText(buf[..], q);
    IsDirIff(dirs, q);
    if IsDir(dirs, CString(buf[..])) { return None; }
    assert q[..|q|] == q;
    ghost var k: nat := |q|;
    while true
      invariant 0 <= k <= |q| && (k == 0 || q[..k] !in dirs)
      invariant k == 0 ==> q[..1] !in dirs
      invariant Holds(buf[..], q[..k])
      decreases k
    {
      HoldsText(buf[..], q[..k]);
      var c := LastSlash(CString(buf[..]));
      SlashLeftIff(buf[..], q[..k]);
      if c < 0 { return None; }
      CutHolds(buf[..], q[..k]);
      ghost var before := buf[..];
      buf[c] := '\0';
      assert buf[..] == before[c := '\0'];
      assert Parent(q[..k]) == q[..k - 1];
      HoldsText(buf[..], q[..k - 1]);
      IsDirIff(dirs, q[..k - 1]);
      if IsDir(dirs, CString(buf[..])) {
        buf[c] := '/';
        assert buf[..] == before;
        FirstFound(dirs, q, k);
        return Some(CString(buf[..]));
      }
      k := k - 1;
    }
  }

  lemma SlashLeftIff(buf: seq<char>, p: Path)
    requires ValidPath(p) && Holds(buf, p)
    ensures LastSlash(CString(buf)) >= 0 <==> p != []
  {
    HoldsText(buf, p);
    if p != [] { CutHolds(buf, p); }
  }

  method Strdup(q: Path) returns (buf: array<char>)
    ensures fresh(buf) && Holds(buf[..], q)
  {
    var text := Render(q);
    buf := new char[|text| + 1];
    forall i | 0 <= i < |text| { buf[i] := text[i]; }
    buf[|text|] := '\0';
    assert buf[..][..|text|] == text;
  }

  // ------------------------------------------------------------------
  // The list of mounts.

  datatype Kind = Missing | Regular | Directory | Special

  /** A mount: where below the workload directory, what its source is, and what is noted
      about it while mounting. */
  datatype Entry = Entry(dir: Path, absolute: bool, kind: Kind, ignored: bool, created: Option<string>)

  /** The tree under the mounts, and the mount points in use. */
  datatype World = World(dirs: set<Path>, files: set<Path>, mounted: multiset<Path>)

  const IGNORED: seq<Path> := [
    ["proc"], ["dev"], ["dev", "pts"], ["dev", "shm"], ["dev", "mqueue"], ["sys"], ["sys", "fs", "cgroup"]
  ]

  function Dest(workload: Path, e: Entry): Path {
    workload + e.dir
  }

  /** The directory that has to exist: the mount point, or its parent if a file goes there. */
  function Place(workload: Path, e: Entry): Path
    requires workload != []
  {
    if e.absolute && e.kind != Directory then Parent(Dest(workload, e)) else Dest(workload, e)
  }

  function Prefixes(q: Path): set<Path> {
    set k | 0 <= k <= |q| :: q[..k]
  }

  predicate InTheWay(files: set<Path>, q: Path) {
    exists f :: f in files && f <= q
  }

  /** cc_oci_perform_mount. */
  function PerformMount(w: World, dest: Path, kind: Kind, mountOk: bool): (bool, World) {
    if kind == Missing || (kind == Regular && dest in w.dirs) then (false, w)
    else
      var w1 := if kind == Regular then w.(files := w.files + {dest}) else w;
      if mountOk && (dest in w1.dirs || dest in w1.files) then (true, w1.(mounted := w1.mounted + multiset{dest}))
      else (false, w1)
  }

  function MountOne(w: World, workload: Path, e: Entry, mountOk: bool): (bool, World, Entry)
    requires [] in w.dirs && workload != []
  {
    if e.dir in IGNORED then (true, w, e.(ignored := true))
    else if e.absolute && e.kind == Missing then (true, w, e)
    else
      var q := Place(workload, e);
      var e1 := if Remembered(w.dirs, q).Some? then e.(created := Remembered(w.dirs, q)) else e;
      if InTheWay(w.files, q) then (false, w, e1)
      else
        var (ok, w1) := PerformMount(w.(dirs := w.dirs + Prefixes(q)), Dest(workload, e), e.kind, mountOk);
        (ok, w1, e1)
  }

  function MountAll(w: World, workload: Path, es: seq<Entry>, oks: seq<bool>): (bool, World, seq<Entry>)
    requires [] in w.dirs && workload != [] && |oks| == |es|
    decreases |es|
  {
    if es == [] then (true, w, [])
    else
      var (ok, w1, e1) := MountOne(w, workload, es[0], oks[0]);
      if !ok then (false, w1, [e1] + es[1..])
      else
        var (all, w2, rest) := MountAll(w1, workload, es[1..], oks[1..]);
        (all, w2, [e1] + rest)
  }

  /** A path is at or below a text that names one of its ancestors. */
  predicate Under(p: Path, s: string) {
    exists k :: 0 <= k <= |p| && Render(p[..k]) == s
  }

  function Without(paths: set<Path>, s: string): set<Path> {
    set p | p in paths && !Under(p, s)
  }

  /** cc_oci_rm_rf. */
  function RemoveTree(w: World, s: string): World {
    w.(dirs := Without(w.dirs, s), files := Without(w.files, s))
  }

  function UnmountAll(w: World, workload: Path, es: seq<Entry>, busy: set<Path>): (bool, World)
    decreases |es|
  {
    if es == [] then (true, w)
    else if es[0].ignored then UnmountAll(w, workload, es[1..], busy)
    else
      var dest := Dest(workload, es[0]);
      if dest !in w.mounted || dest in busy then (false, w)
      else UnmountAll(w.(mounted := w.mounted - multiset{dest}), workload, es[1..], busy)
  }

  function RemoveAll(w: World, es: seq<Entry>): World
    decreases |es|
  {
    if es == [] then w
    else if es[0].ignored || es[0].created.None? then RemoveAll(w, es[1..])
    else RemoveAll(RemoveTree(w, es[0].created.value), es[1..])
  }

  /** cc_oci_handle_unmounts: nothing is deleted unless everything could be unmounted. */
  function Undo(w: World, workload: Path, es: seq<Entry>, busy: set<Path>): (bool, World) {
    var (ok, w1) := UnmountAll(w, workload, es, busy);
    if ok then (true, RemoveAll(w1, es)) else (false, w1)
  }

  /** Directories have their parents and so do files, and no path is both. */
  ghost predicate ValidWorld(w: World) {
    && Closed(w.dirs)
    && (forall f :: f in w.files ==> f != [] && Parent(f) in w.dirs && f !in w.dirs && ValidPath(f))
  }

  ghost predicate Blank(es: seq<Entry>) {
    forall i :: 0 <= i < |es| ==> !es[i].ignored && es[i].created.None? && ValidPath(es[i].dir)
  }

  // ------------------------------------------------------------------
  // One mount.

  lemma {:induction false} PrefixesAre(q: Path, p: Path)
    ensures p in Prefixes(q) <==> p <= q
  {
    if p <= q { assert q[..|p|] == p; }
  }

  lemma ValidPrefix(q: Path, p: Path)
    requires ValidPath(q) && p <= q
    ensures ValidPath(p)
  {
  }

  lemma MkdirCloses(dirs: set<Path>, q: Path)
    requires Closed(dirs) && ValidPath(q)
    ensures Closed(dirs + Prefixes(q))
  {
    forall p | p in dirs + Prefixes(q)
      ensures ValidPath(p) && (p != [] ==> Parent(p) in dirs + Prefixes(q))
    {
      PrefixesAre(q, p);
      if p != [] { PrefixesAre(q, Parent(p)); }
    }
  }

  lemma UnderIff(p: Path, top: Path)
    requires ValidPath(p) && ValidPath(top)
    ensures Under(p, Render(top)) <==> top <= p
  {
    if top <= p { assert p[..|top|] == top; }
    if Under(p, Render(top)) {
      var k :| 0 <= k <= |p| && Render(p[..k]) == Render(top);
      RenderInjective(p[..k], top);
    }
  }

  lemma PrefixIn(dirs: set<Path>, p: Path, top: Path)
    requires Closed(dirs) && p in dirs && top <= p
    ensures top in dirs
  {
    ClosedPrefix(dirs, p, |top|);
    assert p[..|top|] == top;
  }

  lemma TopIsTopmost(dirs: set<Path>, q: Path, p: Path)
    requires Closed(dirs) && q !in dirs && p <= q && p !in dirs
    ensures TopMissing(dirs, q) <= p
  {
    assert p == q[..|p|];
    TopBelow(dirs, q, |p|);
  }

  /** What making a directory adds is exactly what deleting its topmost missing ancestor
      takes away. */
  lemma MkdirUndone(dirs: set<Path>, q: Path, p: Path)
    requires Closed(dirs) && ValidPath(q) && q !in dirs
    ensures p in dirs + Prefixes(q) && !(TopMissing(dirs, q) <= p) <==> p in dirs
  {
    var top := TopMissing(dirs, q);
    PrefixesAre(q, p);
    if p in dirs && top <= p {
      PrefixIn(dirs, p, top);
    } else if p !in dirs && p <= q {
      TopIsTopmost(dirs, q, p);
    }
  }

  /** Whether a path outlives what an entry remembers. */
  predicate Spared(p: Path, e: Entry) {
    e.ignored || e.created.None? || !Under(p, e.created.value)
  }

  predicate SparedByAll(p: Path, es: seq<Entry>) {
    forall i :: 0 <= i < |es| ==> Spared(p, es[i])
  }

  lemma {:induction false} RemoveAllIs(w: World, es: seq<Entry>, p: Path)
    ensures var r := RemoveAll(w, es);
            && (p in r.dirs <==> p in w.dirs && SparedByAll(p, es))
            && (p in r.files <==> p in w.files && SparedByAll(p, es))
            && r.mounted == w.mounted
    decreases |es|
  {
    if es != [] {
      assert SparedByAll(p, es) <==> Spared(p, es[0]) && SparedByAll(p, es[1..]) by { SparedStep(p, es); }
      if es[0].ignored || es[0].created.None? {
        RemoveAllIs(w, es[1..], p);
      } else {
        RemoveAllIs(RemoveTree(w, es[0].created.value), es[1..], p);
      }
      hide Under, SparedByAll;
    }
  }

  lemma SparedStep(p: Path, es: seq<Entry>)
    requires es != []
    ensures SparedByAll(p, es) <==> Spared(p, es[0]) && SparedByAll(p, es[1..])
  {
    hide Spared;
    assert forall i :: 1 <= i < |es| ==> es[i] == es[1..][i - 1];
  }

  ghost predicate Mountable(w: World, workload: Path, e: Entry) {
    ValidWorld(w) && workload in w.dirs && workload != [] && !e.ignored && e.created.None? && ValidPath(e.dir)
  }

  lemma PlaceIsValid(w: World, workload: Path, e: Entry)
    requires Mountable(w, workload, e)
    ensures ValidPath(Dest(workload, e)) && Dest(workload, e) != []
    ensures ValidPath(Place(workload, e)) && (Place(workload, e) !in w.dirs ==> Place(workload, e)[..1] in w.dirs)
  {
    var dest, q := Dest(workload, e), Place(workload, e);
    ValidPrefix(dest, q);
    if e.dir == [] {
      assert dest == workload;
      if q == Parent(workload) {
        PrefixIn(w.dirs, workload, q);
      }
    } else {
      assert q[..1] == workload[..1];
      PrefixIn(w.dirs, workload, workload[..1]);
    }
  }

  /** The directories after one mount, and what its entry spares. */
  lemma OneUndone(w: World, workload: Path, e: Entry, mountOk: bool, p: Path)
    requires Mountable(w, workload, e) && MountOne(w, workload, e, mountOk).0
    ensures var (_, w1, e1) := MountOne(w, workload, e, mountOk);
            p in w1.dirs && Spared(p, e1) <==> p in w.dirs
  {
    if e.dir !in IGNORED && !(e.absolute && e.kind == Missing) {
      PlaceIsValid(w, workload, e);
      var q := Place(workload, e);
      PrefixesAre(q, p);
      if q in w.dirs {
        if p <= q { PrefixIn(w.dirs, q, p); }
      } else {
        MkdirUndone(w.dirs, q, p);
        if p in w.dirs + Prefixes(q) {
          MkdirCloses(w.dirs, q);
          ValidPrefix(q, TopMissing(w.dirs, q));
          UnderIff(p, TopMissing(w.dirs, q));
        }
      }
      hide Under, Render, TopMissing, Prefixes, Place, Dest, IGNORED;
    }
  }

  lemma OneKeeps(w: World, workload: Path, e: Entry, mountOk: bool)
    requires Mountable(w, workload, e) && MountOne(w, workload, e, mountOk).0
    ensures var w1 := MountOne(w, workload, e, mountOk).1;
            ValidWorld(w1) && w.dirs <= w1.dirs && w.files <= w1.files
  {
    if e.dir !in IGNORED && !(e.absolute && e.kind == Missing) {
      PlaceIsValid(w, workload, e);
      var q, dest := Place(workload, e), Dest(workload, e);
      MkdirCloses(w.dirs, q);
      PrefixesAre(q, q);
      forall f | f in w.files ensures f !in Prefixes(q) { PrefixesAre(q, f); }
      hide Prefixes, Closed, IGNORED, Remembered, ValidPath;
    }
  }

  ghost predicate Ready(w: World, workload: Path, es: seq<Entry>) {
    ValidWorld(w) && workload in w.dirs && workload != [] && Blank(es)
  }

  lemma ReadyStep(w: World, workload: Path, es: seq<Entry>, mountOk: bool)
    requires Ready(w, workload, es) && es != [] && MountOne(w, workload, es[0], mountOk).0
    ensures Mountable(w, workload, es[0])
    ensures Ready(MountOne(w, workload, es[0], mountOk).1, workload, es[1..])
  {
    OneKeeps(w, workload, es[0], mountOk);
    hide MountOne, ValidWorld;
  }

  /** Deleting what the entries remember leaves the directories that were there before. */
  lemma {:induction false} DirsUndone(w: World, workload: Path, es: seq<Entry>, oks: seq<bool>, p: Path)
    requires Ready(w, workload, es) && |oks| == |es| && MountAll(w, workload, es, oks).0
    ensures var (_, w1, done) := MountAll(w, workload, es, oks);
            p in w1.dirs && SparedByAll(p, done) <==> p in w.dirs
    decreases |es|
  {
    if es != [] {
      ReadyStep(w, workload, es, oks[0]);
      OneUndone(w, workload, es[0], oks[0], p);
      var (_, w1, e1) := MountOne(w, workload, es[0], oks[0]);
      DirsUndone(w1, workload, es[1..], oks[1..], p);
      var done := MountAll(w, workload, es, oks).2;
      SparedStep(p, done);
      assert done[1..] == MountAll(w1, workload, es[1..], oks[1..]).2;
      hide MountOne, Spared, SparedByAll, Ready, ValidWorld;
    }
  }

  // ------------------------------------------------------------------
  // Files made as mount points.

  predicate IsFileDest(workload: Path, e: Entry, f: Path) {
    e.dir !in IGNORED && e.kind == Regular && Dest(workload, e) == f
  }

  predicate FileDest(workload: Path, es: seq<Entry>, f: Path) {
    exists i :: 0 <= i < |es| && IsFileDest(workload, es[i], f)
  }

  lemma FileDestStep(workload: Path, es: seq<Entry>, f: Path)
    requires es != []
    ensures FileDest(workload, es, f) <==> IsFileDest(workload, es[0], f) || FileDest(workload, es[1..], f)
  {
    hide IsFileDest;
    assert forall i :: 1 <= i < |es| ==> es[i] == es[1..][i - 1];
    if FileDest(workload, es[1..], f) {
      var i :| 0 <= i < |es[1..]| && IsFileDest(workload, es[1..][i], f);
      assert IsFileDest(workload, es[i + 1], f);
    }
  }

  lemma OneFile(w: World, workload: Path, e: Entry, mountOk: bool, f: Path)
    requires Mountable(w, workload, e) && MountOne(w, workload, e, mountOk).0
    ensures var w1 := MountOne(w, workload, e, mountOk).1;
            && (f in w1.files <==> f in w.files || IsFileDest(workload, e, f))
            && (IsFileDest(workload, e, f) ==> f !in w.dirs)
  {
    hide Remembered, InTheWay, Place, Dest, IGNORED, ValidWorld, ValidPath;
  }

  lemma UnderParent(f: Path, top: Path)
    requires f != [] && ValidPath(f) && ValidPath(top) && f != top
    ensures Under(f, Render(top)) <==> Under(Parent(f), Render(top))
  {
    UnderIff(f, top);
    UnderIff(Parent(f), top);
    hide Under, Render, ValidPath;
    assert f == Parent(f) + [f[|f| - 1]];
  }

  lemma CreatedIs(w: World, workload: Path, e: Entry, mountOk: bool)
    requires Mountable(w, workload, e) && MountOne(w, workload, e, mountOk).0
    ensures var (_, w1, e1) := MountOne(w, workload, e, mountOk);
            !e1.ignored && e1.created.Some? ==>
              exists top :: top in w1.dirs && ValidPath(top) && e1.created == Some(Render(top))
  {
    var (_, w1, e1) := MountOne(w, workload, e, mountOk);
    hide ValidWorld, Render, Prefixes, Place, Dest, IGNORED, ValidPath, InTheWay;
    if !e1.ignored && e1.created.Some? {
      PlaceIsValid(w, workload, e);
      var q := Place(workload, e);
      var top := TopMissing(w.dirs, q);
      PrefixesAre(q, top);
      ValidPrefix(q, top);
      assert top in w1.dirs && e1.created == Some(Render(top));
    }
  }

  /** Away from the directories themselves, an entry spares a path as it spares its parent. */
  lemma SparedParent(w: World, workload: Path, e: Entry, mountOk: bool, f: Path)
    requires Mountable(w, workload, e) && MountOne(w, workload, e, mountOk).0
    requires f != [] && ValidPath(f) && f !in MountOne(w, workload, e, mountOk).1.dirs
    ensures var e1 := MountOne(w, workload, e, mountOk).2; Spared(f, e1) <==> Spared(Parent(f), e1)
  {
    var (_, w1, e1) := MountOne(w, workload, e, mountOk);
    CreatedIs(w, workload, e, mountOk);
    hide MountOne, Mountable, Under, Render, ValidPath;
    if !e1.ignored && e1.created.Some? {
      var top :| top in w1.dirs && ValidPath(top) && e1.created == Some(Render(top));
      UnderParent(f, top);
    }
  }

  lemma LaterFile(w: World, workload: Path, e: Entry, mountOk: bool, f: Path)
    requires Mountable(w, workload, e) && MountOne(w, workload, e, mountOk).0
    requires f != [] && ValidPath(f) && f !in MountOne(w, workload, e, mountOk).1.dirs
    ensures var (_, w1, e1) := MountOne(w, workload, e, mountOk);
            Parent(f) in w1.dirs && Spared(f, e1) <==> Parent(f) in w.dirs
  {
    SparedParent(w, workload, e, mountOk, f);
    OneUndone(w, workload, e, mountOk, Parent(f));
    hide MountOne, Spared, Mountable;
  }

  lemma {:induction false} FileDestsClear(w: World, workload: Path, es: seq<Entry>, oks: seq<bool>, f: Path)
    requires Ready(w, workload, es) && |oks| == |es| && MountAll(w, workload, es, oks).0 && FileDest(workload, es, f)
    ensures f !in w.dirs && f != [] && ValidPath(f)
    decreases |es|
  {
    FileDestStep(workload, es, f);
    ReadyStep(w, workload, es, oks[0]);
    OneFile(w, workload, es[0], oks[0], f);
    OneKeeps(w, workload, es[0], oks[0]);
    if IsFileDest(workload, es[0], f) {
      PlaceIsValid(w, workload, es[0]);
    } else {
      FileDestsClear(MountOne(w, workload, es[0], oks[0]).1, workload, es[1..], oks[1..], f);
    }
    hide MountOne, Ready, ValidWorld, FileDest, ValidPath;
  }

  lemma {:induction false} FilesUndone(w: World, workload: Path, es: seq<Entry>, oks: seq<bool>, f: Path)
    requires Ready(w, workload, es) && |oks| == |es| && MountAll(w, workload, es, oks).0 && f != []
    ensures var (_, w1, done) := MountAll(w, workload, es, oks);
            f in w1.files && SparedByAll(f, done) <==> f in w.files || (FileDest(workload, es, f) && Parent(f) in w.dirs)
    decreases |es|
  {
    if es != [] {
      ReadyStep(w, workload, es, oks[0]);
      var (_, w1, e1) := MountOne(w, workload, es[0], oks[0]);
      OneFile(w, workload, es[0], oks[0], f);
      OneKeeps(w, workload, es[0], oks[0]);
      assert f in w.files ==> Parent(f) in w.dirs;
      assert f in w1.files ==> f !in w1.dirs && ValidPath(f) && Parent(f) in w1.dirs;
      FilesUndone(w1, workload, es[1..], oks[1..], f);
      FileDestStep(workload, es, f);
      if FileDest(workload, es[1..], f) { FileDestsClear(w1, workload, es[1..], oks[1..], f); }
      if f in w1.files || FileDest(workload, es[1..], f) {
        LaterFile(w, workload, es[0], oks[0], f);
      }
      var done := MountAll(w, workload, es, oks).2;
      SparedStep(f, done);
      assert done[1..] == MountAll(w1, workload, es[1..], oks[1..]).2;
      hide MountOne, Spared, SparedByAll, Ready, ValidWorld, FileDest, IsFileDest, ValidPath;
    }
  }

  // ------------------------------------------------------------------
  // Mount points in use.

  predicate IsSkipped(e: Entry) {
    e.dir !in IGNORED && e.absolute && e.kind == Missing
  }

  /** What will be unmounted: every entry that is not marked as ignored. */
  function Pending(workload: Path, es: seq<Entry>): multiset<Path> {
    if es == [] then multiset{}
    else (if es[0].ignored then multiset{} else multiset{Dest(workload, es[0])}) + Pending(workload, es[1..])
  }

  function SkippedDests(workload: Path, es: seq<Entry>): multiset<Path> {
    if es == [] then multiset{}
    else (if IsSkipped(es[0]) then multiset{Dest(workload, es[0])} else multiset{}) + SkippedDests(workload, es[1..])
  }

  ghost predicate NoneBusy(busy: set<Path>, m: multiset<Path>) {
    forall d :: d in busy ==> d !in m
  }

  lemma {:induction false} UnmountIff(w: World, workload: Path, es: seq<Entry>, busy: set<Path>)
    ensures var (ok, w1) := UnmountAll(w, workload, es, busy);
            && (ok <==> Pending(workload, es) <= w.mounted && NoneBusy(busy, Pending(workload, es)))
            && w1.dirs == w.dirs && w1.files == w.files
            && (ok ==> w1.mounted == w.mounted - Pending(workload, es))
    decreases |es|
  {
    if es != [] {
      var rest := Pending(workload, es[1..]);
      var dest := Dest(workload, es[0]);
      if es[0].ignored {
        UnmountIff(w, workload, es[1..], busy);
        assert multiset{} + rest == rest;
      } else {
        OneBusy(busy, rest, dest);
        if dest in w.mounted && dest !in busy {
          TakeOne(rest, dest, w.mounted);
          UnmountIff(w.(mounted := w.mounted - multiset{dest}), workload, es[1..], busy);
        } else if dest !in w.mounted {
          NotTaken(rest, dest, w.mounted);
        }
      }
      hide Dest, NoneBusy;
    }
  }

  lemma OneBusy(busy: set<Path>, rest: multiset<Path>, d: Path)
    ensures NoneBusy(busy, multiset{d} + rest) <==> d !in busy && NoneBusy(busy, rest)
  {
    assert forall x :: x in multiset{d} + rest <==> x == d || x in rest;
  }

  lemma NotTaken(rest: multiset<Path>, d: Path, all: multiset<Path>)
    requires d !in all
    ensures !(multiset{d} + rest <= all)
  {
    assert d in multiset{d} + rest;
  }

  lemma TakeOne(rest: multiset<Path>, d: Path, all: multiset<Path>)
    requires d in all
    ensures rest <= all - multiset{d} <==> multiset{d} + rest <= all
    ensures all - multiset{d} - rest == all - (multiset{d} + rest)
  {
    if multiset{d} + rest <= all {
      assert forall x :: rest[x] <= (all - multiset{d})[x] by { 
        assert forall x :: (multiset{d} + rest)[x] <= all[x];
      }
    }
    if rest <= all - multiset{d} {
      assert forall x :: rest[x] <= (all - multiset{d})[x];
      assert forall x :: (multiset{d} + rest)[x] <= all[x];
    }
  }

  lemma OneMounted(w: World, workload: Path, e: Entry, mountOk: bool)
    requires Mountable(w, workload, e) && MountOne(w, workload, e, mountOk).0
    ensures var (_, w1, e1) := MountOne(w, workload, e, mountOk);
            && (e1.ignored <==> e.dir in IGNORED) && e1.dir == e.dir
            && w1.mounted == w.mounted + if e.dir in IGNORED || IsSkipped(e) then multiset{} else multiset{Dest(workload, e)}
  {
    hide Remembered, InTheWay, Place, Dest, IGNORED, ValidWorld, ValidPath, Prefixes;
  }

  lemma Regroup(before: multiset<Path>, made: multiset<Path>, skipped: multiset<Path>,
                pending: multiset<Path>, after: multiset<Path>, skippedRest: multiset<Path>)
    requires after + skippedRest == (before + made) + pending
    ensures after + (skipped + skippedRest) == before + ((made + skipped) + pending)
  {
    assert after + (skipped + skippedRest) == (after + skippedRest) + skipped;
  }

  lemma {:induction false} AllMounted(w: World, workload: Path, es: seq<Entry>, oks: seq<bool>)
    requires Ready(w, workload, es) && |oks| == |es| && MountAll(w, workload, es, oks).0
    ensures var (_, w1, done) := MountAll(w, workload, es, oks);
            w1.mounted + SkippedDests(workload, es) == w.mounted + Pending(workload, done)
    decreases |es|
  {
    if es != [] {
      ReadyStep(w, workload, es, oks[0]);
      OneMounted(w, workload, es[0], oks[0]);
      var (_, w1, e1) := MountOne(w, workload, es[0], oks[0]);
      AllMounted(w1, workload, es[1..], oks[1..]);
      var done := MountAll(w, workload, es, oks).2;
      assert done[0] == e1 && done[1..] == MountAll(w1, workload, es[1..], oks[1..]).2;
      assert Dest(workload, e1) == Dest(workload, es[0]);
      var dest := multiset{Dest(workload, es[0])};
      var skipped := if IsSkipped(es[0]) then dest else multiset{};
      var made := if es[0].dir in IGNORED || IsSkipped(es[0]) then multiset{} else dest;
      Regroup(w.mounted, made, skipped, Pending(workload, done[1..]), MountAll(w, workload, es, oks).1.mounted, SkippedDests(workload, es[1..]));
      assert made + skipped == if e1.ignored then multiset{} else dest;
      hide MountOne, Ready, ValidWorld, Dest, IGNORED;
    }
  }

  lemma {:induction false} NoneSkippedIff(workload: Path, es: seq<Entry>)
    ensures SkippedDests(workload, es) == multiset{} <==> forall i :: 0 <= i < |es| ==> !IsSkipped(es[i])
  {
    if es != [] {
      NoneSkippedIff(workload, es[1..]);
      assert forall i :: 1 <= i < |es| ==> es[i] == es[1..][i - 1];
      var rest := SkippedDests(workload, es[1..]);
      if IsSkipped(es[0]) {
        assert Dest(workload, es[0]) in SkippedDests(workload, es);
      } else {
        assert multiset{} + rest == rest;
      }
      hide IsSkipped, Dest;
    }
  }

  /** A sum fits into one of its parts exactly when the other is empty. */
  lemma SumFits(a: multiset<Path>, b: multiset<Path>)
    ensures a + b <= a <==> b == multiset{}
  {
    if b != multiset{} {
      var x :| x in b;
      assert (a + b)[x] > a[x];
    }
  }

  lemma NothingLeft(a: multiset<Path>, b: multiset<Path>)
    ensures a - (a + b) == multiset{}
  {
  }

  /** Every mount point can be unmounted exactly when no source was missing and none of the
      mounts made is busy. */
  lemma UndoSucceedsIff(w: World, workload: Path, es: seq<Entry>, oks: seq<bool>, busy: set<Path>)
    requires Ready(w, workload, es) && w.mounted == multiset{} && |oks| == |es| && MountAll(w, workload, es, oks).0
    ensures var (_, w1, done) := MountAll(w, workload, es, oks);
            Undo(w1, workload, done, busy).0
            <==> (forall i :: 0 <= i < |es| ==> !IsSkipped(es[i])) && (forall d :: d in busy ==> d !in w1.mounted)
  {
    var (_, w1, done) := MountAll(w, workload, es, oks);
    AllMounted(w, workload, es, oks);
    UnmountIff(w1, workload, done, busy);
    NoneSkippedIff(workload, es);
    var p, k := Pending(workload, done), SkippedDests(workload, es);
    assert w1.mounted + k == p by { assert multiset{} + p == p; }
    SumFits(w1.mounted, k);
    if k == multiset{} { assert p == w1.mounted; }
    hide MountAll, UnmountAll, Ready, Pending, SkippedDests, IsSkipped, RemoveAll;
  }

  /** Mounting and unmounting puts the directories back as they were. Of the files made as
      mount points, those in directories that were there before stay behind. */
  lemma UndoRestores(w: World, workload: Path, es: seq<Entry>, oks: seq<bool>, busy: set<Path>)
    requires Ready(w, workload, es) && w.mounted == multiset{} && |oks| == |es| && MountAll(w, workload, es, oks).0
    requires Undo(MountAll(w, workload, es, oks).1, workload, MountAll(w, workload, es, oks).2, busy).0
    ensures var (_, w1, done) := MountAll(w, workload, es, oks);
            var w2 := Undo(w1, workload, done, busy).1;
            && w2.dirs == w.dirs && w2.mounted == multiset{}
            && forall f :: f != [] ==>
                 (f in w2.files <==> f in w.files || (FileDest(workload, es, f) && Parent(f) in w.dirs))
  {
    var (_, w1, done) := MountAll(w, workload, es, oks);
    AllMounted(w, workload, es, oks);
    UnmountIff(w1, workload, done, busy);
    var mid := UnmountAll(w1, workload, done, busy).1;
    var w2 := RemoveAll(mid, done);
    RemoveAllIs(mid, done, []);
    assert w2.mounted == multiset{} by {
      assert w1.mounted + SkippedDests(workload, es) == Pending(workload, done);
      NothingLeft(w1.mounted, SkippedDests(workload, es));
    }
    hide MountAll, UnmountAll, Ready, Pending, SkippedDests, RemoveAll, FileDest, SparedByAll;
    forall p ensures p in w2.dirs <==> p in w.dirs {
      RemoveAllIs(mid, done, p);
      DirsUndone(w, workload, es, oks, p);
    }
    forall f | f != [] ensures f in w2.files <==> f in w.files || (FileDest(workload, es, f) && Parent(f) in w.dirs) {
      RemoveAllIs(mid, done, f);
      FilesUndone(w, workload, es, oks, f);
    }
  }

  /** If unmounting stops half-way, nothing has been deleted. */
  lemma UndoStops(w: World, workload: Path, es: seq<Entry>, busy: set<Path>)
    requires !Undo(w, workload, es, busy).0
    ensures Undo(w, workload, es, busy).1.dirs == w.dirs && Undo(w, workload, es, busy).1.files == w.files
  {
    UnmountIff(w, workload, es, busy);
    hide UnmountAll;
  }

  /** So the whole tree is put back exactly when each file that was needed as a mount point
      was there already or had no directory to be in. */
  lemma FilesRestoredIff(w: World, workload: Path, es: seq<Entry>, oks: seq<bool>, busy: set<Path>)
    requires Ready(w, workload, es) && w.mounted == multiset{} && |oks| == |es| && MountAll(w, workload, es, oks).0
    requires Undo(MountAll(w, workload, es, oks).1, workload, MountAll(w, workload, es, oks).2, busy).0
    ensures var (_, w1, done) := MountAll(w, workload, es, oks);
            Undo(w1, workload, done, busy).1.files == w.files
            <==> forall f :: f != [] && FileDest(workload, es, f) ==> f in w.files || Parent(f) !in w.dirs
  {
    var (_, w1, done) := MountAll(w, workload, es, oks);
    var w2 := Undo(w1, workload, done, busy).1;
    UndoRestores(w, workload, es, oks, busy);
    NoRootFile(w, workload, es, oks, busy);
    hide MountAll, Undo, Ready, FileDest;
    if forall f :: f != [] && FileDest(workload, es, f) ==> f in w.files || Parent(f) !in w.dirs {
      assert forall f :: f in w2.files <==> f in w.files;
    }
  }

  const FILE_ENTRY := Entry(["f"], true, Regular, false, None)

  /** One file mounted in the container's root directory: its mount point is left behind. */
  lemma FileLeftBehind()
    ensures var (w, es) := (EXAMPLE_WORLD, [FILE_ENTRY]);
            var (ok, w1, done) := MountAll(w, ["w"], es, [true]);
            && Ready(w, ["w"], es) && ok && w1.mounted == multiset{["w", "f"]}
            && Undo(w1, ["w"], done, {}) == (true, w.(files := w.files + {["w", "f"]}))
  {
    ExampleReady();
    var w1 := World(EXAMPLE_WORLD.dirs, {["w", "f"]}, multiset{["w", "f"]});
    FileMounted();
    AllOfOne(EXAMPLE_WORLD, ["w"], FILE_ENTRY, true);
    FileUnmounted(w1);
  }

  lemma FileMounted()
    ensures MountOne(EXAMPLE_WORLD, ["w"], FILE_ENTRY, true)
            == (true, World(EXAMPLE_WORLD.dirs, {["w", "f"]}, multiset{["w", "f"]}), FILE_ENTRY)
  {
    var (w, e) := (EXAMPLE_WORLD, FILE_ENTRY);
    NotIgnored();
    assert Dest(["w"], e) == ["w", "f"] && Place(["w"], e) == ["w"];
    PrefixesOfOne("w");
    assert w.dirs + Prefixes(["w"]) == w.dirs;
    assert Remembered(w.dirs, ["w"]) == None && !InTheWay(w.files, ["w"]);
    hide Prefixes, IGNORED, Dest, Place, Render, Remembered, InTheWay;
    assert |["w", "f"]| == 2 && ["w", "f"] !in w.dirs;
    assert w.files + {["w", "f"]} == {["w", "f"]} && w.mounted + multiset{["w", "f"]} == multiset{["w", "f"]};
    assert PerformMount(w, ["w", "f"], Regular, true)
        == (true, World(w.dirs, {["w", "f"]}, multiset{["w", "f"]}));
  }

  lemma PrefixesOfOne(c: string)
    ensures Prefixes([c]) == {[], [c]}
  {
    forall p ensures p in Prefixes([c]) <==> p == [] || p == [c] { PrefixesAre([c], p); }
  }

  lemma AllOfOne(w: World, workload: Path, e: Entry, mountOk: bool)
    requires [] in w.dirs && workload != []
    requires MountOne(w, workload, e, mountOk).0 && [] in MountOne(w, workload, e, mountOk).1.dirs
    ensures MountAll(w, workload, [e], [mountOk])
            == (true, MountOne(w, workload, e, mountOk).1, [MountOne(w, workload, e, mountOk).2])
  {
    hide MountOne;
    var (_, w1, e1) := MountOne(w, workload, e, mountOk);
    assert [e][1..] == [] && [mountOk][1..] == [] && [e1] + [] == [e1];
    assert MountAll(w1, workload, [], []) == (true, w1, []);
  }

  lemma FileUnmounted(w: World)
    requires w.mounted == multiset{["w", "f"]}
    ensures Undo(w, ["w"], [FILE_ENTRY], {}) == (true, w.(mounted := multiset{}))
  {
    var es := [FILE_ENTRY];
    assert es[1..] == [] && Dest(["w"], es[0]) == ["w", "f"];
    hide Dest;
    assert w.mounted - multiset{["w", "f"]} == multiset{};
    var w1 := w.(mounted := multiset{});
    assert UnmountAll(w, ["w"], es, {}) == UnmountAll(w1, ["w"], [], {}) == (true, w1);
    assert RemoveAll(w1, es) == RemoveAll(w1, []) == w1;
  }

  lemma NoRootFile(w: World, workload: Path, es: seq<Entry>, oks: seq<bool>, busy: set<Path>)
    requires Ready(w, workload, es) && |oks| == |es| && MountAll(w, workload, es, oks).0
    ensures var (_, w1, done) := MountAll(w, workload, es, oks);
            [] !in w.files && [] !in Undo(w1, workload, done, busy).1.files
  {
    var (_, w1, done) := MountAll(w, workload, es, oks);
    AllKeeps(w, workload, es, oks);
    UnmountIff(w1, workload, done, busy);
    RemoveAllIs(UnmountAll(w1, workload, done, busy).1, done, []);
    hide MountAll, UnmountAll, RemoveAll;
  }

  lemma {:induction false} AllKeeps(w: World, workload: Path, es: seq<Entry>, oks: seq<bool>)
    requires Ready(w, workload, es) && |oks| == |es| && MountAll(w, workload, es, oks).0
    ensures ValidWorld(MountAll(w, workload, es, oks).1)
    decreases |es|
  {
    if es != [] {
      ReadyStep(w, workload, es, oks[0]);
      AllKeeps(MountOne(w, workload, es[0], oks[0]).1, workload, es[1..], oks[1..]);
      hide MountOne, ValidWorld;
    }
  }

  const EXAMPLE_WORLD := World({[], ["w"]}, {}, multiset{})
  const EXAMPLE_ENTRIES := [Entry(["a"], true, Directory, false, None), Entry(["b"], true, Missing, false, None)]

  lemma ExampleReady()
    ensures Ready(EXAMPLE_WORLD, ["w"], EXAMPLE_ENTRIES)
  {
    assert "w" != "" && "a" != "" && "b" != "" && Parent(["w"]) == [];
  }

  lemma ExampleFirst()
    ensures var (ok, w1, _) := MountOne(EXAMPLE_WORLD, ["w"], EXAMPLE_ENTRIES[0], true); ok && ["w", "a"] in w1.dirs
  {
    NotIgnored();
    PrefixesAre(["w", "a"], ["w", "a"]);
    assert Dest(["w"], EXAMPLE_ENTRIES[0]) == ["w", "a"];
    hide Remembered, Prefixes, IGNORED;
  }

  /** A source that is missing: the mount is skipped, yet unmounting stops at it, and the
      directory made for the mount before it stays. */
  lemma MissingSourceLeaves()
    ensures var (w, es, oks) := (EXAMPLE_WORLD, EXAMPLE_ENTRIES, [true, true]);
            Ready(w, ["w"], es) && MountAll(w, ["w"], es, oks).0
            && var (_, w1, done) := MountAll(w, ["w"], es, oks);
               var (ok, w2) := Undo(w1, ["w"], done, {});
               !ok && ["w", "a"] in w2.dirs && ["w", "a"] !in w.dirs
  {
    var (w, es, oks) := (EXAMPLE_WORLD, EXAMPLE_ENTRIES, [true, true]);
    ExampleReady();
    ExampleFirst();
    NotIgnored();
    var (ok1, w1, d0) := MountOne(w, ["w"], es[0], true);
    ReadyFirst(w, ["w"], es);
    OneKeeps(w, ["w"], es[0], true);
    assert MountOne(w1, ["w"], es[1], true) == (true, w1, es[1]);
    hide MountOne, IGNORED, Ready, Mountable, Closed;
    assert es[1..] == [es[1]] && oks[1..] == [true];
    AllOfOne(w1, ["w"], es[1], true);
    assert MountAll(w, ["w"], es, oks) == (true, w1, [d0] + [es[1]]);
    UndoSucceedsIff(w, ["w"], es, oks, {});
    assert IsSkipped(es[1]);
    UnmountIff(w1, ["w"], [d0] + [es[1]], {});
  }

  lemma NotIgnored()
    ensures ["a"] !in IGNORED && ["b"] !in IGNORED && ["f"] !in IGNORED
  {
    assert forall i :: 0 <= i < |IGNORED| ==> |IGNORED[i]| >= 1 && |IGNORED[i][0]| >= 3;
    assert |["a"][0]| == 1 && |["b"][0]| == 1 && |["f"][0]| == 1;
  }

  /** The mounts that are left alone, by their texts. */
  lemma IgnoredIff(p: Path)
    requires ValidPath(p)
    ensures p in IGNORED
       <==> Render(p) in ["/proc", "/dev", "/dev/pts", "/dev/shm", "/dev/mqueue", "/sys", "/sys/fs/cgroup"]
  {
    var texts := ["/proc", "/dev", "/dev/pts", "/dev/shm", "/dev/mqueue", "/sys", "/sys/fs/cgroup"];
    IgnoredTexts();
    IgnoredValid();
    forall i | 0 <= i < 7 && Render(p) == texts[i] ensures p == IGNORED[i] {
      RenderInjective(p, IGNORED[i]);
    }
    hide Render, IGNORED;
  }

  lemma IgnoredValid()
    ensures |IGNORED| == 7 && forall i :: 0 <= i < 7 ==> ValidPath(IGNORED[i])
  {
  }

  lemma IgnoredTexts()
    ensures Render(IGNORED[0]) == "/proc" && Render(IGNORED[1]) == "/dev" && Render(IGNORED[2]) == "/dev/pts"
    ensures Render(IGNORED[3]) == "/dev/shm" && Render(IGNORED[4]) == "/dev/mqueue" && Render(IGNORED[5]) == "/sys"
    ensures Render(IGNORED[6]) == "/sys/fs/cgroup"
  {
    RenderOne("proc");
    RenderOne("dev");
    RenderOne("sys");
    RenderTwo("dev", "pts");
    RenderTwo("dev", "shm");
    RenderTwo("dev", "mqueue");
    RenderTwo("sys", "fs");
    assert Parent(["sys", "fs", "cgroup"]) == ["sys", "fs"];
    assert Render(["sys", "fs", "cgroup"]) == Render(["sys", "fs"]) + "/" + "cgroup";
    hide Render;
  }

  lemma RenderOne(a: string)
    ensures Render([a]) == "/" + a
  {
    assert Parent([a]) == [] && Render([]) == "";
  }

  lemma RenderTwo(a: string, b: string)
    ensures Render([a, b]) == "/" + a + "/" + b
  {
    RenderOne(a);
    assert Parent([a, b]) == [a];
  }

  // ------------------------------------------------------------------
  // What mounting does, told by the list alone.

  predicate Active(e: Entry) {
    e.dir !in IGNORED && !(e.absolute && e.kind == Missing)
  }

  /** The directories that some mounts need, the files made for them, and where they go. */
  function DirsOf(workload: Path, es: seq<Entry>): set<Path>
    requires workload != []
  {
    if es == [] then {}
    else (if Active(es[0]) then Prefixes(Place(workload, es[0])) else {}) + DirsOf(workload, es[1..])
  }

  function FilesOf(workload: Path, es: seq<Entry>): set<Path> {
    if es == [] then {}
    else (if Active(es[0]) && es[0].kind == Regular then {Dest(workload, es[0])} else {}) + FilesOf(workload, es[1..])
  }

  function DestsOf(workload: Path, es: seq<Entry>): multiset<Path> {
    if es == [] then multiset{}
    else (if Active(es[0]) then multiset{Dest(workload, es[0])} else multiset{}) + DestsOf(workload, es[1..])
  }

  /** A mount can be made among these directories and files: no file is in the way of its
      directory, a regular source has a path of its own that is not a directory yet, and
      any other source that needs a file finds something there. */
  predicate EntryFits(dirs: set<Path>, files: set<Path>, workload: Path, e: Entry, mountOk: bool)
    requires workload != []
  {
    var (dest, place) := (Dest(workload, e), Place(workload, e));
    Active(e) ==>
      && mountOk && e.kind != Missing && !InTheWay(files, place)
      && (e.kind == Regular ==> e.absolute && dest !in dirs)
      && (e.kind == Special && e.absolute ==> dest in dirs || dest in files)
  }

  lemma OneIs(w: World, workload: Path, e: Entry, mountOk: bool)
    requires Mountable(w, workload, e)
    ensures var (ok, w1, _) := MountOne(w, workload, e, mountOk);
            && (ok <==> EntryFits(w.dirs, w.files, workload, e, mountOk))
            && (ok ==> w1 == World(w.dirs + DirsOf(workload, [e]), w.files + FilesOf(workload, [e]),
                                   w.mounted + DestsOf(workload, [e])))
  {
    OnlyOne(workload, e);
    if Active(e) {
      var (dest, q) := (Dest(workload, e), Place(workload, e));
      PrefixesAre(q, dest);
      hide Prefixes, IGNORED, Remembered, ValidWorld, ValidPath, InTheWay, DirsOf, FilesOf, DestsOf;
    } else {
      assert w.dirs + {} == w.dirs && w.files + {} == w.files && w.mounted + multiset{} == w.mounted;
      hide IGNORED, DirsOf, FilesOf, DestsOf;
    }
  }

  lemma OnlyOne(workload: Path, e: Entry)
    requires workload != []
    ensures DirsOf(workload, [e]) == if Active(e) then Prefixes(Place(workload, e)) else {}
    ensures FilesOf(workload, [e]) == if Active(e) && e.kind == Regular then {Dest(workload, e)} else {}
    ensures DestsOf(workload, [e]) == if Active(e) then multiset{Dest(workload, e)} else multiset{}
  {
    assert [e][1..] == [];
  }

  /** A list that was mounted has put up exactly its directories, its files and its mounts. */
  lemma {:induction false} MountAllIs(w: World, workload: Path, es: seq<Entry>, oks: seq<bool>)
    requires Ready(w, workload, es) && |oks| == |es| && MountAll(w, workload, es, oks).0
    ensures MountAll(w, workload, es, oks).1
         == World(w.dirs + DirsOf(workload, es), w.files + FilesOf(workload, es), w.mounted + DestsOf(workload, es))
    decreases |es|
  {
    if es == [] {
      assert w.dirs + {} == w.dirs && w.files + {} == w.files && w.mounted + multiset{} == w.mounted;
    } else {
      ReadyStep(w, workload, es, oks[0]);
      OneIs(w, workload, es[0], oks[0]);
      MountAllIs(MountOne(w, workload, es[0], oks[0]).1, workload, es[1..], oks[1..]);
      FirstOf(w, workload, es);
      hide MountOne, Ready, Mountable, EntryFits, DirsOf, FilesOf, DestsOf;
    }
  }

  /** The first mount and the others. */
  lemma FirstOf(w: World, workload: Path, es: seq<Entry>)
    requires workload != [] && es != []
    ensures w.dirs + DirsOf(workload, es) == w.dirs + DirsOf(workload, [es[0]]) + DirsOf(workload, es[1..])
    ensures w.files + FilesOf(workload, es) == w.files + FilesOf(workload, [es[0]]) + FilesOf(workload, es[1..])
    ensures w.mounted + DestsOf(workload, es) == w.mounted + DestsOf(workload, [es[0]]) + DestsOf(workload, es[1..])
  {
    OnlyOne(workload, es[0]);
    hide Active, Prefixes, Place, Dest;
  }

  /** Entry `i` fits among what is there and what the entries before it put up. */
  predicate FitsAt(w: World, workload: Path, es: seq<Entry>, oks: seq<bool>, i: nat)
    requires workload != [] && i < |es| == |oks|
  {
    EntryFits(w.dirs + DirsOf(workload, es[..i]), w.files + FilesOf(workload, es[..i]), workload, es[i], oks[i])
  }

  /** Mounting a list succeeds exactly when every entry fits. */
  lemma {:induction false} MountSucceedsIff(w: World, workload: Path, es: seq<Entry>, oks: seq<bool>)
    requires Ready(w, workload, es) && |oks| == |es|
    ensures MountAll(w, workload, es, oks).0 <==> forall i :: 0 <= i < |es| ==> FitsAt(w, workload, es, oks, i)
    decreases |es|
  {
    if es != [] {
      ReadyFirst(w, workload, es);
      OneIs(w, workload, es[0], oks[0]);
      FitsFirst(w, workload, es, oks);
      var (ok, w1, _) := MountOne(w, workload, es[0], oks[0]);
      if ok {
        ReadyStep(w, workload, es, oks[0]);
        MountSucceedsIff(w1, workload, es[1..], oks[1..]);
        forall i | 0 <= i < |es[1..]|
          ensures FitsAt(w1, workload, es[1..], oks[1..], i) <==> FitsAt(w, workload, es, oks, i + 1)
        {
          FitsLater(w, w1, workload, es, oks, i);
        }
        Shifted(w, w1, workload, es, oks);
      }
      hide MountOne, Ready, Mountable, EntryFits, DirsOf, FilesOf, DestsOf, FitsAt;
    }
  }

  lemma Shifted(w: World, w1: World, workload: Path, es: seq<Entry>, oks: seq<bool>)
    requires workload != [] && |oks| == |es| && es != []
    requires forall i :: 0 <= i < |es[1..]| ==>
               (FitsAt(w1, workload, es[1..], oks[1..], i) <==> FitsAt(w, workload, es, oks, i + 1))
    ensures (forall i :: 0 <= i < |es| ==> FitsAt(w, workload, es, oks, i))
       <==> FitsAt(w, workload, es, oks, 0) && forall i :: 0 <= i < |es[1..]| ==> FitsAt(w1, workload, es[1..], oks[1..], i)
  {
    hide FitsAt;
    if forall i :: 0 <= i < |es[1..]| ==> FitsAt(w1, workload, es[1..], oks[1..], i) {
      forall i | 1 <= i < |es| ensures FitsAt(w, workload, es, oks, i) {
        assert FitsAt(w1, workload, es[1..], oks[1..], i - 1);
        assert FitsAt(w, workload, es, oks, (i - 1) + 1);
      }
    }
    if forall i :: 0 <= i < |es| ==> FitsAt(w, workload, es, oks, i) {
      forall i | 0 <= i < |es[1..]| ensures FitsAt(w1, workload, es[1..], oks[1..], i) {
        assert FitsAt(w, workload, es, oks, i + 1);
      }
    }
  }

  lemma FitsFirst(w: World, workload: Path, es: seq<Entry>, oks: seq<bool>)
    requires workload != [] && |oks| == |es| && es != []
    ensures FitsAt(w, workload, es, oks, 0) <==> EntryFits(w.dirs, w.files, workload, es[0], oks[0])
  {
    assert es[..0] == [] && w.dirs + {} == w.dirs && w.files + {} == w.files;
    hide EntryFits;
  }

  lemma FitsLater(w: World, w1: World, workload: Path, es: seq<Entry>, oks: seq<bool>, i: nat)
    requires workload != [] && |oks| == |es| && i + 1 < |es|
    requires w1.dirs == w.dirs + DirsOf(workload, [es[0]]) && w1.files == w.files + FilesOf(workload, [es[0]])
    ensures FitsAt(w1, workload, es[1..], oks[1..], i) <==> FitsAt(w, workload, es, oks, i + 1)
  {
    var front := es[..i + 1];
    assert front[0] == es[0] && front[1..] == es[1..][..i];
    FirstOf(w, workload, front);
    hide EntryFits, DirsOf, FilesOf, DestsOf;
  }

  // ------------------------------------------------------------------
  // The code.

  /** The tree, and the container's list of mounts. */
  class Tree {
    var dirs: set<Path>
    var files: set<Path>
    var mounted: multiset<Path>
    var mounts: seq<Entry>

    constructor (w: World, es: seq<Entry>)
      ensures View() == w && mounts == es
    {
      dirs, files, mounted, mounts := w.dirs, w.files, w.mounted, es;
    }

    ghost function View(): World
      reads this
    {
      World(dirs, files, mounted)
    }

    /** cc_oci_mount_ignore. */
    method Ignore(i: nat) returns (ignore: bool)
      requires i < |mounts|
      modifies this`mounts
      ensures ignore <==> old(mounts[i]).dir in IGNORED
      ensures mounts == if ignore then old(mounts)[i := old(mounts[i]).(ignored := true)] else old(mounts)
    {
      var k := 0;
      while k < |IGNORED|
        invariant 0 <= k <= |IGNORED| && mounts == old(mounts)
        invariant mounts[i].dir !in IGNORED[..k]
      {
        if IGNORED[k] == mounts[i].dir {
          mounts := mounts[i := mounts[i].(ignored := true)];
          return true;
        }
        k := k + 1;
      }
      assert IGNORED[..k] == IGNORED;
      return false;
    }

    /** The mkdir and mount part of the loop of cc_oci_handle_mounts. */
    method Perform(q: Path, dest: Path, kind: Kind, mountOk: bool) returns (ok: bool)
      modifies this`dirs, this`files, this`mounted
      ensures InTheWay(old(files), q) ==> !ok && View() == old(View())
      ensures !InTheWay(old(files), q) ==>
                (ok, View()) == PerformMount(old(View()).(dirs := old(dirs) + Prefixes(q)), dest, kind, mountOk)
    {
      if InTheWay(files, q) { return false; }
      dirs := dirs + Prefixes(q);
      if kind == Missing { return false; }
      if kind == Regular {
        if dest in dirs { return false; }
        files := files + {dest};
      }
      if !mountOk || (dest !in dirs && dest !in files) { return false; }
      mounted := mounted + multiset{dest};
      return true;
    }

    /** One turn of the loop of cc_oci_handle_mounts. */
    method MountEntry(workload: Path, i: nat, mountOk: bool) returns (ok: bool)
      requires i < |mounts| && Mountable(View(), workload, mounts[i])
      modifies this
      ensures |mounts| == |old(mounts)| && mounts == old(mounts)[i := mounts[i]]
      ensures (ok, View(), mounts[i]) == MountOne(old(View()), workload, old(mounts[i]), mountOk)
    {
      hide Render, TopMissing, Prefixes, IGNORED, InTheWay;
      var ignore := Ignore(i);
      if ignore { return true; }
      var e := mounts[i];
      if e.absolute && e.kind == Missing { return true; }
      var q := if e.absolute && e.kind != Directory then Parent(workload + e.dir) else workload + e.dir;
      assert ValidPath(workload);
      if q != [] { // the root is always there
        var created := FirstParentToCreate(dirs, q);
        if created.Some? { mounts := mounts[i := e.(created := created)]; }
      }
      ok := Perform(q, workload + e.dir, e.kind, mountOk);
    }

    /** cc_oci_handle_mounts. */
    method HandleMounts(workload: Path, oks: seq<bool>) returns (ok: bool)
      requires Ready(View(), workload, mounts) && |oks| == |mounts|
      modifies this
      ensures (ok, View(), mounts) == MountAll(old(View()), workload, old(mounts), oks)
    {
      ghost var w0, es := View(), mounts;
      RestEnds(w0, workload, es, oks);
      assert es[0..] == es && oks[0..] == oks;
      hide MountAll, MountOne, MountRest, Ready, Mountable;
      var i := 0;
      while i < |mounts|
        invariant 0 <= i <= |mounts| == |es| && mounts[i..] == es[i..]
        invariant Ready(View(), workload, es[i..]) && [] in dirs && workload != []
        invariant MountAll(w0, workload, es, oks) == MountRest(View(), workload, mounts[..i], es[i..], oks[i..])
      {
        ghost var w, before := View(), mounts;
        NextEntry(mounts, es, oks, i);
        ReadyFirst(w, workload, es[i..]);
        ok := MountEntry(workload, i, oks[i]);
        Turn(w, View(), workload, before, mounts, es, oks, i);
        if !ok { return false; }
        i := i + 1;
      }
      RestEnds(View(), workload, mounts, []);
      assert mounts[..i] == mounts && oks[i..] == [];
      return true;
    }

    /** cc_oci_handle_unmounts. */
    method HandleUnmounts(workload: Path, busy: set<Path>) returns (ok: bool)
      modifies this`dirs, this`files, this`mounted
      ensures (ok, View()) == Undo(old(View()), workload, mounts, busy)
    {
      ghost var w0 := View();
      var i := 0;
      while i < |mounts|
        invariant 0 <= i <= |mounts|
        invariant UnmountAll(w0, workload, mounts, busy) == UnmountAll(View(), workload, mounts[i..], busy)
      {
        if !mounts[i].ignored {
          var dest := workload + mounts[i].dir;
          if dest !in mounted || dest in busy { return false; }
          mounted := mounted - multiset{dest};
        }
        i := i + 1;
      }
      ghost var w1 := View();
      i := 0;
      while i < |mounts|
        invariant 0 <= i <= |mounts|
        invariant RemoveAll(w1, mounts) == RemoveAll(View(), mounts[i..])
      {
        if !mounts[i].ignored && mounts[i].created.Some? {
          dirs, files := Without(dirs, mounts[i].created.value), Without(files, mounts[i].created.value);
        }
        i := i + 1;
      }
      return true;
    }
  }

  /** One turn of the loop: what it leaves to do, or the whole result if it failed. */
  lemma Turn(w: World, w1: World, workload: Path, before: seq<Entry>, mounts: seq<Entry>, es: seq<Entry>, oks: seq<bool>, i: nat)
    requires |before| == |mounts| == |es| == |oks| && i < |es| && before[i..] == es[i..] && mounts == before[i := mounts[i]]
    requires [] in w.dirs && workload != [] && Ready(w, workload, es[i..])
    requires MountOne(w, workload, before[i], oks[i]).1 == w1 && MountOne(w, workload, before[i], oks[i]).2 == mounts[i]
    ensures mounts[i + 1..] == es[i + 1..]
    ensures var all := MountRest(w, workload, before[..i], es[i..], oks[i..]);
            if MountOne(w, workload, before[i], oks[i]).0
            then Ready(w1, workload, es[i + 1..]) && [] in w1.dirs
                 && all == MountRest(w1, workload, mounts[..i + 1], es[i + 1..], oks[i + 1..])
            else all == (false, w1, mounts)
  {
    hide MountOne, MountRest, Ready, MountAll;
    NextEntry(before, es, oks, i);
    RestStep(w, workload, before[..i], es[i..], oks[i..]);
    AfterEntry(before, mounts, es, i);
    if MountOne(w, workload, before[i], oks[i]).0 {
      ReadyStep(w, workload, es[i..], oks[i]);
      ReadyFirst(w1, workload, es[i + 1..]);
    }
  }

  lemma NextEntry(mounts: seq<Entry>, es: seq<Entry>, oks: seq<bool>, i: nat)
    requires |mounts| == |es| == |oks| && i < |es| && mounts[i..] == es[i..]
    ensures es[i..][0] == es[i] == mounts[i] && es[i..][1..] == es[i + 1..]
    ensures oks[i..][0] == oks[i] && oks[i..][1..] == oks[i + 1..]
  {
    assert mounts[i..][0] == mounts[i];
  }

  lemma AfterEntry(before: seq<Entry>, mounts: seq<Entry>, es: seq<Entry>, i: nat)
    requires |before| == |mounts| == |es| && i < |es| && before[i..] == es[i..] && mounts == before[i := mounts[i]]
    ensures mounts[..i + 1] == before[..i] + [mounts[i]] && mounts[i + 1..] == es[i + 1..]
    ensures mounts == before[..i] + [mounts[i]] + es[i..][1..]
  {
    assert before[i + 1..] == before[i..][1..] && es[i + 1..] == es[i..][1..];
  }

  /** The list with its front done. */
  ghost function MountRest(w: World, workload: Path, front: seq<Entry>, es: seq<Entry>, oks: seq<bool>): (bool, World, seq<Entry>)
    requires [] in w.dirs && workload != [] && |oks| == |es|
  {
    var (ok, w1, rest) := MountAll(w, workload, es, oks);
    (ok, w1, front + rest)
  }

  lemma RestEnds(w: World, workload: Path, es: seq<Entry>, oks: seq<bool>)
    requires [] in w.dirs && workload != []
    ensures |oks| == |es| ==> MountRest(w, workload, [], es, oks) == MountAll(w, workload, es, oks)
    ensures MountRest(w, workload, es, [], []) == (true, w, es)
  {
    if |oks| == |es| {
      var done := MountAll(w, workload, es, oks).2;
      assert [] + done == done;
    }
    assert es + [] == es;
  }

  lemma ReadyFirst(w: World, workload: Path, es: seq<Entry>)
    requires Ready(w, workload, es)
    ensures [] in w.dirs && workload != []
    ensures es != [] ==> Mountable(w, workload, es[0])
  {
  }

  lemma RestStep(w: World, workload: Path, front: seq<Entry>, es: seq<Entry>, oks: seq<bool>)
    requires [] in w.dirs && workload != [] && |oks| == |es| && es != []
    ensures var (ok, w1, e1) := MountOne(w, workload, es[0], oks[0]);
            MountRest(w, workload, front, es, oks)
            == if ok then MountRest(w1, workload, front + [e1], es[1..], oks[1..]) else (false, w1, front + [e1] + es[1..])
  {
    var (ok, w1, e1) := MountOne(w, workload, es[0], oks[0]);
    hide MountOne;
    if ok {
      var rest := MountAll(w1, workload, es[1..], oks[1..]).2;
      assert front + ([e1] + rest) == front + [e1] + rest;
    } else {
      assert front + ([e1] + es[1..]) == front + [e1] + es[1..];
    }
  }
}
