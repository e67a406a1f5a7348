/** Moving a descriptor clear of stdin, stdout and stderr (dup_over_stdio, src/util.c) on
    a process's descriptor table. */
module FdTable {

  /** Slot `r` is free and every lower one is taken. */
  ghost predicate LowestFree(files: map<nat, int>, r: nat) {
    r !in files && forall k :: 0 <= k < r ==> k in files
  }

  /** A finite table has at least `r` entries if its first `r` slots are taken. */
  lemma {:induction false} TakenCount(keys: set<nat>, r: nat)
    requires forall k :: 0 <= k < r ==> k in keys
    ensures r <= |keys|
  {
    if r > 0 {
      TakenCount(keys - {r - 1}, r - 1);
    }
  }

  /** `files` maps open slots to open files; `dupFailures` counts the dup calls that came
      back with an error. */
  class Table {
    var files: map<nat, int>
    var dupFailures: nat

    /** dup(2): the lowest free slot, or a failure that changes nothing. */
    method Dup(fd: nat) returns (r: int)
      requires fd in files
      modifies this
      ensures r == -1 || 0 <= r
      ensures r == -1 ==> files == old(files) && dupFailures == old(dupFailures) + 1
      ensures r != -1 ==>
                && LowestFree(old(files), r) && files == old(files)[r := old(files)[fd]]
                && dupFailures == old(dupFailures)
    {
      var fails: bool := *;
      if fails {
        dupFailures := dupFailures + 1;
        return -1;
      }
      var slot: nat := 0;
      while slot in files
        invariant forall k :: 0 <= k < slot ==> k in files
        invariant files == old(files) && dupFailures == old(dupFailures)
        decreases |files| - slot
      {
        TakenCount(files.Keys, slot + 1);
        slot := slot + 1;
      }
      files := files[slot := files[fd]];
      r := slot;
    }

    method Close(fd: nat)
      modifies this`files
      ensures files == old(files) - {fd}
    {
      files := files - {fd};
    }

    /** dup_over_stdio.  It succeeds exactly when the descriptor is open and no dup
        fails, so three duplications are always enough; the file then sits in the lowest
        free slot above 2, its old slot is free and every other slot is as before.  On
        failure nothing has changed. */
    method DupOverStdio(fd: int) returns (ok: bool, moved: int)
      modifies this
      ensures ok <==> fd >= 0 && fd in old(files) && dupFailures == old(dupFailures)
      ensures !ok ==> files == old(files) && moved == fd
      ensures ok && fd > 2 ==> files == old(files) && moved == fd
      ensures ok && fd <= 2 ==>
                && 3 <= moved && moved !in old(files)
                && (forall k :: 3 <= k < moved ==> k in old(files))
                && files == old(files)[moved := old(files)[fd]] - {fd}
    {
      moved := fd;
      if fd < 0 || fd !in files {
        return false, fd;
      }
      if fd > 2 {
        return true, fd;
      }
      var tmp, dupFd := Duplicate(fd);
      ok := false;
      if dupFd >= 3 {
        moved := dupFd;
        dupFd := -1;
        ok := true;
      }
      CloseAll(tmp, ok, moved);
    }

    /** The duplications: `tmp` holds the descriptor and the copies that are still below
        3, `dupFd` the last result. */
    method Duplicate(fd: nat) returns (tmp: seq<int>, dupFd: int)
      requires fd <= 2 && fd in files
      modifies this
      ensures |tmp| == 3 && forall i :: 0 <= i < 3 ==> -1 <= tmp[i]
      ensures fd in Copies(tmp) && (Copies(tmp) - {fd}) !! old(files).Keys
      ensures dupFd == -1 || dupFd >= 3
      ensures dupFd == -1 <==> dupFailures != old(dupFailures)
      ensures dupFd >= 3 ==>
                dupFd !in old(files) && dupFd !in Copies(tmp) && forall k :: 3 <= k < dupFd ==> k in old(files)
      ensures files == Plus(old(files), Copies(tmp) - {fd} + (if dupFd >= 3 then {dupFd} else {}), fd)
    {
      ghost var start := files;
      tmp, dupFd := [-1, -1, -1], fd;
      var i := 0;
      CopiedStart(start, fd);
      while i < 3 && dupFd < 3
        invariant 0 <= i <= 3 && |tmp| == 3
        invariant Copied(start, files, tmp, i, dupFd, fd)
        invariant dupFailures == old(dupFailures)
      {
        CopiedStep(start, files, tmp, i, dupFd, fd);
        tmp := tmp[i := dupFd];
        dupFd := Dup(tmp[i]);
        i := i + 1;
        if dupFd < 0 {
          return;
        }
      }
      CopiedDone(start, files, tmp, i, dupFd, fd);
    }

    /** The last loop: close the temporaries, but on failure not the original. */
    method CloseAll(tmp: seq<int>, ok: bool, fd: int)
      requires |tmp| == 3 && forall i :: 0 <= i < 3 ==> -1 <= tmp[i]
      modifies this`files
      ensures files == old(files) - (if ok then Copies(tmp) else Copies(tmp) - {fd})
    {
      var i := 0;
      while i < 3
        invariant 0 <= i <= 3
        invariant files == old(files) - set k | k in tmp[..i] && k > -1 && (ok || k != fd)
      {
        assert tmp[..i + 1] == tmp[..i] + [tmp[i]];
        if !ok && tmp[i] == fd {
          i := i + 1;
          continue;
        }
        if tmp[i] > -1 {
          Close(tmp[i]);
        }
        i := i + 1;
      }
      assert tmp[..3] == tmp;
    }
  }

  /** The descriptors recorded in the temporary array. */
  ghost function Copies(tmp: seq<int>): set<int> {
    set k | k in tmp && k > -1
  }

  lemma CopiesStep(tmp: seq<int>, i: nat, fd: int)
    requires |tmp| == 3 && i < 3 && tmp[i] == -1 && fd >= 0
    ensures Copies(tmp[i := fd]) == Copies(tmp) + {fd}
  {
    var u := tmp[i := fd];
    assert forall j :: 0 <= j < 3 && j != i ==> u[j] == tmp[j];
    assert u[i] == fd;
  }

  /** The table with copies of slot `fd` in the slots of `added`. */
  ghost function Plus(files: map<nat, int>, added: set<int>, fd: nat): map<nat, int>
    requires fd in files && forall k :: k in added ==> k >= 0
  {
    files + map k: nat | k in added :: files[fd]
  }

  /** Different numbers, all of them standard descriptors. */
  ghost predicate Below3(ds: seq<int>) {
    && (forall j :: 0 <= j < |ds| ==> 0 <= ds[j] <= 2)
    && forall j, k :: 0 <= j < k < |ds| ==> ds[j] != ds[k]
  }

  /** One more copy, in the lowest free slot. */
  lemma DupStep(start: map<nat, int>, copies: set<int>, fd: nat, d: nat)
    requires fd in start && fd in copies && forall k :: k in copies ==> 0 <= k <= 2
    requires LowestFree(Plus(start, copies - {fd}, fd), d)
    ensures d !in start && d !in copies && d != fd
    ensures Plus(start, copies - {fd}, fd)[d := start[fd]] == Plus(start, copies + {d} - {fd}, fd)
    ensures forall k :: 3 <= k < d ==> k in start
  {
    forall k | 3 <= k < d
      ensures k in start
    {
      assert k in Plus(start, copies - {fd}, fd);
    }
  }

  /** After `i` duplications of slot `fd`: the earlier results are in `tmp`, the last is
      `d`, and the table has just those copies more. */
  ghost predicate Copied(start: map<nat, int>, files: map<nat, int>, tmp: seq<int>, i: nat, d: int, fd: nat)
    requires fd in start && |tmp| == 3 && i <= 3
  {
    && 0 <= d && Below3(tmp[..i]) && d !in tmp
    && (forall j :: i <= j < 3 ==> tmp[j] == -1)
    && (if i == 0 then d == fd else tmp[0] == fd && d !in start && forall k :: 3 <= k < d ==> k in start)
    && (Copies(tmp) - {fd}) !! start.Keys
    && files == Plus(start, Copies(tmp) + {d} - {fd}, fd)
  }

  lemma CopiedStart(start: map<nat, int>, fd: nat)
    requires fd in start
    ensures Copied(start, start, [-1, -1, -1], 0, fd, fd)
  {
    assert Copies([-1, -1, -1]) + {fd} - {fd} == {};
  }

  /** When the loop ends without a failure, the last copy is above the standard ones. */
  lemma CopiedDone(start: map<nat, int>, files: map<nat, int>, tmp: seq<int>, i: nat, d: int, fd: nat)
    requires fd in start && fd <= 2 && |tmp| == 3 && i <= 3 && Copied(start, files, tmp, i, d, fd)
    requires i == 3 || d >= 3
    ensures d >= 3 && d !in start && d !in Copies(tmp) && forall k :: 3 <= k < d ==> k in start
    ensures fd in Copies(tmp) && forall j :: 0 <= j < 3 ==> -1 <= tmp[j]
    ensures files == Plus(start, Copies(tmp) - {fd} + {d}, fd)
  {
    if i == 3 {
      assert tmp[..3] == tmp;
      AllSlots(tmp, d);
    }
    assert tmp[0] in tmp && tmp[..i][0] == tmp[0];
    assert Copies(tmp) + {d} - {fd} == Copies(tmp) - {fd} + {d};
    forall j | 0 <= j < 3
      ensures -1 <= tmp[j]
    {
      if j < i { assert tmp[..i][j] == tmp[j]; }
    }
  }

  /** What the next dup leads to: a failure leaves the table with the copies so far, a
      success the same shape with one more. */
  lemma CopiedStep(start: map<nat, int>, files: map<nat, int>, tmp: seq<int>, i: nat, d: int, fd: nat)
    requires fd in start && fd <= 2 && |tmp| == 3 && i < 3 && d < 3 && Copied(start, files, tmp, i, d, fd)
    ensures var u := tmp[i := d];
            && d in files && files[d] == start[fd]
            && fd in Copies(u) && (Copies(u) - {fd}) !! start.Keys
            && (forall j :: 0 <= j < 3 ==> -1 <= u[j])
            && files == Plus(start, Copies(u) - {fd}, fd)
            && forall e: nat :: LowestFree(files, e) ==> Copied(start, files[e := start[fd]], u, i + 1, e, fd)
  {
    var u := tmp[i := d];
    CopiesStep(tmp, i, d);
    assert u[..i + 1] == tmp[..i] + [d];
    CopiesBelow3(u, i + 1);
    assert u[0] == fd && u[0] in u;
    assert Copies(u) - {fd} == Copies(tmp) + {d} - {fd};
    forall j | 0 <= j < i
      ensures 0 <= tmp[j]
    {
      assert tmp[..i][j] == tmp[j];
    }
    forall e: nat | LowestFree(files, e)
      ensures Copied(start, files[e := start[fd]], u, i + 1, e, fd)
    {
      DupStep(start, Copies(u), fd, e);
      assert e !in u by { assert e !in Copies(u); }
    }
  }

  lemma CopiesBelow3(u: seq<int>, i: nat)
    requires |u| == 3 && i <= 3 && Below3(u[..i]) && forall j :: i <= j < 3 ==> u[j] == -1
    ensures forall k :: k in Copies(u) ==> 0 <= k <= 2
  {
    forall k | k in Copies(u)
      ensures 0 <= k <= 2
    {
      var j :| 0 <= j < 3 && u[j] == k;
      assert j < i && u[..i][j] == k;
    }
  }

  /** Four different numbers do not fit below 3. */
  lemma AllSlots(tmp: seq<int>, d: int)
    requires |tmp| == 3 && Below3(tmp) && 0 <= d && d !in tmp
    ensures d >= 3
  {
    assert tmp[0] != tmp[1] && tmp[0] != tmp[2] && tmp[1] != tmp[2];
    assert d != tmp[0] && d != tmp[1] && d != tmp[2];
  }
}
