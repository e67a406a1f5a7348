/** Semantic Versioning comparison (src/semver.c), against items 10 and 11 of Semantic
    Versioning 2.0.0. */
module Semver {
  import opened CStrings
  import opened Decimal
  import opened Option

  // ------------------------------------------------------------------
  // The library routines the comparison rests on.

  /** Position of the first `c`, or the length. */
  function Find(s: string, c: char): (i: nat)
    ensures i <= |s| && c !in s[..i] && (i < |s| ==> s[i] == c)
    ensures i == |s| <==> c !in s
  {
    if s == "" then 0
    else if s[0] == c then 0
    else
      var i := Find(s[1..], c) + 1;
      assert s[..i] == [s[0]] + s[1..][..i - 1];
      assert s == [s[0]] + s[1..];
      i
  }

  /** g_strsplit at '.', into at most `n` fields; 0 stands for no limit. */
  function SplitDots(s: string, n: nat): (fields: seq<string>)
    ensures fields != [] && (n > 0 ==> |fields| <= n)
    decreases |s|
  {
    var i := Find(s, '.');
    if n == 1 || i == |s| then [s]
    else [s[..i]] + SplitDots(s[i + 1..], if n == 0 then 0 else n - 1)
  }

  /** The empty string has no fields at all. */
  function Fields(s: string, n: nat): seq<string> {
    if s == "" then [] else SplitDots(s, n)
  }

  /** strcmp on bytes, as a sign. */
  function StrCmp(a: string, b: string): (r: int)
    ensures -1 <= r <= 1
  {
    if a == "" then (if b == "" then 0 else -1)
    else if b == "" then 1
    else if a[0] < b[0] then -1
    else if a[0] > b[0] then 1
    else StrCmp(a[1..], b[1..])
  }

  /** Dictionary order: the first difference decides, and a text comes behind its own
      beginnings. */
  predicate LexBelow(a: string, b: string) {
    exists k :: 0 <= k <= |a| && k < |b| && a[..k] == b[..k] && (k == |a| || a[k] < b[k])
  }

  lemma {:induction false} StrCmpIsLex(a: string, b: string)
    ensures StrCmp(a, b) < 0 <==> LexBelow(a, b)
    ensures StrCmp(a, b) > 0 <==> LexBelow(b, a)
    ensures StrCmp(a, b) == 0 <==> a == b
  {
    if a == "" || b == "" {
      if b != "" { assert a[..0] == b[..0]; }
      if a != "" { assert b[..0] == a[..0]; }
    } else if a[0] != b[0] {
      assert a[..0] == b[..0];
    } else {
      StrCmpIsLex(a[1..], b[1..]);
      LexStep(a, b);
      LexStep(b, a);
      assert a == [a[0]] + a[1..] && b == [b[0]] + b[1..];
      hide LexBelow;
    }
  }

  lemma LexStep(a: string, b: string)
    requires a != "" && b != "" && a[0] == b[0]
    ensures LexBelow(a, b) <==> LexBelow(a[1..], b[1..])
  {
    if LexBelow(a, b) {
      var k :| 0 <= k <= |a| && k < |b| && a[..k] == b[..k] && (k == |a| || a[k] < b[k]);
      var (x, y) := (a[1..], b[1..]);
      SameFirst(a, b, k - 1);
      assert 0 <= k - 1 <= |x| && k - 1 < |y| && x[..k - 1] == y[..k - 1] && (k - 1 == |x| || x[k - 1] < y[k - 1]);
    }
    if LexBelow(a[1..], b[1..]) {
      var (x, y) := (a[1..], b[1..]);
      var k :| 0 <= k <= |x| && k < |y| && x[..k] == y[..k] && (k == |x| || x[k] < y[k]);
      SameFirst(a, b, k);
      assert a[..k + 1] == b[..k + 1] && (k + 1 == |a| || a[k + 1] < b[k + 1]);
    }
  }

  lemma SameFirst(a: string, b: string, k: nat)
    requires k < |a| && k < |b| && a[0] == b[0]
    ensures a[..k + 1] == b[..k + 1] <==> a[1..][..k] == b[1..][..k]
  {
    assert a[..k + 1] == [a[0]] + a[1..][..k] && b[..k + 1] == [b[0]] + b[1..][..k];
  }

  function Atol(s: string): int {
    Strtoll(s).0
  }

  function Sign(x: int): int {
    if x < 0 then -1 else if x > 0 then 1 else 0
  }

  // ------------------------------------------------------------------
  // The comparison.

  /** One pair of pre-release identifiers. */
  function CmpIdent(a: string, b: string): int {
    if AllDigits(a) && AllDigits(b) then ToInt32(Atol(a) - Atol(b)) else StrCmp(a, b)
  }

  /** Two lists of identifiers. */
  function CmpIdents(a: seq<string>, b: seq<string>): int {
    if a == [] then (if b == [] then 0 else -1)
    else if b == [] then 1
    else if CmpIdent(a[0], b[0]) != 0 then CmpIdent(a[0], b[0])
    else CmpIdents(a[1..], b[1..])
  }

  /** cc_oci_string_is_numeric. */
  method StringIsNumeric(str: Option<string>) returns (r: bool)
    ensures r <==> str.Some? && AllDigits(str.value)
  {
    if str.None? {
      return false;
    }
    var p := 0;
    while p < |str.value|
      invariant 0 <= p <= |str.value| && AllDigits(str.value[..p])
    {
      if !IsDigit(str.value[p]) {
        return false;
      }
      p := p + 1;
      assert str.value[..p] == str.value[..p - 1] + [str.value[p - 1]];
    }
    assert str.value[..p] == str.value;
    return true;
  }

  /** The two ways of comparing one pair of fields. */
  method CompareFields(fa: string, fb: string) returns (ret: int)
    ensures ret == CmpIdent(fa, fb)
  {
    var numA := StringIsNumeric(Some(fa));
    var numB := StringIsNumeric(Some(fb));
    if numA && numB {
      ret := ToInt32(Atol(fa) - Atol(fb));
    } else {
      ret := StrCmp(fa, fb);
    }
  }

  lemma CmpIdentsAt(a: seq<string>, b: seq<string>, i: nat)
    requires i <= |a| && i <= |b|
    ensures i == |a| || i == |b| ==>
              CmpIdents(a[i..], b[i..]) == (if i < |a| then 1 else if i < |b| then -1 else 0)
    ensures i < |a| && i < |b| ==>
              CmpIdents(a[i..], b[i..])
              == if CmpIdent(a[i], b[i]) != 0 then CmpIdent(a[i], b[i]) else CmpIdents(a[i + 1..], b[i + 1..])
  {
    if i < |a| && i < |b| {
      assert a[i..][1..] == a[i + 1..] && b[i..][1..] == b[i + 1..];
    }
  }

  /** cc_oci_semver_cmp_patch_pre_releases: walks both lists until they differ. */
  method CmpPreReleases(preA: string, preB: string) returns (ret: int)
    ensures ret == CmpIdents(Fields(preA, 0), Fields(preB, 0))
  {
    var fieldsA, fieldsB := Fields(preA, 0), Fields(preB, 0);
    ret := CmpFieldLists(fieldsA, fieldsB);
  }

  method CmpFieldLists(fieldsA: seq<string>, fieldsB: seq<string>) returns (ret: int)
    ensures ret == CmpIdents(fieldsA, fieldsB)
  {
    var i := 0;
    assert fieldsA[0..] == fieldsA && fieldsB[0..] == fieldsB;
    while true
      invariant 0 <= i <= |fieldsA| && i <= |fieldsB|
      invariant CmpIdents(fieldsA[i..], fieldsB[i..]) == CmpIdents(fieldsA, fieldsB)
      decreases |fieldsA| - i
    {
      CmpIdentsAt(fieldsA, fieldsB, i);
      if i < |fieldsA| && i == |fieldsB| {
        return 1;
      } else if i == |fieldsA| && i < |fieldsB| {
        return -1;
      } else if i == |fieldsA| && i == |fieldsB| {
        return 0;
      }
      ret := CompareFields(fieldsA[i], fieldsB[i]);
      if ret != 0 {
        return;
      }
      i := i + 1;
    }
  }

  /** A patch field taken apart: the number in front, and the pre-release text. */
  datatype Patch = Patch(num: int, pre: Option<string>)

  /** The pre-release starts behind the first '-', wherever that is, and ends at the first
      '+' if that comes later. */
  function SplitPatch(p: string): Patch {
    SplitPatchAt(p, Find(p, '-'), Find(p, '+'))
  }

  function SplitPatchAt(p: string, minus: nat, plus: nat): Patch
    requires minus <= |p| && plus <= |p|
  {
    var numEnd := if minus < plus then minus else plus;
    Patch(ToInt32(Atol(p[..numEnd])),
          if minus == |p| then None else Some(p[minus + 1..if plus > minus then plus else |p|]))
  }

  /** The text with NULs at two positions, where those are inside, and one at the end. */
  function Blank(p: string, minus: nat, plus: nat): (s: string)
    ensures |s| == |p| + 1 && s[|p|] == '\0'
    ensures forall i :: 0 <= i < |p| ==> s[i] == if i == minus || i == plus then '\0' else p[i]
  {
    seq(|p|, i requires 0 <= i < |p| => if i == minus || i == plus then '\0' else p[i]) + "\0"
  }

  /** cc_oci_semver_split_patch_version: cuts the text in place by writing NULs over the
      first '-' and the first '+'; what is then in the buffer, read as C strings, are the
      parts of the patch field. */
  method SplitPatchVersion(a: array<char>, ghost p: string) returns (num: int, preRelease: Option<nat>)
    requires a[..] == p + "\0" && '\0' !in p
    modifies a
    ensures a[..] == Blank(p, Find(p, '-'), Find(p, '+'))
    ensures preRelease.Some? ==> preRelease.value <= a.Length
    ensures SplitPatch(p) == Patch(num, if preRelease.Some? then Some(CString(a[preRelease.value..])) else None)
  {
    hide Atol, SplitPatch, Find, ToInt32, CString, Blank;
    var len := a.Length - 1;
    var text := a[..len];
    assert text == p by { assert (p + "\0")[..|p|] == p; }
    var plus, minus := Find(text, '+'), Find(text, '-');
    WriteNuls(a, p, minus, plus);
    PatchParts(p);
    preRelease := if minus < len then Some(minus + 1) else None;
    num := ToInt32(Atol(CString(a[..])));
    TailOf(a, minus);
  }

  lemma TailOf(a: array<char>, minus: nat)
    ensures minus < a.Length ==> a[minus + 1..] == a[..][minus + 1..]
  {
  }

  lemma PatchParts(p: string)
    requires '\0' !in p
    ensures var (minus, s) := (Find(p, '-'), Blank(p, Find(p, '-'), Find(p, '+')));
            SplitPatch(p)
            == Patch(ToInt32(Atol(CString(s))), if minus < |p| then Some(CString(s[minus + 1..])) else None)
  {
    hide Atol, SplitPatchAt, Find, ToInt32, CString, Blank;
    MarksApart(p);
    CutParts(p, Find(p, '-'), Find(p, '+'));
  }

  method WriteNuls(a: array<char>, ghost p: string, minus: nat, plus: nat)
    requires a[..] == p + "\0" && minus <= |p| && plus <= |p|
    modifies a
    ensures a[..] == Blank(p, minus, plus)
  {
    var len := a.Length - 1;
    if minus < len {
      a[minus] := '\0';
    }
    if plus < len {
      a[plus] := '\0';
    }
    ghost var cut := Blank(p, minus, plus);
    assert forall i :: 0 <= i <= len ==> a[i] == cut[i];
  }

  /** The pieces of the cut text are the parts of the patch field. */
  lemma CutParts(p: string, minus: nat, plus: nat)
    requires '\0' !in p && minus <= |p| && plus <= |p| && (minus != plus || minus == |p|)
    ensures var s := Blank(p, minus, plus);
            SplitPatchAt(p, minus, plus)
            == Patch(ToInt32(Atol(CString(s))), if minus < |p| then Some(CString(s[minus + 1..])) else None)
  {
    hide CString, Blank, Atol, ToInt32;
    var numEnd := if minus < plus then minus else plus;
    FirstNul(p, minus, plus, 0, numEnd);
    assert p[0..numEnd] == p[..numEnd] && Blank(p, minus, plus)[0..] == Blank(p, minus, plus);
    if minus < |p| {
      FirstNul(p, minus, plus, minus + 1, if plus > minus then plus else |p|);
    }
  }

  lemma MarksApart(p: string)
    ensures Find(p, '-') != Find(p, '+') || Find(p, '-') == |p|
  {
  }

  /** Between two NULs the text is as before. */
  lemma FirstNul(p: string, minus: nat, plus: nat, from: nat, end: nat)
    requires '\0' !in p && from <= end <= |p|
    requires (minus < from || end <= minus) && (plus < from || end <= plus)
    requires end == |p| || end == minus || end == plus
    ensures CString(Blank(p, minus, plus)[from..]) == p[from..end]
  {
    hide Find;
    var s := Blank(p, minus, plus);
    forall i | from <= i < end
      ensures s[i] == p[i] && s[i] != '\0'
    {
      assert p[i] in p;
    }
    var rest := s[from..];
    assert rest[..end - from] == p[from..end];
    assert forall i :: 0 <= i < end - from ==> p[from..end][i] in p;
    CStringIs(rest, end - from);
  }

  /** cc_oci_semver_cmp_patch_versions. */
  function CmpPatch(a: Patch, b: Patch): int {
    if a.num > b.num then 1
    else if a.num < b.num then -1
    else if a.pre.Some? && b.pre.None? then -1
    else if b.pre.Some? && a.pre.None? then 1
    else if a.pre.None? then 0
    else CmpIdents(Fields(a.pre.value, 0), Fields(b.pre.value, 0))
  }

  /** cc_oci_semver_cmp_fields; None where the program dies on a missing field. */
  function CmpFields(a: seq<string>, b: seq<string>, compatible: bool): Option<int> {
    if |a| < 2 || |b| < 2 then None
    else if Atol(a[0]) > Atol(b[0]) then Some(1)
    else if Atol(a[0]) < Atol(b[0]) then Some(-1)
    else if compatible then Some(0)
    else if Atol(a[1]) > Atol(b[1]) then Some(1)
    else if Atol(a[1]) < Atol(b[1]) then Some(-1)
    else if |a| < 3 || |b| < 3 then None
    else Some(CmpPatch(SplitPatch(a[2]), SplitPatch(b[2])))
  }

  /** cc_oci_semver_cmp_full, and with `compatible` cc_oci_semver_cmp. */
  function Cmp(a: string, b: string, compatible: bool): Option<int> {
    CmpFields(Fields(a, 3), Fields(b, 3), compatible)
  }

  function JoinTexts(texts: seq<string>): string {
    if texts == [] then ""
    else if |texts| == 1 then texts[0]
    else texts[0] + "." + JoinTexts(texts[1..])
  }

  predicate TwoDots(s: string) {
    exists i, j :: 0 <= i < j < |s| && s[i] == '.' && s[j] == '.'
  }

  /** Splitting loses nothing, and with no limit leaves no dot in a field. */
  lemma {:induction false} SplitDotsJoin(s: string, n: nat)
    ensures JoinTexts(SplitDots(s, n)) == s
    ensures n == 0 ==> forall f :: f in SplitDots(s, n) ==> '.' !in f
    decreases |s|
  {
    var i := Find(s, '.');
    if n != 1 && i < |s| {
      var rest := SplitDots(s[i + 1..], if n == 0 then 0 else n - 1);
      SplitDotsJoin(s[i + 1..], if n == 0 then 0 else n - 1);
      assert ([s[..i]] + rest)[1..] == rest;
      assert s == s[..i] + "." + s[i + 1..];
    }
  }

  lemma FieldsJoin(s: string, n: nat)
    ensures JoinTexts(Fields(s, n)) == s
    ensures n == 0 ==> forall f :: f in Fields(s, n) ==> '.' !in f
  {
    SplitDotsJoin(s, n);
  }

  lemma FieldCount(s: string)
    ensures |Fields(s, 3)| <= 3
    ensures |Fields(s, 3)| >= 2 <==> '.' in s
    ensures |Fields(s, 3)| == 3 <==> TwoDots(s)
  {
    var i := Find(s, '.');
    DotsBehind(s, i);
    if i < |s| {
      var rest := s[i + 1..];
      var j := Find(rest, '.');
      assert SplitDots(s, 3) == [s[..i]] + SplitDots(rest, 2);
      assert SplitDots(rest, 2) == if j == |rest| then [rest] else [rest[..j]] + [rest[j + 1..]];
    }
    hide Find, TwoDots;
  }

  lemma DotsBehind(s: string, i: nat)
    requires i <= |s| && '.' !in s[..i] && (i < |s| ==> s[i] == '.')
    ensures TwoDots(s) <==> i < |s| && '.' in s[i + 1..]
  {
    if TwoDots(s) {
      var a, b :| 0 <= a < b < |s| && s[a] == '.' && s[b] == '.';
      assert forall k :: 0 <= k < i ==> s[k] in s[..i];
      assert s[i + 1..][b - i - 1] == '.';
    }
    if i < |s| && '.' in s[i + 1..] {
      var k :| 0 <= k < |s[i + 1..]| && s[i + 1..][k] == '.';
      assert s[i + 1 + k] == '.';
    }
  }

  /** For any two strings: the compatible comparison has an answer exactly when both have a
      dot, and the full one exactly when it finds different numbers before it needs a third
      field, or both have two dots. */
  lemma CmpDefinedIff(a: string, b: string)
    ensures Cmp(a, b, true).Some? <==> '.' in a && '.' in b
    ensures Cmp(a, b, false).Some?
       <==> '.' in a && '.' in b
            && ((TwoDots(a) && TwoDots(b))
                || Atol(Fields(a, 3)[0]) != Atol(Fields(b, 3)[0]) || Atol(Fields(a, 3)[1]) != Atol(Fields(b, 3)[1]))
  {
    FieldCount(a);
    FieldCount(b);
    hide Fields, TwoDots, SplitPatch, CmpPatch, Atol;
  }

  /** The compatible comparison is a coarsening of the full one, for any two strings:
      where it tells versions apart, the full one tells them apart the same way. */
  lemma CompatibleIsCoarser(a: string, b: string)
    ensures Cmp(a, b, true).Some? && Cmp(a, b, true).value != 0 ==> Cmp(a, b, false) == Cmp(a, b, true)
    ensures Cmp(a, b, false) == Some(0) ==> Cmp(a, b, true) == Some(0)
  {
  }

  // ------------------------------------------------------------------
  // Item 11 of Semantic Versioning 2.0.0.

  datatype Ident = Num(n: nat) | Alnum(s: string)

  datatype Version = Version(major: nat, minor: nat, patch: nat, pre: seq<Ident>)

  function IdentOrder(a: Ident, b: Ident): (r: int)
    ensures -1 <= r <= 1
  {
    match (a, b)
    case (Num(m), Num(n)) => Sign(m - n)
    case (Num(_), Alnum(_)) => -1
    case (Alnum(_), Num(_)) => 1
    case (Alnum(s), Alnum(t)) => if s == t then 0 else if LexBelow(s, t) then -1 else 1
  }

  lemma IdentOrderIs(s: string, t: string)
    ensures IdentOrder(Alnum(s), Alnum(t)) == StrCmp(s, t)
  {
    StrCmpIsLex(s, t);
    hide LexBelow;
  }

  function PreOrder(a: seq<Ident>, b: seq<Ident>): (r: int)
    ensures -1 <= r <= 1
  {
    if a == [] then (if b == [] then 0 else -1)
    else if b == [] then 1
    else if IdentOrder(a[0], b[0]) != 0 then IdentOrder(a[0], b[0])
    else PreOrder(a[1..], b[1..])
  }

  /** -1, 0 or 1 as `v` has lower, equal or higher precedence. */
  function Precedence(v: Version, w: Version): (r: int)
    ensures -1 <= r <= 1
  {
    if v.major != w.major then Sign(v.major - w.major)
    else if v.minor != w.minor then Sign(v.minor - w.minor)
    else if v.patch != w.patch then Sign(v.patch - w.patch)
    else if v.pre == [] && w.pre == [] then 0
    else if v.pre == [] then 1
    else if w.pre == [] then -1
    else PreOrder(v.pre, w.pre)
  }

  lemma {:induction false} StrCmpFlip(a: string, b: string)
    ensures StrCmp(b, a) == -StrCmp(a, b)
    ensures StrCmp(a, b) == 0 <==> a == b
  {
    if a != "" && b != "" && a[0] == b[0] {
      StrCmpFlip(a[1..], b[1..]);
      assert a == [a[0]] + a[1..] && b == [b[0]] + b[1..];
    }
  }

  lemma {:induction false} StrCmpTransitive(a: string, b: string, c: string)
    requires StrCmp(a, b) <= 0 && StrCmp(b, c) <= 0
    ensures StrCmp(a, c) <= 0
    ensures StrCmp(a, b) < 0 || StrCmp(b, c) < 0 ==> StrCmp(a, c) < 0
  {
    if a != "" && b != "" && c != "" && a[0] == b[0] == c[0] {
      StrCmpTransitive(a[1..], b[1..], c[1..]);
    }
  }

  lemma IdentOrderLaws(a: Ident, b: Ident, c: Ident)
    ensures IdentOrder(b, a) == -IdentOrder(a, b)
    ensures IdentOrder(a, b) <= 0 && IdentOrder(b, c) <= 0 ==> IdentOrder(a, c) <= 0
    ensures IdentOrder(a, b) < 0 && IdentOrder(b, c) <= 0 ==> IdentOrder(a, c) < 0
    ensures IdentOrder(a, b) <= 0 && IdentOrder(b, c) < 0 ==> IdentOrder(a, c) < 0
  {
    hide LexBelow;
    if a.Alnum? && b.Alnum? {
      StrCmpFlip(a.s, b.s);
      IdentOrderIs(a.s, b.s);
      IdentOrderIs(b.s, a.s);
      if c.Alnum? {
        IdentOrderIs(b.s, c.s);
        IdentOrderIs(a.s, c.s);
        if StrCmp(a.s, b.s) <= 0 && StrCmp(b.s, c.s) <= 0 { StrCmpTransitive(a.s, b.s, c.s); }
      }
    }
  }

  lemma {:induction false} PreOrderFlip(a: seq<Ident>, b: seq<Ident>)
    ensures PreOrder(b, a) == -PreOrder(a, b)
  {
    if a != [] && b != [] {
      IdentOrderLaws(a[0], b[0], b[0]);
      if IdentOrder(a[0], b[0]) == 0 { PreOrderFlip(a[1..], b[1..]); }
    }
  }

  lemma {:induction false} PreOrderTransitive(a: seq<Ident>, b: seq<Ident>, c: seq<Ident>)
    requires PreOrder(a, b) <= 0 && PreOrder(b, c) <= 0
    ensures PreOrder(a, c) <= 0
    ensures PreOrder(a, b) < 0 || PreOrder(b, c) < 0 ==> PreOrder(a, c) < 0
  {
    if a != [] && b != [] && c != [] {
      IdentOrderLaws(a[0], b[0], c[0]);
      IdentOrderLaws(b[0], a[0], c[0]);
      IdentOrderLaws(c[0], b[0], a[0]);
      if IdentOrder(a[0], b[0]) == 0 && IdentOrder(b[0], c[0]) == 0 {
        PreOrderTransitive(a[1..], b[1..], c[1..]);
      }
    }
  }

  /** Item 11 defines a total preorder. */
  lemma PrecedenceIsPreorder(u: Version, v: Version, w: Version)
    ensures Precedence(v, v) == 0
    ensures Precedence(v, u) == -Precedence(u, v)
    ensures Precedence(u, v) <= 0 && Precedence(v, w) <= 0 ==> Precedence(u, w) <= 0
    ensures Precedence(u, v) < 0 && Precedence(v, w) <= 0 ==> Precedence(u, w) < 0
  {
    PreOrderFlip(v.pre, v.pre);
    PreOrderFlip(u.pre, v.pre);
    if PreOrder(u.pre, v.pre) <= 0 && PreOrder(v.pre, w.pre) <= 0 {
      PreOrderTransitive(u.pre, v.pre, w.pre);
    }
  }

  // ------------------------------------------------------------------
  // Versions as text.

  predicate IsLetter(c: char) {
    'A' <= c <= 'Z' || 'a' <= c <= 'z'
  }

  predicate IdentChars(s: string) {
    forall i :: 0 <= i < |s| ==> IsDigit(s[i]) || IsLetter(s[i]) || s[i] == '-'
  }

  /** Possibly some nines, then a letter. */
  predicate LetterAfterNines(s: string) {
    s != "" && (IsLetter(s[0]) || (s[0] == '9' && LetterAfterNines(s[1..])))
  }

  function IdentText(i: Ident): string {
    match i
    case Num(n) => Digits(n)
    case Alnum(s) => s
  }

  function JoinDots(idents: seq<Ident>): string {
    if idents == [] then ""
    else if |idents| == 1 then IdentText(idents[0])
    else IdentText(idents[0]) + "." + JoinDots(idents[1..])
  }

  function PatchText(v: Version, build: Option<string>): string {
    Digits(v.patch)
    + (if v.pre == [] then "" else "-" + JoinDots(v.pre))
    + (if build.None? then "" else "+" + build.value)
  }

  function Text(v: Version, build: Option<string>): string {
    Digits(v.major) + "." + (Digits(v.minor) + "." + PatchText(v, build))
  }

  function Nines(k: nat): string {
    if k == 0 then "" else "9" + Nines(k - 1)
  }

  /** The numbers that fit an int. */
  const NUMBER_LIMIT := 0x8000_0000

  /** Identifiers on which the code agrees with item 11: numbers below 2^31, and
      alphanumeric ones that as strings sort above 999999999, which of all the texts of
      those numbers sorts highest. */
  predicate GoodIdent(i: Ident) {
    match i
    case Num(n) => n < NUMBER_LIMIT
    case Alnum(s) => IdentChars(s) && !AllDigits(s) && StrCmp(Nines(9), s) < 0
  }

  ghost predicate GoodVersion(v: Version) {
    && v.major <= LONG_MAX && v.minor <= LONG_MAX && v.patch < NUMBER_LIMIT
    && forall i :: 0 <= i < |v.pre| ==> GoodIdent(v.pre[i])
  }

  /** Build metadata the code ignores: without a hyphen, or behind a pre-release. */
  predicate GoodBuild(v: Version, build: Option<string>) {
    build.None? || '-' !in build.value || v.pre != []
  }

  // Taking the text apart again.

  lemma FindConcat(s: string, t: string, c: char)
    ensures Find(s + t, c) == if c in s then Find(s, c) else |s| + Find(t, c)
  {
    if s == "" {
      assert s + t == t;
    } else {
      assert (s + t)[1..] == s[1..] + t;
      assert s == [s[0]] + s[1..];
      FindConcat(s[1..], t, c);
    }
  }

  lemma SplitDotsHead(d: string, rest: string, n: nat)
    requires '.' !in d && n != 1
    ensures SplitDots(d + "." + rest, n) == [d] + SplitDots(rest, if n == 0 then 0 else n - 1)
  {
    var s := d + "." + rest;
    assert s == d + ("." + rest);
    FindConcat(d, "." + rest, '.');
    assert Find(s, '.') == |d| by { assert ("." + rest)[0] == '.'; }
    hide Find;
    assert s[..|d|] == d && s[|d| + 1..] == rest;
  }

  lemma DigitsPlain(n: nat)
    ensures '.' !in Digits(n) && '-' !in Digits(n) && '+' !in Digits(n)
  {
  }

  lemma FieldsOfThree(a: string, b: string, p: string)
    requires '.' !in a && '.' !in b
    ensures Fields(a + "." + (b + "." + p), 3) == [a, b, p]
  {
    SplitDotsHead(a, b + "." + p, 3);
    SplitDotsHead(b, p, 2);
    assert SplitDots(p, 1) == [p];
    assert |a + "." + (b + "." + p)| > 0;
  }

  lemma AtolIs(n: nat)
    ensures Atol(Digits(n)) == Clamp(n)
  {
    StrtollOfDigits(Digits(n));
    hide Strtoll, Digits, Value, Clamp;
  }

  lemma AtolOfDigits(n: nat)
    requires n <= LONG_MAX
    ensures Atol(Digits(n)) == n
  {
    AtolIs(n);
    hide Atol, Digits;
  }

  function Tail(mark: string, text: Option<string>): string {
    if text.None? then "" else mark + text.value
  }

  lemma MarksOf(d: string, pre: Option<string>, build: Option<string>)
    requires '-' !in d && '+' !in d
    requires pre.Some? ==> '+' !in pre.value
    requires pre.None? && build.Some? ==> '-' !in build.value
    ensures var x, y := Tail("-", pre), Tail("+", build);
            && Find(d + x + y, '+') == |d + x|
            && Find(d + x + y, '-') == if pre.Some? then |d| else |d + x + y|
  {
    var x, y := Tail("-", pre), Tail("+", build);
    FindConcat(d + x, y, '-');
    FindConcat(d, x, '-');
    FindConcat(d + x, y, '+');
    FindConcat(d, x, '+');
    assert Find(y, '+') == 0;
    assert pre.Some? ==> x[0] == '-';
  }

  /** The parts of a patch field come out as they went in, unless a hyphen in the build
      metadata is the first hyphen there is. */
  lemma SplitPatchOf(d: string, pre: Option<string>, build: Option<string>)
    requires '-' !in d && '+' !in d
    requires pre.Some? ==> '+' !in pre.value
    requires pre.None? && build.Some? ==> '-' !in build.value
    ensures SplitPatch(d + Tail("-", pre) + Tail("+", build)) == Patch(ToInt32(Atol(d)), pre)
  {
    hide Find, Atol, ToInt32;
    var x, y := Tail("-", pre), Tail("+", build);
    var p := d + x + y;
    MarksOf(d, pre, build);
    assert p[..|d|] == d;
    if pre.Some? {
      assert p[|d| + 1..|d + x|] == pre.value;
    }
  }

  lemma {:induction false} JoinDotsPlain(idents: seq<Ident>)
    requires forall i :: 0 <= i < |idents| ==> GoodIdent(idents[i])
    ensures '+' !in JoinDots(idents)
    ensures idents != [] ==> JoinDots(idents) != ""
  {
    if idents != [] {
      IdentPlain(idents[0]);
      JoinDotsPlain(idents[1..]);
    }
  }

  lemma IdentPlain(i: Ident)
    requires GoodIdent(i)
    ensures IdentText(i) != "" && '.' !in IdentText(i) && '+' !in IdentText(i)
  {
    if i.Num? { DigitsPlain(i.n); }
  }

  function IdentTexts(idents: seq<Ident>): seq<string> {
    if idents == [] then [] else [IdentText(idents[0])] + IdentTexts(idents[1..])
  }

  lemma {:induction false} FieldsOfJoin(idents: seq<Ident>)
    requires idents != [] && forall i :: 0 <= i < |idents| ==> GoodIdent(idents[i])
    ensures SplitDots(JoinDots(idents), 0) == IdentTexts(idents)
  {
    IdentPlain(idents[0]);
    if |idents| == 1 {
      assert IdentTexts(idents[1..]) == [];
    } else {
      SplitDotsHead(IdentText(idents[0]), JoinDots(idents[1..]), 0);
      FieldsOfJoin(idents[1..]);
    }
  }

  // ------------------------------------------------------------------
  // Agreement with item 11.

  /** A number sorts below such an identifier, as strings. */
  lemma {:induction false} NumericBelow(n: string, s: string)
    requires AllDigits(n) && LetterAfterNines(s)
    ensures StrCmp(n, s) < 0
  {
    if n != "" && !IsLetter(s[0]) && n[0] == '9' {
      NumericBelow(n[1..], s[1..]);
    }
  }

  /** And only below such: these are exactly the identifiers that every number sorts
      below, as item 11 demands of all that are not numbers. */
  lemma AboveNumericsIff(s: string)
    requires IdentChars(s)
    ensures (forall n :: AllDigits(n) && n != "" ==> StrCmp(n, s) < 0) <==> LetterAfterNines(s)
  {
    if LetterAfterNines(s) {
      forall n | AllDigits(n) && n != ""
        ensures StrCmp(n, s) < 0
      {
        NumericBelow(n, s);
      }
    } else {
      var n := NumericNotBelow(s);
      assert AllDigits(n) && n != "" && StrCmp(n, s) >= 0;
    }
  }

  lemma {:induction false} NumericNotBelow(s: string) returns (n: string)
    requires IdentChars(s) && !LetterAfterNines(s)
    ensures AllDigits(n) && n != "" && StrCmp(n, s) >= 0
  {
    if s == "" || s[0] == '-' {
      n := "0";
    } else if s[0] < '9' {
      n := "9";
    } else {
      var m := NumericNotBelow(s[1..]);
      n := "9" + m;
      assert n[1..] == m;
    }
  }

  // The numbers below the limit, by their texts.

  function Pow10(k: nat): nat
    ensures Pow10(k) >= 1
  {
    if k == 0 then 1 else 10 * Pow10(k - 1)
  }

  lemma {:induction false} DigitsLength(m: nat, k: nat)
    requires 1 <= k && m < Pow10(k)
    ensures |Digits(m)| <= k
  {
    if m >= 10 { DigitsLength(m / 10, k - 1); }
  }

  lemma {:induction false} LeadSmall(m: nat, k: nat)
    requires Pow10(k) <= m < 3 * Pow10(k)
    ensures Digits(m)[0] < '9'
  {
    if k > 0 { LeadSmall(m / 10, k - 1); }
  }

  lemma {:induction false} NinesLast(k: nat)
    ensures Nines(k + 1) == Nines(k) + "9"
  {
    if k > 0 {
      NinesLast(k - 1);
      assert "9" + (Nines(k - 1) + "9") == ("9" + Nines(k - 1)) + "9";
    }
  }

  lemma OneNine()
    ensures Pow10(1) == 10 && Nines(1) == "9" && Digits(9) == "9"
  {
  }

  lemma Pow10Step(k: nat)
    requires 1 < k
    ensures Pow10(k) == 10 * Pow10(k - 1) && Pow10(k - 1) >= 10
  {
  }

  lemma DigitsStep(n: nat, q: nat)
    requires n == 10 * q + 9 && q > 0
    ensures Digits(n) == Digits(q) + "9"
  {
    assert n / 10 == q && n % 10 == 9;
  }

  lemma {:induction false} DigitsOfNines(k: nat)
    requires 1 <= k
    ensures Digits(Pow10(k) - 1) == Nines(k)
  {
    hide *;
    if k == 1 {
      OneNine();
    } else {
      Pow10Step(k);
      var p := Pow10(k - 1);
      DigitsStep(10 * p - 1, p - 1);
      DigitsOfNines(k - 1);
      NinesLast(k - 1);
    }
  }

  lemma {:induction false} DigitsBelowNines(d: string, k: nat)
    requires AllDigits(d) && |d| <= k
    ensures StrCmp(d, Nines(k)) <= 0
  {
    if d != "" && d[0] == '9' {
      assert Nines(k)[1..] == Nines(k - 1);
      DigitsBelowNines(d[1..], k - 1);
    }
  }

  lemma Billion()
    ensures Pow10(9) == 1_000_000_000
  {
    assert Pow10(3) == 1000;
    assert Pow10(6) == 1_000_000;
  }

  /** No number below the limit has a text above 999999999. */
  lemma NinesHighest(m: nat)
    requires m < NUMBER_LIMIT
    ensures StrCmp(Digits(m), Nines(9)) <= 0
  {
    Billion();
    if m < Pow10(9) {
      DigitsLength(m, 9);
      DigitsBelowNines(Digits(m), 9);
    } else {
      LeadSmall(m, 9);
      assert Nines(9)[0] == '9';
    }
    hide Digits, Pow10;
  }

  /** Exactly the identifiers above 999999999 are above every number below the limit, as
      item 11 demands. */
  lemma AboveNumbersIff(s: string)
    ensures (forall m: nat :: m < NUMBER_LIMIT ==> StrCmp(Digits(m), s) < 0) <==> StrCmp(Nines(9), s) < 0
  {
    if StrCmp(Nines(9), s) < 0 {
      forall m: nat | m < NUMBER_LIMIT
        ensures StrCmp(Digits(m), s) < 0
      {
        NinesHighest(m);
        StrCmpTransitive(Digits(m), Nines(9), s);
      }
    } else {
      Billion();
      DigitsOfNines(9);
      hide Digits, Nines, Pow10;
      assert StrCmp(Digits(999_999_999), s) >= 0;
    }
  }

  /** The code subtracts two numbers, cut off at the largest long, and keeps 32 bits of the
      difference: so it is right about them exactly when those bits have the right sign. */
  predicate DifferenceKept(m: nat, n: nat) {
    || m == n
    || (m > n && 0 < Low32(Clamp(m) - Clamp(n)) < 0x8000_0000)
    || (m < n && 0 < Low32(Clamp(n) - Clamp(m)) <= 0x8000_0000)
  }

  lemma CmpDigits(m: nat, n: nat)
    ensures CmpIdent(Digits(m), Digits(n)) == ToInt32(Clamp(m) - Clamp(n))
  {
    AtolIs(m);
    AtolIs(n);
    hide Atol, Digits, Value, StrCmp, ToInt32, Clamp;
  }

  lemma BitsSign(m: nat, n: nat, d: int)
    requires m > n ==> d >= 0
    requires m < n ==> d <= 0
    requires m == n ==> d == 0
    ensures Sign(ToInt32(d)) == Sign(m - n)
       <==> m == n || (m > n && 0 < Low32(d) < 0x8000_0000) || (m < n && 0 < Low32(-d) <= 0x8000_0000)
  {
    Low32Negated(d);
    Low32At(0, 0, 0);
    hide Low32;
  }

  lemma NumberPairIff(m: nat, n: nat)
    ensures Sign(CmpIdent(Digits(m), Digits(n))) == Sign(m - n) <==> DifferenceKept(m, n)
  {
    hide CmpIdent, Digits, Low32, Clamp, ToInt32, Sign, AllDigits, Value;
    CmpDigits(m, n);
    ClampOrder(m, n);
    var d := Clamp(m) - Clamp(n);
    BitsSign(m, n, d);
    assert Clamp(n) - Clamp(m) == -d;
  }

  lemma ClampOrder(m: nat, n: nat)
    ensures m >= n ==> Clamp(m) >= Clamp(n)
    ensures m <= n ==> Clamp(m) <= Clamp(n)
  {
  }

  /** Two numbers exactly 2^31 apart. */
  lemma LimitMisjudged(m: nat, n: nat)
    requires m == n + NUMBER_LIMIT && m <= LONG_MAX
    ensures Sign(CmpIdent(Digits(m), Digits(n))) != Sign(m - n)
  {
    NumberPairIff(m, n);
    Low32At(NUMBER_LIMIT, 0, NUMBER_LIMIT);
    hide CmpIdent, Digits, Low32;
  }

  /** And 2^31 is the largest bound below which it is right about all of them. */
  lemma NumbersAgreeIff(bound: nat)
    ensures (forall m: nat, n: nat :: m < bound && n < bound ==> Sign(CmpIdent(Digits(m), Digits(n))) == Sign(m - n))
       <==> bound <= NUMBER_LIMIT
  {
    hide CmpIdent, Digits, Value, AllDigits, Sign;
    if bound <= NUMBER_LIMIT {
      forall m: nat, n: nat | m < bound && n < bound
        ensures Sign(CmpIdent(Digits(m), Digits(n))) == Sign(m - n)
      {
        CmpNumbers(m, n);
      }
    } else {
      var m: nat, n: nat :| m == NUMBER_LIMIT && n == 0;
      LimitMisjudged(m, n);
    }
  }

  /** A patch number as it comes out of its text. */
  function PatchNumber(m: nat): int {
    ToInt32(Atol(Digits(m)))
  }

  lemma PatchNumberIs(m: nat)
    requires m <= NUMBER_LIMIT
    ensures if m < NUMBER_LIMIT then PatchNumber(m) == m else PatchNumber(m) < 0
  {
    AtolOfDigits(m);
    hide Atol, Digits;
    Low32At(m, 0, m);
    hide Low32;
  }

  /** The patch number is cut to 32 bits before it is compared, with the same bound. */
  lemma PatchesAgreeIff(bound: nat)
    ensures (forall m: nat, n: nat :: m < bound && n < bound ==> Sign(PatchNumber(m) - PatchNumber(n)) == Sign(m - n))
       <==> bound <= NUMBER_LIMIT
  {
    hide PatchNumber;
    if bound <= NUMBER_LIMIT {
      forall m: nat, n: nat | m < bound && n < bound
        ensures Sign(PatchNumber(m) - PatchNumber(n)) == Sign(m - n)
      {
        PatchNumberIs(m);
        PatchNumberIs(n);
      }
    } else {
      var m: nat, n: nat :| m == NUMBER_LIMIT && n == 0;
      PatchNumberIs(m);
      PatchNumberIs(n);
    }
  }

  /** Major and minor numbers are kept as longs. */
  lemma CoreNumbersAgreeIff(bound: nat)
    ensures (forall m: nat, n: nat :: m < bound && n < bound ==> Sign(Atol(Digits(m)) - Atol(Digits(n))) == Sign(m - n))
       <==> bound <= LONG_MAX + 1
  {
    hide Atol, Digits, Value, AllDigits;
    if bound <= LONG_MAX + 1 {
      forall m: nat, n: nat | m < bound && n < bound
        ensures Sign(Atol(Digits(m)) - Atol(Digits(n))) == Sign(m - n)
      {
        AtolIs(m);
        AtolIs(n);
      }
    } else {
      var m: nat, n: nat :| m == LONG_MAX + 1 && n == LONG_MAX;
      AtolIs(m);
      AtolIs(n);
    }
  }

  /** A number and another identifier, in either order, as item 11 has them. */
  lemma NumberBelow(m: nat, t: string)
    requires m < NUMBER_LIMIT && StrCmp(Nines(9), t) < 0
    ensures StrCmp(Digits(m), t) == -1 && StrCmp(t, Digits(m)) == 1
  {
    AboveNumbersIff(t);
    StrCmpFlip(Digits(m), t);
    hide Digits, Nines, StrCmp;
  }

  lemma CmpIdentAgrees(a: Ident, b: Ident)
    requires GoodIdent(a) && GoodIdent(b)
    ensures Sign(CmpIdent(IdentText(a), IdentText(b))) == IdentOrder(a, b)
  {
    hide Strtoll, Digits, StrCmp, ToInt32, Nines;
    match (a, b)
    case (Num(m), Num(n)) => CmpNumbers(m, n);
    case (Num(m), Alnum(t)) => NumberBelow(m, t);
    case (Alnum(s), Num(n)) => NumberBelow(n, s);
    case (Alnum(s), Alnum(t)) => IdentOrderIs(s, t);
  }

  lemma CmpNumbers(m: nat, n: nat)
    requires m < NUMBER_LIMIT && n < NUMBER_LIMIT
    ensures CmpIdent(Digits(m), Digits(n)) == m - n
  {
    hide Strtoll, Digits, StrCmp, ToInt32;
    AtolOfDigits(m);
    AtolOfDigits(n);
    ToInt32OfUnsigned(m - n);
  }

  lemma {:induction false} CmpIdentsAgree(a: seq<Ident>, b: seq<Ident>)
    requires forall i :: 0 <= i < |a| ==> GoodIdent(a[i])
    requires forall i :: 0 <= i < |b| ==> GoodIdent(b[i])
    ensures Sign(CmpIdents(IdentTexts(a), IdentTexts(b))) == PreOrder(a, b)
  {
    if a != [] && b != [] {
      CmpIdentAgrees(a[0], b[0]);
      CmpIdentsAgree(a[1..], b[1..]);
      var s, t := IdentTexts(a), IdentTexts(b);
      assert s[1..] == IdentTexts(a[1..]) && t[1..] == IdentTexts(b[1..]);
    }
  }

  lemma PatchOfText(v: Version, build: Option<string>)
    requires GoodVersion(v) && GoodBuild(v, build)
    ensures var p := SplitPatch(PatchText(v, build));
            && p.num == v.patch
            && (p.pre.None? <==> v.pre == [])
            && (p.pre.Some? ==> Fields(p.pre.value, 0) == IdentTexts(v.pre))
  {
    hide Strtoll, Digits, SplitPatch, SplitDots, IdentTexts, JoinDots, ToInt32;
    ToInt32OfUnsigned(v.patch);
    var pre := if v.pre == [] then None else Some(JoinDots(v.pre));
    DigitsPlain(v.patch);
    JoinDotsPlain(v.pre);
    SplitPatchOf(Digits(v.patch), pre, build);
    AtolOfDigits(v.patch);
    if v.pre != [] { FieldsOfJoin(v.pre); }
  }

  /** On the text of every version in the domain, with any build metadata that does not
      put the first hyphen, the full comparison has the sign item 11 prescribes. */
  lemma CmpAgrees(v: Version, vBuild: Option<string>, w: Version, wBuild: Option<string>)
    requires GoodVersion(v) && GoodBuild(v, vBuild) && GoodVersion(w) && GoodBuild(w, wBuild)
    ensures Cmp(Text(v, vBuild), Text(w, wBuild), false).Some?
    ensures Sign(Cmp(Text(v, vBuild), Text(w, wBuild), false).value) == Precedence(v, w)
    ensures Cmp(Text(v, vBuild), Text(w, wBuild), true) == Some(Sign(v.major - w.major))
  {
    hide Strtoll, Fields, SplitPatch, Text, PatchText, CmpIdents, PreOrder;
    TextFields(v, vBuild);
    TextFields(w, wBuild);
    PatchOfText(v, vBuild);
    PatchOfText(w, wBuild);
    if v.pre != [] && w.pre != [] { CmpIdentsAgree(v.pre, w.pre); }
  }

  lemma TextFields(v: Version, build: Option<string>)
    requires GoodVersion(v)
    ensures var f := Fields(Text(v, build), 3);
            |f| == 3 && Atol(f[0]) == v.major && Atol(f[1]) == v.minor && f[2] == PatchText(v, build)
  {
    DigitsPlain(v.major);
    DigitsPlain(v.minor);
    FieldsOfThree(Digits(v.major), Digits(v.minor), PatchText(v, build));
    AtolOfDigits(v.major);
    AtolOfDigits(v.minor);
  }

  ghost predicate Below(a: string, b: string) {
    Cmp(a, b, false).Some? && Cmp(a, b, false).value <= 0
  }

  /** So there it is a total preorder on the strings themselves, metadata and all. */
  lemma CmpIsPreorder(u: Version, uBuild: Option<string>, v: Version, vBuild: Option<string>, w: Version, wBuild: Option<string>)
    requires GoodVersion(u) && GoodVersion(v) && GoodVersion(w)
    requires GoodBuild(u, uBuild) && GoodBuild(v, vBuild) && GoodBuild(w, wBuild)
    ensures var x, y, z := Text(u, uBuild), Text(v, vBuild), Text(w, wBuild);
            && Below(x, x)
            && (Below(x, y) || Below(y, x))
            && (Below(x, y) && Below(y, x) <==> Cmp(x, y, false) == Some(0))
            && (Below(x, y) && Below(y, z) ==> Below(x, z))
  {
    CmpAgrees(u, uBuild, u, uBuild);
    CmpAgrees(u, uBuild, v, vBuild);
    CmpAgrees(v, vBuild, u, uBuild);
    CmpAgrees(v, vBuild, w, wBuild);
    CmpAgrees(u, uBuild, w, wBuild);
    PrecedenceIsPreorder(u, v, w);
    PrecedenceIsPreorder(u, u, w);
    hide Cmp, Precedence, Text;
  }

  // ------------------------------------------------------------------
  // Where it is not.

  lemma CmpOfPreReleases(a: string, b: string)
    requires '+' !in a && '+' !in b
    ensures Cmp("1.0.0-" + a, "1.0.0-" + b, false) == Some(CmpIdents(Fields(a, 0), Fields(b, 0)))
  {
    hide Strtoll, Find, SplitDots, SplitPatch;
    FieldsOfThree("1", "0", "0-" + a);
    FieldsOfThree("1", "0", "0-" + b);
    assert "1.0.0-" + a == "1" + "." + ("0" + "." + ("0-" + a));
    assert "1.0.0-" + b == "1" + "." + ("0" + "." + ("0-" + b));
    SplitPatchOf("0", Some(a), None);
    SplitPatchOf("0", Some(b), None);
    assert "0-" + a == "0" + Tail("-", Some(a)) + Tail("+", None);
    assert "0-" + b == "0" + Tail("-", Some(b)) + Tail("+", None);
  }

  lemma CmpOfOneIdent(a: string, b: string)
    requires a != "" && b != "" && '+' !in a && '+' !in b && '.' !in a && '.' !in b
    ensures Cmp("1.0.0-" + a, "1.0.0-" + b, false) == Some(CmpIdent(a, b))
  {
    CmpOfPreReleases(a, b);
    assert Fields(a, 0) == [a] && Fields(b, 0) == [b];
    hide Cmp, CmpIdent, Fields;
    assert CmpIdents([a], [b]) == CmpIdent(a, b);
  }

  lemma CycleOfIdents()
    ensures CmpIdent("9", "10") < 0 && CmpIdent("10", "1a") < 0 && CmpIdent("1a", "9") < 0
  {
    assert Digits(1) == "1" && Digits(9) == "9" && Digits(10) == "10";
    CmpNumbers(9, 10);
    assert "1a"[1] == 'a' && !AllDigits("1a");
    assert "10"[1..] == "0" && "1a"[1..] == "a";
    hide Strtoll;
    assert StrCmp("10", "1a") == StrCmp("0", "a");
  }

  /** Identifiers that start with a digit but are not numbers close a cycle: 9 is below 10,
      10 below 1a and 1a below 9. */
  lemma PrecedenceCycle()
    ensures Cmp("1.0.0-" + "9", "1.0.0-" + "10", false).Some? && Cmp("1.0.0-" + "9", "1.0.0-" + "10", false).value < 0
    ensures Cmp("1.0.0-" + "10", "1.0.0-" + "1a", false).Some? && Cmp("1.0.0-" + "10", "1.0.0-" + "1a", false).value < 0
    ensures Cmp("1.0.0-" + "1a", "1.0.0-" + "9", false).Some? && Cmp("1.0.0-" + "1a", "1.0.0-" + "9", false).value < 0
  {
    hide Cmp, CmpIdent;
    CycleOfIdents();
    CmpOfOneIdent("9", "10");
    CmpOfOneIdent("10", "1a");
    CmpOfOneIdent("1a", "9");
  }

  /** Numbers 2^32 apart come out equal, 4294967296 and 0 for one. */
  lemma LargeNumberEqual(m: nat, n: nat)
    requires m == n + 0x1_0000_0000 && m <= LONG_MAX
    ensures Cmp("1.0.0-" + Digits(m), "1.0.0-" + Digits(n), false) == Some(0)
  {
    DigitsPlain(m);
    DigitsPlain(n);
    hide Digits, Cmp, CmpIdent, Strtoll;
    CmpOfOneIdent(Digits(m), Digits(n));
    CmpDigits(m, n);
    Low32At(m - n, 1, 0);
    hide Low32;
  }

  // ------------------------------------------------------------------
  // Item 10: build metadata.

  /** Where the marks are once metadata has been appended. */
  lemma FindWithMetadata(p: string, m: string)
    ensures Find(p + ("+" + m), '+') == Find(p, '+')
    ensures Find(p + ("+" + m), '-') == if '-' in p then Find(p, '-') else |p| + 1 + Find(m, '-')
  {
    FindConcat(p, "+" + m, '+');
    FindConcat(p, "+" + m, '-');
    FindConcat("+", m, '-');
    assert ("+" + m)[0] == '+';
  }

  /** Whether appending metadata leaves a patch field's meaning alone: its first hyphen
      comes before any plus sign, or there is no hyphen in either. */
  predicate MetadataHarmless(p: string, m: string) {
    if '-' in p then Find(p, '-') < Find(p, '+') else '-' !in m
  }

  lemma SplitPatchWithMetadata(p: string, m: string)
    ensures SplitPatch(p + ("+" + m)).num == SplitPatch(p).num
    ensures MetadataHarmless(p, m) ==> SplitPatch(p + ("+" + m)).pre == SplitPatch(p).pre
    ensures !MetadataHarmless(p, m) && '-' !in p ==> SplitPatch(p).pre.None? && SplitPatch(p + ("+" + m)).pre.Some?
    ensures !MetadataHarmless(p, m) && '-' in p ==>
              SplitPatch(p).pre.Some? && SplitPatch(p + ("+" + m)).pre == Some(SplitPatch(p).pre.value + ("+" + m))
  {
    hide Strtoll, ToInt32;
    var q := p + ("+" + m);
    FindWithMetadata(p, m);
    var minus, plus := Find(p, '-'), Find(p, '+');
    hide Find;
    assert q[..if minus < plus then minus else plus] == p[..if minus < plus then minus else plus];
    if '-' in p {
      if minus < plus {
        assert q[minus + 1..plus] == p[minus + 1..plus];
      } else {
        assert q[minus + 1..|q|] == p[minus + 1..|p|] + ("+" + m);
      }
    }
  }

  lemma {:induction false} StrCmpExtended(s: string, t: string)
    requires t != ""
    ensures StrCmp(s + t, s) == 1
  {
    if s == "" {
      assert s + t == t;
    } else {
      assert (s + t)[1..] == s[1..] + t;
      StrCmpExtended(s[1..], t);
    }
  }

  lemma CmpIdentSame(a: string)
    ensures CmpIdent(a, a) == 0
  {
    StrCmpFlip(a, a);
  }

  lemma CmpIdentExtended(a: string, t: string)
    requires t != "" && t[0] == '+'
    ensures CmpIdent(a + t, a) == 1
  {
    assert (a + t)[|a|] == '+' && !AllDigits(a + t);
    StrCmpExtended(a, t);
  }

  lemma {:induction false} CmpIdentsSame(a: seq<string>)
    ensures CmpIdents(a, a) == 0
  {
    if a != [] {
      CmpIdentSame(a[0]);
      CmpIdentsSame(a[1..]);
    }
  }

  lemma LastFieldExtended(s: string, t: string)
    requires t != "" && t[0] == '+' && '.' !in s
    ensures SplitDots(s, 0) == [s] && CmpIdents(SplitDots(s + t, 0), [s]) != 0
  {
    FindConcat(s, t, '.');
    var j := Find(t, '.');
    assert (s + t)[..|s| + j] == s + t[..j];
    assert SplitDots(s + t, 0)[0] == s + t[..j];
    hide SplitDots, Find, CmpIdent;
    CmpIdentExtended(s, t[..j]);
  }

  lemma FirstFieldKept(s: string, t: string, i: nat)
    requires i == Find(s, '.') < |s|
    ensures SplitDots(s, 0) == [s[..i]] + SplitDots(s[i + 1..], 0)
    ensures SplitDots(s + t, 0) == [s[..i]] + SplitDots(s[i + 1..] + t, 0)
  {
    hide SplitDots;
    var head, rest := s[..i], s[i + 1..];
    assert s == head + "." + rest && s + t == head + "." + (rest + t);
    SplitDotsHead(head, rest, 0);
    SplitDotsHead(head, rest + t, 0);
  }

  /** A pre-release that swallows the metadata does not compare equal to itself without it. */
  lemma {:induction false} SplitDotsExtended(s: string, t: string)
    requires t != "" && t[0] == '+'
    ensures CmpIdents(SplitDots(s + t, 0), SplitDots(s, 0)) != 0
    decreases |s|
  {
    hide SplitDots, CmpIdent;
    var i := Find(s, '.');
    if i == |s| {
      LastFieldExtended(s, t);
    } else {
      FirstFieldKept(s, t, i);
      var a, b := SplitDots(s[i + 1..] + t, 0), SplitDots(s[i + 1..], 0);
      CmpIdentSame(s[..i]);
      SplitDotsExtended(s[i + 1..], t);
      assert ([s[..i]] + a)[1..] == a && ([s[..i]] + b)[1..] == b;
    }
  }

  lemma FieldsExtended(s: string, t: string)
    requires t != "" && t[0] == '+'
    ensures CmpIdents(Fields(s + t, 0), Fields(s, 0)) != 0
  {
    if s == "" {
      assert s + t == t;
      hide SplitDots, CmpIdent;
    } else {
      SplitDotsExtended(s, t);
      hide SplitDots, CmpIdents;
    }
  }

  lemma SplitDotsInverse(s: string, n: nat) returns (head: string, rest: string)
    requires n != 1 && |SplitDots(s, n)| > 1
    ensures '.' !in head && s == head + "." + rest
    ensures SplitDots(s, n) == [head] + SplitDots(rest, if n == 0 then 0 else n - 1)
  {
    var i := Find(s, '.');
    head, rest := s[..i], s[i + 1..];
    assert s == s[..i] + [s[i]] + s[i + 1..];
  }

  /** A string with three fields is those fields with dots between them. */
  lemma ThreeFields(v: string)
    requires |Fields(v, 3)| == 3
    ensures var f := Fields(v, 3); '.' !in f[0] && '.' !in f[1] && v == f[0] + "." + (f[1] + "." + f[2])
  {
    var a, rest := SplitDotsInverse(v, 3);
    var b, p := SplitDotsInverse(rest, 2);
    assert SplitDots(p, 1) == [p];
    hide SplitDots, Find;
  }

  lemma FieldsWithMetadata(v: string, m: string)
    requires |Fields(v, 3)| == 3
    ensures var f := Fields(v, 3); Fields(v + ("+" + m), 3) == [f[0], f[1], f[2] + ("+" + m)]
  {
    ThreeFields(v);
    var f, t := Fields(v, 3), "+" + m;
    hide Fields;
    FieldsOfThree(f[0], f[1], f[2] + t);
    DotsAppend(f[0], f[1], f[2], t);
  }

  lemma DotsAppend(a: string, b: string, p: string, t: string)
    ensures a + "." + (b + "." + p) + t == a + "." + (b + "." + (p + t))
  {
    assert b + "." + p + t == b + "." + (p + t);
    assert a + "." + (b + "." + p) + t == a + "." + (b + "." + p + t);
  }

  /** Item 10, exactly: appending build metadata to a version of three fields leaves every
      comparison as it was if and only if it is harmless in the sense above.  Where it is
      not, the version no longer even equals itself without the metadata. */
  lemma MetadataIgnoredIff(v: string, m: string)
    requires |Fields(v, 3)| == 3
    ensures (forall w, compatible :: Cmp(v + ("+" + m), w, compatible) == Cmp(v, w, compatible))
       <==> MetadataHarmless(Fields(v, 3)[2], m)
  {
    hide Fields, SplitPatch, Atol, CmpPatch, MetadataHarmless;
    var f, u := Fields(v, 3), v + ("+" + m);
    FieldsWithMetadata(v, m);
    SplitPatchWithMetadata(f[2], m);
    var p, q := SplitPatch(f[2]), SplitPatch(f[2] + ("+" + m));
    if MetadataHarmless(f[2], m) {
      forall w, compatible
        ensures Cmp(u, w, compatible) == Cmp(v, w, compatible)
      {
      }
    } else {
      HarmfulDiffers(p, q, m);
      assert Cmp(u, v, false) == Some(CmpPatch(q, p)) && Cmp(v, v, false) == Some(CmpPatch(p, p));
      assert Cmp(u, v, false) != Cmp(v, v, false);
    }
  }

  lemma HarmfulDiffers(p: Patch, q: Patch, m: string)
    requires p.num == q.num
    requires (p.pre.None? && q.pre.Some?) || (p.pre.Some? && q.pre == Some(p.pre.value + ("+" + m)))
    ensures CmpPatch(p, p) == 0 && CmpPatch(q, p) != 0
  {
    if p.pre.Some? {
      CmpIdentsSame(Fields(p.pre.value, 0));
      FieldsExtended(p.pre.value, "+" + m);
    }
  }

  /** A hyphen in the metadata turns it into a pre-release. */
  lemma HyphenInMetadata()
    ensures Fields("1.0.0", 3) == ["1", "0", "0"] && !MetadataHarmless("0", "a-b")
    ensures Cmp("1.0.0" + ("+" + "a-b"), "1.0.0", false) == Some(-1)
  {
    PlainFields();
    HyphenHarms();
    hide *;
    FieldsWithMetadata("1.0.0", "a-b");
    SplitPatchWithMetadata("0", "a-b");
    HyphenCompared("1.0.0", "1.0.0" + ("+" + "a-b"));
  }

  lemma PlainFields()
    ensures Fields("1.0.0", 3) == ["1", "0", "0"]
  {
    hide SplitDots;
    FieldsOfThree("1", "0", "0");
    assert "1.0.0" == "1" + "." + ("0" + "." + "0");
  }

  lemma HyphenHarms()
    ensures '-' !in "0" && !MetadataHarmless("0", "a-b")
  {
    assert "a-b"[1] == '-';
    hide Find;
  }

  lemma HyphenCompared(v: string, u: string)
    requires |Fields(v, 3)| == 3 && |Fields(u, 3)| == 3 && Fields(u, 3)[..2] == Fields(v, 3)[..2]
    requires var p, q := SplitPatch(Fields(v, 3)[2]), SplitPatch(Fields(u, 3)[2]);
             p.num == q.num && p.pre.None? && q.pre.Some?
    ensures Cmp(u, v, false) == Some(-1)
  {
    hide Fields, SplitPatch, Atol;
    assert Fields(u, 3)[..2][0] == Fields(v, 3)[..2][0] && Fields(u, 3)[..2][1] == Fields(v, 3)[..2][1];
  }
}
