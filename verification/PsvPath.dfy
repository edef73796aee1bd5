/** Paths: split_path, its inverse, and walks through the folder tree. */
module PsvPath {
  import opened PsvLayout
  import opened PsvTree
  import opened PsvReach

  datatype Path = Path(abs: bool, names: seq<string>)

  predicate NoSlash(s: string) {
    forall i :: 0 <= i < |s| ==> s[i] != '/'
  }

  /** What a path part is: not empty, no '/'. */
  predicate Parts(names: seq<string>) {
    forall i :: 0 <= i < |names| ==> names[i] != "" && NoSlash(names[i])
  }

  /** The index of the first '/', or the length. */
  function FirstSlash(s: string): (k: nat)
    ensures k <= |s| && NoSlash(s[..k]) && (k < |s| ==> s[k] == '/')
  {
    if s == "" || s[0] == '/' then 0 else FirstSlash(s[1..]) + 1
  }

  /** The parts of a path up to the first empty one; a final '/' ends the last part. */
  function Cut(s: string): (names: seq<string>)
    ensures Parts(names)
    decreases |s|
  {
    var k := FirstSlash(s);
    if k == 0 then [] else if k == |s| then [s] else [s[..k]] + Cut(s[k + 1..])
  }

  lemma {:induction false} FirstSlashIs(s: string, k: nat)
    requires k <= |s| && NoSlash(s[..k]) && (k < |s| ==> s[k] == '/')
    ensures FirstSlash(s) == k
  {
    if k > 0 {
      assert s[..k][0] == s[0];
      assert s[1..][..k - 1] == s[..k][1..];
      FirstSlashIs(s[1..], k - 1);
    }
  }

  lemma CutAtSlash(s: string, k: nat)
    requires k < |s| && NoSlash(s[..k]) && s[k] == '/'
    ensures Cut(s) == if k == 0 then [] else [s[..k]] + Cut(s[k + 1..])
  {
    FirstSlashIs(s, k);
  }

  lemma CutAtEnd(s: string)
    requires s != "" && NoSlash(s)
    ensures Cut(s) == [s]
  {
  }

  function Take(parts: seq<string>, n: nat): seq<string> {
    if |parts| <= n then parts else parts[..n]
  }

  /** What split_path computes: an empty part, or a part after the 32nd, ends the scan without
      an error result. */
  function Split(path: string): Path {
    if path != "" && path[0] == '/' then Path(true, Take(Cut(path[1..]), FNODE_NUM))
    else Path(false, Take(Cut(path), FNODE_NUM))
  }

  lemma SplitNames(path: string)
    ensures |Split(path).names| <= FNODE_NUM && Parts(Split(path).names)
  {
  }

  /** split_path.  The parts are copied into 32-byte fields. */
  method SplitPath(path: string) returns (sp: Path)
    requires FitsFields(path)
    ensures sp == Split(path)
  {
    var abs := path != "" && path[0] == '/';
    var s := if abs then path[1..] else path;
    var names := SplitParts(s);
    ScanIsCut(s, -1, 0);
    assert s[0..] == s;
    return Path(abs, names);
  }

  ghost predicate SlashFree(s: string, lo: int, hi: int)
    requires 0 <= lo && hi <= |s|
  {
    forall j :: lo <= j < hi ==> s[j] != '/'
  }

  lemma CutAfter(s: string, lo: int, i: int)
    requires 0 <= lo <= i < |s| && SlashFree(s, lo, i) && s[i] == '/'
    ensures Cut(s[lo..]) == if i == lo then [] else [s[lo..i]] + Cut(s[i + 1..])
  {
    hide Cut, FirstSlash;
    assert s[lo..][..i - lo] == s[lo..i] && s[lo..][i - lo] == s[i] && s[lo..][i - lo + 1..] == s[i + 1..];
    CutAtSlash(s[lo..], i - lo);
  }

  lemma CutRest(s: string, lo: int)
    requires 0 <= lo < |s| && SlashFree(s, lo, |s|)
    ensures Cut(s[lo..]) == [s[lo..|s|]]
  {
    assert s[lo..] == s[lo..|s|];
    CutAtEnd(s[lo..]);
  }

  /** The parts still to come once the scan is at `i` and the last '/' was at `cur`. */
  ghost function ScanFrom(s: string, cur: int, i: int): seq<string>
    requires -1 <= cur < i
    decreases |s| - i
  {
    if i >= |s| then []
    else if s[i] == '/' then if i - 1 == cur then [] else [s[cur + 1..i]] + ScanFrom(s, i, i + 1)
    else if i == |s| - 1 then [s[cur + 1..i + 1]]
    else ScanFrom(s, cur, i + 1)
  }

  lemma {:induction false} ScanIsCut(s: string, cur: int, i: int)
    requires -1 <= cur < i <= |s| && SlashFree(s, cur + 1, i) && (i == |s| ==> cur == i - 1)
    ensures ScanFrom(s, cur, i) == Cut(s[cur + 1..])
    decreases |s| - i
  {
    if i == |s| {
      assert s[cur + 1..] == "";
    } else if s[i] == '/' {
      ScanAtSlash(s, cur, i);
    } else if i == |s| - 1 {
      CutRest(s, cur + 1);
    } else {
      ScanIsCut(s, cur, i + 1);
    }
  }

  lemma {:induction false} ScanAtSlash(s: string, cur: int, i: int)
    requires -1 <= cur < i < |s| && SlashFree(s, cur + 1, i) && s[i] == '/'
    ensures ScanFrom(s, cur, i) == Cut(s[cur + 1..])
    decreases |s| - i, 0
  {
    hide Cut, FirstSlash;
    if i - 1 != cur {
      ScanIsCut(s, i, i + 1);
    }
    CutAfter(s, cur + 1, i);
  }

  method SplitParts(s: string) returns (names: seq<string>)
    ensures names == Take(ScanFrom(s, -1, 0), FNODE_NUM)
  {
    names := [];
    var cur := -1;
    ghost var all := ScanFrom(s, -1, 0);
    for i := 0 to |s|
      invariant -1 <= cur < i && |names| <= FNODE_NUM
      invariant all == names + ScanFrom(s, cur, i)
    {
      if s[i] == '/' {
        if i - 1 == cur || |names| == FNODE_NUM {
          return;
        }
        names := names + [s[cur + 1..i]];
        cur := i;
      } else if i == |s| - 1 {
        if |names| == FNODE_NUM {
          return;
        }
        names := names + [s[cur + 1..i + 1]];
        cur := i;
      }
    }
  }

  // ----- joining

  function JoinParts(names: seq<string>): string
    requires names != []
  {
    if |names| == 1 then names[0] else names[0] + "/" + JoinParts(names[1..])
  }

  function Join(p: Path, trailing: bool): string
    requires p.names != []
  {
    (if p.abs then "/" else "") + JoinParts(p.names) + (if trailing then "/" else "")
  }

  lemma {:induction false} CutOfJoin(names: seq<string>, end: string)
    requires names != [] && Parts(names) && (end == "" || end == "/")
    ensures Cut(JoinParts(names) + end) == names
    ensures JoinParts(names) != "" && JoinParts(names)[0] == names[0][0]
  {
    var n := names[0];
    if |names| == 1 {
      CutOfOne(n, end);
    } else {
      CutOfJoin(names[1..], end);
      CutOfTwo(n, JoinParts(names[1..]) + end);
      assert JoinParts(names) + end == n + "/" + (JoinParts(names[1..]) + end);
    }
  }

  lemma CutOfOne(n: string, end: string)
    requires n != "" && NoSlash(n) && (end == "" || end == "/")
    ensures Cut(n + end) == [n]
  {
    if end == "" {
      assert n + end == n;
      CutAtEnd(n);
    } else {
      assert (n + end)[..|n|] == n && (n + end)[|n| + 1..] == "";
      CutAtSlash(n + end, |n|);
    }
  }

  lemma CutOfTwo(n: string, rest: string)
    requires n != "" && NoSlash(n)
    ensures Cut(n + "/" + rest) == [n] + Cut(rest)
  {
    var s := n + "/" + rest;
    assert s[..|n|] == n && s[|n|] == '/' && s[|n| + 1..] == rest;
    CutAtSlash(s, |n|);
  }

  /** Splitting undoes joining, for absolute and relative paths, with or without a final '/'. */
  lemma SplitOfJoin(p: Path, trailing: bool)
    requires 1 <= |p.names| <= FNODE_NUM && Parts(p.names)
    ensures Split(Join(p, trailing)) == p
  {
    var end := if trailing then "/" else "";
    CutOfJoin(p.names, end);
    var j := Join(p, trailing);
    if p.abs {
      assert j[1..] == JoinParts(p.names) + end;
    } else {
      assert j == JoinParts(p.names) + end;
      assert j[0] == p.names[0][0];
    }
  }

  // ----- walking

  /** The first used slot of that name, self and parent included, or -1: the inner loop of goin_sp. */
  function AnySlot(ts: seq<FTerm>, name: string, i: nat): (j: int)
    ensures j == -1 || (i <= j < |ts| && ts[j].used && ts[j].name == name)
    ensures forall k :: i <= k < (if j == -1 then |ts| else j) ==> !(ts[k].used && ts[k].name == name)
    decreases |ts| - i
  {
    if i >= |ts| then -1
    else if ts[i].used && ts[i].name == name then i
    else AnySlot(ts, name, i + 1)
  }

  datatype Place = Place(ok: bool, folder: int)

  /** goin_sp: where the walk ends, or the last folder that it reached. */
  function Walk(fn: seq<FNode>, f: int, names: seq<string>): Place
    decreases |names|
  {
    if names == [] || !(0 <= f < |fn|) then Place(names == [], f)
    else
      var j := AnySlot(fn[f].fterms, names[0], 0);
      if j == -1 then Place(false, f) else Walk(fn, fn[f].fterms[j].fnode, names[1..])
  }

  /** One step in terms of the tree: itself, its parent, or its child of that name.  The root has
      no parent slot, so that ".." may be a child of it; everywhere else the two dotted names
      lead away from a child that has them. */
  ghost predicate StepsTo(v: View, f: int, name: string, g: int)
    requires LinksInv(v, {}) && f in v.live
  {
    if name == "." then g == f
    else if name == ".." && f != ROOT then g == v.par[f]
    else
      && g in v.live && g != ROOT && g !in v.lost && v.par[g] == f && SUB <= v.pos[g] < FTERM_NUM
      && v.fn[f].fterms[v.pos[g]].name == name
  }

  /** The slot scan finds the one folder that the step leads to, and fails only if there is none.
      Steps do not leave the folders that hang from the root. */
  lemma SlotIsStep(v: View, f: int, name: string)
    requires TreeInv(v, {}) && f in v.live && Rooted(v, f) && name != ""
    ensures var j := AnySlot(v.fn[f].fterms, name, 0);
      && (j != -1 ==> v.fn[f].fterms[j].fnode in v.live && Rooted(v, v.fn[f].fterms[j].fnode))
      && forall g :: StepsTo(v, f, name, g) <==> j != -1 && g == v.fn[f].fterms[j].fnode
  {
    var ts := v.fn[f].fterms;
    var j := AnySlot(ts, name, 0);
    assert NodeOk(v.fn[f], f, v.par[f]);
    if j >= SUB { assert NamesChild(v, {}, f, j); }
    forall g | StepsTo(v, f, name, g)
      ensures j != -1 && g == ts[j].fnode
    {
      if name != "." && (name != ".." || f == ROOT) { assert IsNamed(v, g); }
    }
  }

  ghost predicate WalksTo(v: View, f: int, names: seq<string>, g: int)
    requires LinksInv(v, {}) && f in v.live
    decreases |names|
  {
    if names == [] then g == f
    else exists h :: h in v.live && StepsTo(v, f, names[0], h) && WalksTo(v, h, names[1..], g)
  }

  /** goin_sp succeeds exactly when the steps lead somewhere in the tree, and ends there;
      where it fails it stops in a live folder. */
  lemma {:induction false} WalkFollowsTree(v: View, f: int, names: seq<string>)
    requires TreeInv(v, {}) && f in v.live && Rooted(v, f) && forall i :: 0 <= i < |names| ==> names[i] != ""
    ensures var p := Walk(v.fn, f, names);
      && p.folder in v.live && Rooted(v, p.folder)
      && forall g :: WalksTo(v, f, names, g) <==> p.ok && g == p.folder
    decreases |names|
  {
    if names != [] {
      SlotIsStep(v, f, names[0]);
      var j := AnySlot(v.fn[f].fterms, names[0], 0);
      if j != -1 {
        var h := v.fn[f].fterms[j].fnode;
        WalkFollowsTree(v, h, names[1..]);
        forall g
          ensures WalksTo(v, f, names, g) <==> WalksTo(v, h, names[1..], g)
        {
          if WalksTo(v, h, names[1..], g) {
            assert StepsTo(v, f, names[0], h);
          }
        }
      }
    }
  }

  /** A child is reached by its name, and then ".." comes back, unless the name is "." or, below
      the root, "..": such a child is never reached. */
  lemma ChildAndBack(v: View, f: int, c: int)
    requires TreeInv(v, {}) && f in v.live && Rooted(v, f)
    requires c in v.live && c != ROOT && c !in v.lost && v.par[c] == f
    ensures |v.fn[f].fterms| == FTERM_NUM && SUB <= v.pos[c] < FTERM_NUM
    ensures var name := v.fn[f].fterms[v.pos[c]].name;
      && (Walk(v.fn, f, [name]) == Place(true, c) <==> name != "." && (name != ".." || f == ROOT))
      && (name != "." && (name != ".." || f == ROOT) ==> Walk(v.fn, f, [name, ".."]) == Place(true, f))
  {
    assert IsNamed(v, c);
    assert NodeOk(v.fn[f], f, v.par[f]);
    var name := v.fn[f].fterms[v.pos[c]].name;
    var j := AnySlot(v.fn[f].fterms, name, 0);
    SlotIsStep(v, f, name);
    var g := v.fn[f].fterms[j].fnode;
    assert StepsTo(v, f, name, if name == "." then f else if name == ".." && f != ROOT then v.par[f] else c);
    if g == c {
      SlotIsStep(v, c, "..");
      assert StepsTo(v, c, "..", f);
    }
    WalkTwo(v.fn, f, name, "..");
  }

  lemma WalkTwo(fn: seq<FNode>, f: int, name: string, next: string)
    requires 0 <= f < |fn|
    ensures Walk(fn, f, [name]) ==
              var j := AnySlot(fn[f].fterms, name, 0);
              if j == -1 then Place(false, f) else Place(true, fn[f].fterms[j].fnode)
    ensures Walk(fn, f, [name, next]) ==
              var p := Walk(fn, f, [name]); if p.ok then Walk(fn, p.folder, [next]) else p
  {
    assert [name, next][1..] == [next] && [name][1..] == [];
    assert forall g :: Walk(fn, g, []) == Place(true, g);
  }

  /** The folder that the operations on a path work in: where all parts but the last lead to. */
  function Target(fn: seq<FNode>, cwd: int, path: string): Place
    requires Split(path).names != []
  {
    var sp := Split(path);
    Walk(fn, if sp.abs then ROOT else cwd, sp.names[..|sp.names| - 1])
  }

  function LastPart(path: string): string
    requires Split(path).names != []
  {
    var names := Split(path).names;
    names[|names| - 1]
  }

  predicate FitsFields(path: string) {
    forall i :: 0 <= i < |Split(path).names| ==> |Split(path).names[i]| <= NAME_LEN
  }

  /** The current folder after an operation that returns to it: only a failed walk leaves it moved. */
  function CwdAfter(fn: seq<FNode>, cwd: int, path: string): int {
    if Split(path).names == [] then cwd
    else
      var p := Target(fn, cwd, path);
      if p.ok then cwd else p.folder
  }
}
