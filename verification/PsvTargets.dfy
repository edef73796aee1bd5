/** What the operations on paths find: the folder that all parts but the last lead to, and there the last. */
module PsvTargets {
  import opened PsvLayout
  import opened PsvTree
  import opened PsvBlocks
  import opened PsvSteps
  import opened PsvReach
  import opened PsvPrune
  import opened PsvPath

  /** On a path put together from its parts the operations work where all but the last lead, on the last. */
  lemma TargetOfJoin(fn: seq<FNode>, cwd: int, abs: bool, init: seq<string>, n: string, trailing: bool)
    requires |init| < FNODE_NUM && Parts(init + [n])
    ensures var path := Join(Path(abs, init + [n]), trailing);
            && Split(path).names == init + [n]
            && LastPart(path) == n && Target(fn, cwd, path) == Walk(fn, if abs then ROOT else cwd, init)
  {
    SplitOfJoin(Path(abs, init + [n]), trailing);
    assert (init + [n])[..|init|] == init;
  }

  /** A walk is the walk over all parts but the last, and then a step. */
  lemma {:induction false} WalkInTwo(fn: seq<FNode>, f: int, names: seq<string>)
    requires names != []
    ensures var p := Walk(fn, f, names[..|names| - 1]);
            Walk(fn, f, names) == if p.ok then Walk(fn, p.folder, [names[|names| - 1]]) else p
    decreases |names|
  {
    var init := names[..|names| - 1];
    if |names| == 1 {
      assert names == [names[0]] && init == [];
    } else if 0 <= f < |fn| {
      var j := AnySlot(fn[f].fterms, names[0], 0);
      assert init[0] == names[0] && init[1..] == names[1..][..|names| - 2];
      if j != -1 { WalkInTwo(fn, fn[f].fterms[j].fnode, names[1..]); }
    }
  }

  lemma {:induction false} AnySlotIs(ts: seq<FTerm>, name: string, n: nat, j: nat)
    requires n <= j < |ts| && ts[j].used && ts[j].name == name
    requires forall k :: n <= k < j ==> !(ts[k].used && ts[k].name == name)
    ensures AnySlot(ts, name, n) == j
    decreases j - n
  {
    if n < j { AnySlotIs(ts, name, n + 1, j); }
  }

  /** A new slot is not found in place of one that was found before. */
  lemma SlotStays(ts: seq<FTerm>, f: int, p: int, i: int, name: string, c: int, m: string)
    requires FTableOk(ts, f, p) && SUB <= i < FTERM_NUM && !ts[i].used
    requires forall j :: SUB <= j < FTERM_NUM ==> ts[j].name != name
    requires AnySlot(ts, m, 0) != -1
    ensures AnySlot(ts[i := FTerm(true, name, c)], m, 0) == AnySlot(ts, m, 0)
  {
    AnySlotIs(ts[i := FTerm(true, name, c)], m, 0, AnySlot(ts, m, 0));
  }

  /** A walk that leads somewhere still does, and there, when a folder has been made. */
  lemma {:induction false} WalkStays(v: View, f: int, i: int, name: string, c: int, g: int, names: seq<string>)
    requires TreeInv(v, {}) && CanLink(v, f, i, name) && 0 < c < FNODE_NUM && c !in v.live
    requires g in v.live && Rooted(v, g) && (forall k :: 0 <= k < |names| ==> names[k] != "")
    requires Walk(v.fn, g, names).ok
    ensures Walk(Grow(v, f, i, name, c).fn, g, names) == Walk(v.fn, g, names)
    decreases |names|
  {
    if names != [] {
      SlotIsStep(v, g, names[0]);
      var j := AnySlot(v.fn[g].fterms, names[0], 0);
      assert NodeOk(v.fn[f], f, v.par[f]);
      if g == f { SlotStays(v.fn[f].fterms, f, v.par[f], i, name, c, names[0]); }
      WalkStays(v, f, i, name, c, v.fn[g].fterms[j].fnode, names[1..]);
    }
  }

  /** A walk to `f` and then to the folder in its first slot of the last name. */
  lemma StepInto(fn: seq<FNode>, start: int, names: seq<string>, f: int, j: nat)
    requires names != [] && Walk(fn, start, names[..|names| - 1]) == Place(true, f)
    requires 0 <= f < |fn| && j < |fn[f].fterms| && fn[f].fterms[j].used && fn[f].fterms[j].name == names[|names| - 1]
    requires forall k :: 0 <= k < j ==> !(fn[f].fterms[k].used && fn[f].fterms[k].name == names[|names| - 1])
    ensures Walk(fn, start, names) == Place(true, fn[f].fterms[j].fnode)
  {
    WalkInTwo(fn, start, names);
    OneStep(fn, f, names[|names| - 1], j);
  }

  lemma OneStep(fn: seq<FNode>, f: int, name: string, j: nat)
    requires 0 <= f < |fn| && j < |fn[f].fterms| && fn[f].fterms[j].used && fn[f].fterms[j].name == name
    requires forall k :: 0 <= k < j ==> !(fn[f].fterms[k].used && fn[f].fterms[k].name == name)
    ensures Walk(fn, f, [name]) == Place(true, fn[f].fterms[j].fnode)
  {
    AnySlotIs(fn[f].fterms, name, 0, j);
    assert [name][1..] == [];
  }

  /** The path that a folder was made by leads to it. */
  lemma MadeIsReached(v: View, start: int, names: seq<string>, i: int, c: int)
    requires TreeInv(v, {}) && start in v.live && Rooted(v, start)
    requires names != [] && (forall k :: 0 <= k < |names| ==> names[k] != "") && !Dotted(names[|names| - 1])
    requires var p := Walk(v.fn, start, names[..|names| - 1]);
             p.ok && CanLink(v, p.folder, i, names[|names| - 1]) && 0 < c < FNODE_NUM && c !in v.live
    ensures var p := Walk(v.fn, start, names[..|names| - 1]);
            Walk(Grow(v, p.folder, i, names[|names| - 1], c).fn, start, names) == Place(true, c)
  {
    hide Walk, LinksInv, NodeOk, Under;
    var init, n := names[..|names| - 1], names[|names| - 1];
    var f := Walk(v.fn, start, init).folder;
    var fn := Grow(v, f, i, n, c).fn;
    WalkStays(v, f, i, n, c, start, init);
    NewSlotIs(v, f, i, n, c);
    StepInto(fn, start, names, f, i);
  }

  /** The new slot is the first of its name. */
  lemma NewSlotIs(v: View, f: int, i: int, name: string, c: int)
    requires TreeInv(v, {}) && CanLink(v, f, i, name) && 0 < c < FNODE_NUM && c !in v.live && !Dotted(name)
    ensures var ts := Grow(v, f, i, name, c).fn[f].fterms;
            && |ts| == FTERM_NUM && ts[i] == FTerm(true, name, c)
            && forall k :: 0 <= k < i ==> !(ts[k].used && ts[k].name == name)
  {
    assert NodeOk(v.fn[f], f, v.par[f]);
  }

  /** The child of that name is where the path leads. */
  lemma NamedIsReached(v: View, start: int, names: seq<string>, i: int)
    requires TreeInv(v, {}) && start in v.live && Rooted(v, start)
    requires names != [] && (forall k :: 0 <= k < |names| ==> names[k] != "") && !Dotted(names[|names| - 1])
    requires var p := Walk(v.fn, start, names[..|names| - 1]);
             && p.ok && p.folder in v.live && |v.fn[p.folder].fterms| == FTERM_NUM && SUB <= i < FTERM_NUM
             && v.fn[p.folder].fterms[i].used && v.fn[p.folder].fterms[i].name == names[|names| - 1]
    ensures var p := Walk(v.fn, start, names[..|names| - 1]);
            Walk(v.fn, start, names) == Place(true, v.fn[p.folder].fterms[i].fnode)
  {
    var f := Walk(v.fn, start, names[..|names| - 1]).folder;
    assert NodeOk(v.fn[f], f, v.par[f]);
    StepInto(v.fn, start, names, f, i);
  }
}
