/**
  A deletion that fails.  delete_folder refuses the names "." and "..", which create_folder gives
  out, so a recursive deletion stops at the first folder of such a name.  By then the folders
  before it in slot order are gone; those above it, up to the one that was to be deleted, have
  lost their files and their names but not their bits.
 */
module PsvAbandon {
  import opened PsvLayout
  import opened PsvTree
  import opened PsvBlocks
  import opened PsvSteps
  import opened PsvReach
  import opened PsvPrune

  /** The folders from `c` down to the parent of `x`. */
  ghost function Stuck(v: View, c: int, x: int): set<int> {
    set s | s in v.live && Under(v.par, v.depth, v.lost, c, s) && s != x && Under(v.par, v.depth, v.lost, s, x)
  }

  /** The child of `s` on the way down to `x`, and its slot. */
  ghost function Toward(v: View, s: int, x: int): int
    requires s != x && Under(v.par, v.depth, v.lost, s, x)
  {
    Branch(v.par, v.depth, v.lost, s, x)
  }

  ghost function SlotToward(v: View, s: int, x: int): int {
    if s != x && Under(v.par, v.depth, v.lost, s, x) && 0 <= Toward(v, s, x) < |v.pos| then
      v.pos[Toward(v, s, x)]
    else 0
  }

  /** What hangs from the folders above `x` before the way down to it. */
  ghost function Gone(v: View, c: int, x: int): set<int> {
    set g | g in v.live && exists s :: PassedAt(v, c, x, s, g)
  }

  ghost predicate PassedAt(v: View, c: int, x: int, s: int, g: int) {
    s in Stuck(v, c, x) && g in Lopped(v, s, SlotToward(v, s, x))
  }

  ghost predicate FirstDotted(v: View, c: int, x: int)
    requires Sized(v) && x in v.live
  {
    && x != c && Under(v.par, v.depth, v.lost, c, x) && CalledDotted(v, x)
    && (forall g {:trigger CalledDotted(v, g)} :: g in Gone(v, c, x) ==> !CalledDotted(v, g))
    && (forall s {:trigger CalledDotted(v, s)} :: s in Stuck(v, c, x) && s != c ==> !CalledDotted(v, s))
  }

  /** What is left of a folder node: no files, and no children in the slots below `j`, nor in
      slot `j` itself unless the child there is kept. */
  ghost predicate HuskOf(n: FNode, m: FNode, j: int, keep: bool) {
    && |n.fterms| == |m.fterms| == FTERM_NUM && |n.iterms| == |m.iterms| == ITERM_NUM
    && (forall k :: 0 <= k < FTERM_NUM ==>
          m.fterms[k] == if SUB <= k < j || (k == j && !keep) then n.fterms[k].(used := false) else n.fterms[k])
    && (forall k :: 0 <= k < ITERM_NUM ==> m.iterms[k] == n.iterms[k].(used := false))
  }

  ghost predicate AreHusks(v: View, w: View, c: int, x: int)
    requires Sized(v) && Sized(w)
  {
    forall s {:trigger w.fn[s]} :: s in Stuck(v, c, x) ==>
      s in w.live && HuskOf(v.fn[s], w.fn[s], SlotToward(v, s, x), s == v.par[x]) && NodeOk(w.fn[s], s, w.par[s])
  }

  /** `w` is `v` after the deletion of the child in slot `i` of `f` stopped at folder `x`. */
  ghost predicate Abandoned(v: View, w: View, f: int, i: int, x: int)
    requires Sized(v) && f in v.live && 0 <= i < |v.fn[f].fterms|
  {
    var c := v.fn[f].fterms[i].fnode;
    var gone, stuck := Gone(v, c, x), Stuck(v, c, x);
    && x in v.live && FirstDotted(v, c, x)
    && Pruned(v, w, gone, FilesOf(v, gone + stuck), {f} + stuck)
    && w.lost == v.lost + stuck
    && f in w.live && w.fn[f] == Unlink(v.fn[f], i)
    && AreHusks(v, w, c, x)
  }

  /** When delete_folder succeeds on the child in slot `i` of `f`, where -1 is no child of the name. */
  ghost predicate CanErase(v: View, f: int, i: int)
    requires Sized(v) && f in v.live && -1 <= i < |v.fn[f].fterms|
  {
    i != -1 && !Dotted(v.fn[f].fterms[i].name) && Clean(v, v.fn[f].fterms[i].fnode)
  }

  // ----- the way down, one folder at a time

  lemma {:induction false} UnderBoth(par: seq<int>, depth: seq<nat>, lost: set<int>, c: int, g: int)
    requires Under(par, depth, lost, c, g) && Under(par, depth, lost, g, c)
    ensures c == g
  {
    if c != g {
      UnderIsDeeper(par, depth, lost, c, g);
      UnderIsDeeper(par, depth, lost, g, c);
    }
  }

  /** Two folders above a third are one above the other. */
  lemma {:induction false} Comparable(par: seq<int>, depth: seq<nat>, lost: set<int>, s: int, t: int, x: int)
    requires Under(par, depth, lost, s, x) && Under(par, depth, lost, t, x)
    ensures Under(par, depth, lost, s, t) || Under(par, depth, lost, t, s)
    decreases if 0 <= x < |depth| then depth[x] else 0
  {
    if s != x && t != x {
      Comparable(par, depth, lost, s, t, par[x]);
    }
  }

  /** The dotted folder is a child of `c`. */
  lemma StuckAtChild(v: View, c: int, x: int)
    requires Sized(v) && |v.par| == |v.depth| && c in v.live && x in v.live && x != c
    requires Under(v.par, v.depth, v.lost, c, x) && v.par[x] == c
    ensures Stuck(v, c, x) == {c} && SlotToward(v, c, x) == v.pos[x]
    ensures Gone(v, c, x) == Lopped(v, c, v.pos[x])
  {
    UnderIsDeeper(v.par, v.depth, v.lost, c, x);
    assert c in Stuck(v, c, x);
    forall s | s in Stuck(v, c, x)
      ensures s == c
    {
      UnderBoth(v.par, v.depth, v.lost, c, s);
    }
    assert Toward(v, c, x) == x;
    forall g | g in Lopped(v, c, v.pos[x])
      ensures g in Gone(v, c, x)
    {
      assert PassedAt(v, c, x, c, g);
    }
  }

  /** A folder above `x` and not below the child `d` of `c` is at `c` or higher. */
  lemma StuckIsBelow(v: View, c: int, d: int, x: int, s: int)
    requires Sized(v) && d in v.live && Under(v.par, v.depth, v.lost, c, d) && d != c && v.par[d] == c
    requires Under(v.par, v.depth, v.lost, d, x) && s in Stuck(v, c, x) && s != c
    ensures s in Stuck(v, d, x)
  {
    Comparable(v.par, v.depth, v.lost, s, d, x);
    if Under(v.par, v.depth, v.lost, s, d) && s != d {
      UnderBoth(v.par, v.depth, v.lost, c, s);
    }
  }

  /** The dotted folder is further down, below the child `d`. */
  lemma StuckBelow(v: View, c: int, d: int, x: int)
    requires Sized(v) && c in v.live && d in v.live && x in v.live
    requires Under(v.par, v.depth, v.lost, c, d) && d != c && v.par[d] == c
    requires Under(v.par, v.depth, v.lost, d, x) && x != d
    ensures x != c && Under(v.par, v.depth, v.lost, c, x) && v.par[x] != c
    ensures Stuck(v, c, x) == {c} + Stuck(v, d, x) && c !in Stuck(v, d, x)
    ensures SlotToward(v, c, x) == v.pos[d]
    ensures Gone(v, c, x) == Lopped(v, c, v.pos[d]) + Gone(v, d, x)
  {
    BranchOfChild(v.par, v.depth, v.lost, c, d, x);
    UnderIsDeeper(v.par, v.depth, v.lost, c, d);
    UnderIsDeeper(v.par, v.depth, v.lost, d, x);
    StuckBelowIs(v, c, d, x);
    forall g | g in Lopped(v, c, v.pos[d]) + Gone(v, d, x)
      ensures g in Gone(v, c, x)
    {
      if g in Lopped(v, c, v.pos[d]) {
        assert PassedAt(v, c, x, c, g);
      } else {
        var s :| PassedAt(v, d, x, s, g);
        assert PassedAt(v, c, x, s, g);
      }
    }
    forall g | g in Gone(v, c, x)
      ensures g in Lopped(v, c, v.pos[d]) + Gone(v, d, x)
    {
      var s :| PassedAt(v, c, x, s, g);
      if s != c { assert PassedAt(v, d, x, s, g); }
    }
  }

  lemma StuckBelowIs(v: View, c: int, d: int, x: int)
    requires Sized(v) && c in v.live && d in v.live && x in v.live
    requires Under(v.par, v.depth, v.lost, c, d) && d != c && v.par[d] == c
    requires Under(v.par, v.depth, v.lost, d, x) && x != d
    ensures Stuck(v, c, x) == {c} + Stuck(v, d, x) && c !in Stuck(v, d, x) && v.par[x] != c
  {
    BranchOfChild(v.par, v.depth, v.lost, c, d, x);
    UnderIsDeeper(v.par, v.depth, v.lost, c, d);
    UnderIsDeeper(v.par, v.depth, v.lost, d, x);
    forall s | s in Stuck(v, d, x)
      ensures s in Stuck(v, c, x) && s != c
    {
      BranchOfChild(v.par, v.depth, v.lost, c, d, s);
    }
    forall s | s in Stuck(v, c, x) && s != c
      ensures s in Stuck(v, d, x)
    {
      StuckIsBelow(v, c, d, x, s);
    }
  }

  // ----- the same, as the deletion comes to it

  /** Nothing at or below `d` has gone yet. */
  ghost predicate SameBelow(v: View, w: View, d: int) {
    && w.par == v.par && w.depth == v.depth && w.pos == v.pos && w.lost == v.lost && w.live <= v.live
    && forall g :: g in Subtree(v, d) ==> g in w.live
  }

  lemma SameStuck(v: View, w: View, d: int, x: int)
    requires Sized(v) && Sized(w) && SameBelow(v, w, d) && x in v.live && d in v.live
    ensures Subtree(w, d) == Subtree(v, d) && Stuck(w, d, x) == Stuck(v, d, x) && Gone(w, d, x) == Gone(v, d, x)
    ensures forall s :: SlotToward(w, s, x) == SlotToward(v, s, x)
  {
    forall s | s in Stuck(v, d, x)
      ensures Lopped(w, s, SlotToward(w, s, x)) == Lopped(v, s, SlotToward(v, s, x))
    {
      forall g | g in Lopped(v, s, SlotToward(v, s, x))
        ensures g in w.live
      {
        UnderTrans(v.par, v.depth, v.lost, d, s, g);
        assert g in Subtree(v, d);
      }
    }
    forall s, g
      ensures PassedAt(w, d, x, s, g) <==> PassedAt(v, d, x, s, g)
    {
      assert s in Stuck(v, d, x) ==> s in Subtree(v, d);
    }
  }

  /** Where the loop over the subfolders of `c` stopped: `v` before it, `w` now. */
  ghost predicate Halted(v: View, w: View, detached: set<int>, c: int, x: int)
    requires Sized(v)
  {
    var gone, below, j := Gone(v, c, x), Stuck(v, c, x) - {c}, SlotToward(v, c, x);
    && Inv(w, detached) && c in v.live && c in w.live && c in Stuck(v, c, x)
    && x in v.live && FirstDotted(v, c, x)
    && Pruned(v, w, gone, FilesOf(v, gone + below), {c} + below)
    && w.lost == v.lost + below
    && |v.fn[c].fterms| == FTERM_NUM && w.fn[c].iterms == v.fn[c].iterms
    && (forall k :: 0 <= k < FTERM_NUM ==>
          w.fn[c].fterms[k] ==
            if SUB <= k < j || (k == j && c != v.par[x]) then v.fn[c].fterms[k].(used := false) else v.fn[c].fterms[k])
    && (forall s {:trigger w.fn[s]} :: s in below ==>
          s in w.live && HuskOf(v.fn[s], w.fn[s], SlotToward(v, s, x), s == v.par[x]))
  }

  /** The child in slot `j` has a dotted name itself. */
  lemma HaltedHere(v: View, w: View, detached: set<int>, c: int, j: int)
    requires Inv(v, detached) && c in v.live && ShallowDetached(v, detached, c)
    requires SUB <= j < FTERM_NUM && ChildrenDone(v, w, detached, c, j) && w.fn[c].fterms[j].used
    requires Dotted(w.fn[c].fterms[j].name)
    ensures Halted(v, w, detached, c, v.fn[c].fterms[j].fnode)
  {
    var d := v.fn[c].fterms[j].fnode;
    assert NamesChild(v, detached, c, j);
    StuckAtChild(v, c, d);
    assert Stuck(v, c, d) - {c} == {};
    assert Lopped(v, c, j) + {} == Lopped(v, c, j);
  }

  /** What is stuck and gone below the child in slot `j`, seen from `c`. */
  lemma HaltedSets(v: View, w: View, detached: set<int>, c: int, j: int, x: int)
    requires Inv(v, detached) && c in v.live && ShallowDetached(v, detached, c)
    requires SUB <= j < FTERM_NUM && ChildrenDone(v, w, detached, c, j) && w.fn[c].fterms[j].used
    requires var d := w.fn[c].fterms[j].fnode;
             x in w.live && x != d && Under(w.par, w.depth, w.lost, d, x)
    ensures var d := w.fn[c].fterms[j].fnode;
            && Gone(v, c, x) == Lopped(v, c, j) + Gone(w, d, x) && Stuck(v, c, x) == {c} + Stuck(w, d, x)
            && c !in Stuck(w, d, x) && c in Stuck(v, c, x)
            && Lopped(v, c, j) !! Gone(w, d, x) + Stuck(w, d, x)
            && Gone(w, d, x) + Stuck(w, d, x) <= Subtree(v, d)
    ensures x != c && Under(v.par, v.depth, v.lost, c, x) && v.par[x] != c && SlotToward(v, c, x) == j
    ensures forall s :: SlotToward(w, s, x) == SlotToward(v, s, x)
  {
    hide CalledDotted, NodeOk, BlocksPruned;
    var d := v.fn[c].fterms[j].fnode;
    assert NamesChild(v, detached, c, j);
    LoppedGrows(v, detached, c, j);
    SameStuck(v, w, d, x);
    StuckBelow(v, c, d, x);
    GoneIsBelow(v, d, x);
  }

  /** The deletion of the child in slot `j` stopped at a folder below. */
  lemma HaltedBelow(v: View, w: View, y: View, detached: set<int>, c: int, j: int, x: int)
    requires Inv(v, detached) && c in v.live && ShallowDetached(v, detached, c)
    requires SUB <= j < FTERM_NUM && ChildrenDone(v, w, detached, c, j) && w.fn[c].fterms[j].used
    requires !Dotted(w.fn[c].fterms[j].name)
    requires Inv(y, detached) && Abandoned(w, y, c, j, x)
    ensures Halted(v, y, detached, c, x)
  {
    hide CalledDotted, NodeOk, BlocksPruned, Stuck, Gone, Lopped, Subtree, SlotToward;
    var d := w.fn[c].fterms[j].fnode;
    HaltedSets(v, w, detached, c, j, x);
    HaltedNames(v, w, detached, c, j, x);
    var below := Stuck(w, d, x);
    PruneTwice(v, w, y, c, Lopped(v, c, j), Gone(w, d, x), below);
    assert Stuck(v, c, x) - {c} == below;
    forall s | s in below
      ensures s in y.live && HuskOf(v.fn[s], y.fn[s], SlotToward(v, s, x), s == v.par[x])
    {
      assert s in Subtree(v, d) && s in w.live && w.fn[s] == v.fn[s];
    }
  }

  /** What hung from the slots before, then what went below the child. */
  lemma PruneTwice(v: View, w: View, y: View, c: int, lop: set<int>, gone: set<int>, below: set<int>)
    requires Sized(v) && Sized(w) && Pruned(v, w, lop, FilesOf(v, lop), {c})
    requires Pruned(w, y, gone, FilesOf(w, gone + below), {c} + below) && lop !! gone + below
    ensures Pruned(v, y, lop + gone, FilesOf(v, lop + gone + below), {c} + below)
  {
    assert FilesOf(v, lop + gone + below) == FilesOf(v, lop) + FilesOf(w, gone + below);
    assert Pruned(v, w, lop, FilesOf(v, lop), {c} + below);
    PrunedTrans(v, w, y, lop, gone, FilesOf(v, lop), FilesOf(w, gone + below), {c} + below,
                lop + gone, FilesOf(v, lop + gone + below));
  }

  lemma GoneIsBelow(v: View, d: int, x: int)
    ensures Gone(v, d, x) + Stuck(v, d, x) <= Subtree(v, d) && d !in Gone(v, d, x)
  {
    forall g | g in Gone(v, d, x)
      ensures g in Subtree(v, d) && g != d
    {
      var s :| PassedAt(v, d, x, s, g);
      UnderTrans(v.par, v.depth, v.lost, d, s, g);
      if g == d { UnderBoth(v.par, v.depth, v.lost, d, s); }
    }
  }

  lemma HaltedNames(v: View, w: View, detached: set<int>, c: int, j: int, x: int)
    requires Inv(v, detached) && c in v.live && ShallowDetached(v, detached, c)
    requires SUB <= j < FTERM_NUM && ChildrenDone(v, w, detached, c, j) && w.fn[c].fterms[j].used
    requires !Dotted(w.fn[c].fterms[j].name)
    requires x in w.live && FirstDotted(w, w.fn[c].fterms[j].fnode, x)
    ensures FirstDotted(v, c, x)
  {
    hide Stuck, Gone, Lopped, SlotToward, NodeOk;
    var d := v.fn[c].fterms[j].fnode;
    assert NamesChild(v, detached, c, j);
    HaltedSets(v, w, detached, c, j, x);
    SameCalled(v, w, detached, c, j, x);
    forall g | g in Gone(w, d, x)
      ensures !CalledDotted(v, g)
    {
      SameCalled(v, w, detached, c, j, g);
    }
    forall s | s in Stuck(w, d, x)
      ensures !CalledDotted(v, s)
    {
      SameCalled(v, w, detached, c, j, s);
    }
  }

  // ----- the whole failed deletion

  /** The views of a failed delete_folder: `v` before, `v1` with the child detached, `v2` with its
      files gone, `v3` where the loop over its subfolders stopped at `x`. */
  ghost predicate HaltPhases(v: View, v1: View, v2: View, v3: View, detached: set<int>, f: int, i: int, x: int)
    requires Sized(v)
  {
    && f in v.live && |v.fn[f].fterms| == FTERM_NUM && SUB <= i < FTERM_NUM && v.fn[f].fterms[i].used
    && v1 == Detach(v, f, i)
    && var c := v.fn[f].fterms[i].fnode;
       && Sized(v1) && FilesDone(v1, v2, detached + {c}, c, ITERM_NUM)
       && Sized(v2) && Halted(v2, v3, detached + {c}, c, x)
  }

  /** Up to the loop nothing below `c` has moved. */
  lemma HaltedFirst(v: View, v1: View, v2: View, v3: View, detached: set<int>, f: int, i: int, x: int)
    requires Inv(v, detached) && f in v.live && ShallowDetached(v, detached, f)
    requires HaltPhases(v, v1, v2, v3, detached, f, i, x)
    ensures var c := v.fn[f].fterms[i].fnode;
            && Gone(v2, c, x) == Gone(v, c, x) && Stuck(v2, c, x) == Stuck(v, c, x)
            && (forall s :: SlotToward(v2, s, x) == SlotToward(v, s, x))
            && x in v.live && FirstDotted(v, c, x)
            && Gone(v, c, x) + Stuck(v, c, x) <= Subtree(v, c) && f !in Subtree(v, c)
  {
    var c := v.fn[f].fterms[i].fnode;
    hide NodeOk, BlocksPruned, HuskOf, Lopped;
    DetachKeepsLinks(v, detached, f, i);
    SameStuck(v, v2, c, x);
    GoneIsBelow(v, c, x);
    SameCalledAfterFiles(v, v1, v2, detached, f, i, x);
    forall g | g in Gone(v, c, x) + Stuck(v, c, x) && g != c
      ensures CalledDotted(v2, g) == CalledDotted(v, g)
    {
      SameCalledAfterFiles(v, v1, v2, detached, f, i, g);
    }
    if f in Subtree(v, c) { UnderIsDeeper(v.par, v.depth, v.lost, c, f); }
  }

  lemma HaltedPrunes(v: View, v1: View, v2: View, v3: View, c: int, f: int, below: set<int>, gone: set<int>)
    requires FileInv(v) && Sized(v1) && Sized(v2)
    requires Pruned(v, v1, {}, {}, {f}) && Pruned(v1, v2, {}, FilesBelow(v1, c, ITERM_NUM), {c})
    requires Pruned(v2, v3, gone, FilesOf(v2, gone + below), {c} + below) && c !in gone + below
    ensures Pruned(v, v3, gone, FilesOf(v, gone + ({c} + below)), {f} + ({c} + below))
  {
    var here, there := FilesBelow(v1, c, ITERM_NUM), FilesOf(v2, gone + below);
    forall k | k in v.files
      ensures v.io[k] < ITERM_NUM
    {
      assert HasFile(v.fn[v.fo[k]], v.io[k], k);
    }
    assert FilesOf(v, gone + ({c} + below)) == here + there;
    var t := {f} + ({c} + below);
    assert Pruned(v, v1, {}, {}, t) && Pruned(v1, v2, {}, here, t) && Pruned(v2, v3, gone, there, t);
    PrunedTrans(v1, v2, v3, {}, gone, here, there, t, gone, here + there);
    PrunedTrans(v, v1, v3, {}, gone, {}, here + there, t, gone, here + there);
  }

  lemma LostKeepsPruned(v: View, w: View, lost: set<int>, folders: set<int>, files: set<int>, touched: set<int>)
    requires Pruned(v, w, folders, files, touched) && InodeInv(w.(lost := lost))
    requires BlockInv(w) ==> BlockInv(w.(lost := lost))
    ensures Pruned(v, w.(lost := lost), folders, files, touched)
  {
  }

  lemma HusksAddUp(v: View, v1: View, v2: View, v3: View, w: View, detached: set<int>, f: int, i: int, x: int)
    requires Inv(v, detached) && f in v.live && HaltPhases(v, v1, v2, v3, detached, f, i, x)
    requires NodesInv(w) && w.live == v3.live && w.fn == v3.fn && w.par == v3.par
    requires f !in Stuck(v, v.fn[f].fterms[i].fnode, x)
    requires var c := v.fn[f].fterms[i].fnode;
             Stuck(v2, c, x) == Stuck(v, c, x) && forall s :: SlotToward(v2, s, x) == SlotToward(v, s, x)
    ensures AreHusks(v, w, v.fn[f].fterms[i].fnode, x)
  {
    hide CalledDotted, BlocksPruned, SlotToward, Gone, LinksInv, FileInv, InodeInv, FirstDotted;
    var c := v.fn[f].fterms[i].fnode;
    forall s | s in Stuck(v, c, x)
      ensures s in w.live && HuskOf(v.fn[s], w.fn[s], SlotToward(v, s, x), s == v.par[x])
              && NodeOk(w.fn[s], s, w.par[s])
    {
      assert s in v.live && s != f;
      assert NodeOk(w.fn[s], s, w.par[s]);
      assert NodeOk(v.fn[s], s, v.par[s]);
      if s != c { assert v2.fn[s] == v.fn[s]; }
    }
  }

  /** The phases add up: what comes before `x` is gone, the folders above it are empty and lost. */
  lemma AbandonAddsUp(v: View, v1: View, v2: View, v3: View, detached: set<int>, f: int, i: int, x: int)
    requires Inv(v, detached) && f in v.live && ShallowDetached(v, detached, f)
    requires HaltPhases(v, v1, v2, v3, detached, f, i, x) && v.fn[f].fterms[i].fnode !in detached
    ensures var w := v3.(lost := v3.lost + {v.fn[f].fterms[i].fnode});
            Inv(w, detached) && Abandoned(v, w, f, i, x) && f in w.live && w.fn[f] == v1.fn[f]
  {
    hide CalledDotted, BlocksPruned, SlotToward, Stuck, Gone, AreHusks, NodeOk, FirstDotted;
    var c := v.fn[f].fterms[i].fnode;
    var w := v3.(lost := v3.lost + {c});
    DetachKeeps(v, detached, f, i);
    DetachKeepsLinks(v, detached, f, i);
    HaltedFirst(v, v1, v2, v3, detached, f, i, x);
    AbandonKeeps(v3, detached, c);
    var gone, below := Gone(v, c, x), Stuck(v, c, x) - {c};
    assert {c} + below == Stuck(v, c, x);
    GoneIsBelow(v, c, x);
    HaltedPrunes(v, v1, v2, v3, c, f, below, gone);
    LostKeepsPruned(v, v3, v3.lost + {c}, gone, FilesOf(v, gone + ({c} + below)), {f} + ({c} + below));
    HusksAddUp(v, v1, v2, v3, w, detached, f, i, x);
  }

  lemma AbandonedIsNotClean(v: View, w: View, f: int, i: int, x: int)
    requires Sized(v) && f in v.live && 0 <= i < |v.fn[f].fterms| && Abandoned(v, w, f, i, x)
    ensures !Clean(v, v.fn[f].fterms[i].fnode)
  {
    assert CalledDotted(v, x);
  }

  // ----- what a failed deletion keeps

  /** A failed deletion as a step: the slot names a child, and the deletion stopped at `x`. */
  ghost predicate Fails(v: View, w: View, f: int, i: int, x: int)
    requires Inv(v, {})
  {
    && f in v.live && SUB <= i < FTERM_NUM && v.fn[f].fterms[i].used
    && Sized(w) && Abandoned(v, w, f, i, x)
  }

  lemma GoneIsClosed(v: View, c: int, x: int, g: int)
    requires LinksInv(v, {}) && g in v.live && g != ROOT && g !in v.lost && v.par[g] in Gone(v, c, x)
    ensures g in Gone(v, c, x)
  {
    var s :| PassedAt(v, c, x, s, v.par[g]);
    UnderIsDeeper(v.par, v.depth, v.lost, s, v.par[g]);
    assert PassedAt(v, c, x, s, g);
  }

  /** What is gone hung from what is gone too, or from a stuck folder before the way down. */
  lemma GoneParent(v: View, c: int, x: int, g: int)
    requires LinksInv(v, {}) && g in Gone(v, c, x)
    ensures v.par[g] in Gone(v, c, x) || (v.par[g] in Stuck(v, c, x) && v.pos[g] < SlotToward(v, v.par[g], x))
  {
    var s :| PassedAt(v, c, x, s, g);
    if v.par[g] != s {
      assert PassedAt(v, c, x, s, v.par[g]);
    }
  }

  lemma GoneChild(v: View, c: int, x: int, d: int)
    requires LinksInv(v, {}) && d in v.live && d != ROOT && d !in v.lost
    requires v.par[d] in Stuck(v, c, x) && v.pos[d] < SlotToward(v, v.par[d], x)
    ensures d in Gone(v, c, x)
  {
    assert Under(v.par, v.depth, v.lost, v.par[d], d);
    assert PassedAt(v, c, x, v.par[d], d);
  }

  /** A stuck folder hangs from another one at the slot on the way down, unless it is the topmost. */
  lemma StuckParent(v: View, c: int, x: int, d: int)
    requires LinksInv(v, {}) && x in v.live && d in Stuck(v, c, x) && d != c
    ensures v.par[d] in Stuck(v, c, x) && SlotToward(v, v.par[d], x) == v.pos[d] && v.par[d] != v.par[x]
  {
    var p := v.par[d];
    UnderIsDeeper(v.par, v.depth, v.lost, c, d);
    UnderIsDeeper(v.par, v.depth, v.lost, d, x);
    assert Under(v.par, v.depth, v.lost, p, d);
    BranchOfChild(v.par, v.depth, v.lost, p, d, x);
    if p == v.par[x] { UnderIsDeeper(v.par, v.depth, v.lost, d, x); }
  }

  /** The folder on the way down from a stuck one is stuck too, or is `x`. */
  lemma TowardIsStuck(v: View, c: int, x: int, p: int)
    requires LinksInv(v, {}) && x in v.live && p in Stuck(v, c, x)
    ensures var t := Toward(v, p, x);
            && t in v.live && t != ROOT && t !in v.lost && v.par[t] == p && SlotToward(v, p, x) == v.pos[t]
            && (t == x <==> p == v.par[x]) && (t != x ==> t in Stuck(v, c, x))
  {
    var t := Toward(v, p, x);
    BranchFacts(v.par, v.depth, v.lost, p, x);
    BranchIsLive(v.live, v.par, v.depth, v.lost, p, x);
    UnderTrans(v.par, v.depth, v.lost, c, p, t);
    if t != x { UnderIsDeeper(v.par, v.depth, v.lost, t, x); }
  }

  lemma FailsFacts(v: View, w: View, f: int, i: int, x: int)
    requires Inv(v, {}) && Fails(v, w, f, i, x)
    ensures var c := v.fn[f].fterms[i].fnode;
            && c in Stuck(v, c, x) && c != ROOT && v.par[c] == f && v.pos[c] == i
            && f !in Stuck(v, c, x) && f !in Gone(v, c, x) && ROOT !in Stuck(v, c, x) && ROOT !in Gone(v, c, x)
            && v.lost !! Gone(v, c, x) && f !in Subtree(v, c)
  {
    var c := v.fn[f].fterms[i].fnode;
    assert NamesChild(v, {}, f, i);
    GoneIsBelow(v, c, x);
    if f in Subtree(v, c) { UnderIsDeeper(v.par, v.depth, v.lost, c, f); }
    forall g | g in Gone(v, c, x)
      ensures g !in v.lost
    {
      assert g in Subtree(v, c) && g != c;
    }
  }

  lemma FailsKeepsNodes(v: View, w: View, f: int, i: int, x: int)
    requires Inv(v, {}) && Fails(v, w, f, i, x)
    ensures NodesInv(w)
  {
    forall g | g in w.live
      ensures NodeOk(w.fn[g], g, w.par[g])
    {
      assert NodeOk(v.fn[g], g, v.par[g]);
      if g == f { UnlinkKeepsNode(v.fn[f], f, v.par[f], i); }
    }
  }

  /** A slot that is still in use names a folder that is still there. */
  lemma FailsKeepsSlot(v: View, w: View, f: int, i: int, x: int, g: int, j: int)
    requires Inv(v, {}) && Fails(v, w, f, i, x) && g in w.live && SUB <= j < FTERM_NUM
    requires |w.fn[g].fterms| == FTERM_NUM && w.fn[g].fterms[j].used
    ensures NamesChild(w, {}, g, j)
  {
    var c := v.fn[f].fterms[i].fnode;
    FailsFacts(v, w, f, i, x);
    assert w.fn[g].fterms[j] == v.fn[g].fterms[j];
    assert NamesChild(v, {}, g, j);
    var d := v.fn[g].fterms[j].fnode;
    if d in Stuck(v, c, x) && d != c { StuckParent(v, c, x, d); }
    if d in Gone(v, c, x) { GoneParent(v, c, x, d); }
  }

  /** A folder that is still there and not lost is still named. */
  lemma FailsKeepsName(v: View, w: View, f: int, i: int, x: int, d: int)
    requires Inv(v, {}) && Fails(v, w, f, i, x) && d in w.live && d != ROOT && d !in w.lost
    ensures v.par[d] in w.live && |w.fn[v.par[d]].fterms| == FTERM_NUM && IsNamed(w, d)
  {
    var c, p := v.fn[f].fterms[i].fnode, v.par[d];
    FailsFacts(v, w, f, i, x);
    assert IsNamed(v, d);
    if p in Gone(v, c, x) { GoneIsClosed(v, c, x, d); }
    if p in Stuck(v, c, x) {
      TowardIsStuck(v, c, x, p);
      var t := Toward(v, p, x);
      assert IsNamed(v, t);
      if v.pos[d] < SlotToward(v, p, x) { GoneChild(v, c, x, d); }
    }
  }

  lemma FailsKeepsLinks(v: View, w: View, f: int, i: int, x: int)
    requires Inv(v, {}) && Fails(v, w, f, i, x)
    ensures LinksInv(w, {})
  {
    FailsFacts(v, w, f, i, x);
    FailsKeepsNodes(v, w, f, i, x);
    forall g | g in w.live
      ensures |w.fn[g].fterms| == FTERM_NUM
    {
      assert NodeOk(w.fn[g], g, w.par[g]);
    }
    forall s | s in w.lost
      ensures s in w.live
    {
      if s in Stuck(v, v.fn[f].fterms[i].fnode, x) { assert w.fn[s] == w.fn[s]; }
    }
    FailsKeepsRest(v, w, f, i, x);
  }

  lemma FailsKeepsRest(v: View, w: View, f: int, i: int, x: int)
    requires Inv(v, {}) && Fails(v, w, f, i, x)
    requires ROOT in w.live && ROOT !in w.lost && w.lost <= w.live && w.live <= v.live && v.lost <= w.lost
    requires w.par == v.par && w.depth == v.depth
    requires forall g {:trigger w.fn[g]} :: g in w.live ==> |w.fn[g].fterms| == FTERM_NUM
    ensures LinksInv(w, {})
  {
    hide Abandoned, NodeOk;
    forall d | d in w.live && d != ROOT && d !in w.lost
      ensures w.par[d] in w.live && w.depth[d] == w.depth[w.par[d]] + 1 && IsNamed(w, d)
    {
      FailsKeepsName(v, w, f, i, x, d);
    }
    forall g, j | g in w.live && SUB <= j < FTERM_NUM && w.fn[g].fterms[j].used
      ensures NamesChild(w, {}, g, j)
    {
      FailsKeepsSlot(v, w, f, i, x, g, j);
    }
  }

  lemma FailsKeepsFiles(v: View, w: View, f: int, i: int, x: int)
    requires Inv(v, {}) && Fails(v, w, f, i, x)
    ensures FileInv(w)
  {
    FailsFacts(v, w, f, i, x);
    forall g, j | g in w.live && 0 <= j < ITERM_NUM && |w.fn[g].iterms| == ITERM_NUM && w.fn[g].iterms[j].used
      ensures NamesFile(w, g, j)
    {
      assert v.fn[g].iterms[j] == w.fn[g].iterms[j];
      assert NamesFile(v, g, j);
    }
    forall k | k in w.files
      ensures w.fo[k] in w.live && HasFile(w.fn[w.fo[k]], w.io[k], k)
    {
      assert HasFile(v.fn[v.fo[k]], v.io[k], k);
    }
  }

  /** A failed deletion keeps the tree, with the stuck folders as further tops, the naming of
      files and the ownership of blocks. */
  lemma FailsKeeps(v: View, w: View, f: int, i: int, x: int)
    requires Inv(v, {}) && Fails(v, w, f, i, x)
    ensures Inv(w, {}) && (BlockInv(v) ==> BlockInv(w)) && w.fixed == v.fixed
  {
    FailsKeepsNodes(v, w, f, i, x);
    FailsKeepsLinks(v, w, f, i, x);
    FailsKeepsFiles(v, w, f, i, x);
  }

  lemma {:induction false} RootedOutside(par: seq<int>, depth: seq<nat>, lost: set<int>, more: set<int>, c: int, g: int)
    requires c in more && c != ROOT && forall s :: s in more ==> Under(par, depth, lost, c, s)
    ensures Under(par, depth, lost + more, ROOT, g) <==>
              Under(par, depth, lost, ROOT, g) && !Under(par, depth, lost, c, g)
    decreases if 0 <= g < |depth| then depth[g] else 0
  {
    if g != ROOT && g !in lost && 0 <= g < |par| && g < |depth| && 0 <= par[g] < |depth| && depth[par[g]] < depth[g] {
      RootedOutside(par, depth, lost, more, c, par[g]);
    }
  }

  /** What a failed deletion cuts off: everything at or below the folder to be deleted, though
      only what is gone has lost its bit. */
  lemma FailsCutsOff(v: View, w: View, f: int, i: int, x: int, g: int)
    requires Inv(v, {}) && Fails(v, w, f, i, x) && g in v.live
    ensures Rooted(w, g) <==> Rooted(v, g) && g !in Subtree(v, v.fn[f].fterms[i].fnode)
    ensures g in w.live <==> g !in Gone(v, v.fn[f].fterms[i].fnode, x)
    ensures Gone(v, v.fn[f].fterms[i].fnode, x) < Subtree(v, v.fn[f].fterms[i].fnode)
  {
    var c := v.fn[f].fterms[i].fnode;
    FailsFacts(v, w, f, i, x);
    GoneIsBelow(v, c, x);
    assert c in Subtree(v, c);
    RootedOutside(v.par, v.depth, v.lost, Stuck(v, c, x), c, g);
  }

  /** The folder that the deletion was asked of still hangs where it did. */
  lemma FailsKeepsRooted(v: View, w: View, f: int, i: int, x: int)
    requires Inv(v, {}) && Fails(v, w, f, i, x)
    ensures Rooted(w, f) <==> Rooted(v, f)
  {
    FailsFacts(v, w, f, i, x);
    FailsCutsOff(v, w, f, i, x, f);
  }
}
