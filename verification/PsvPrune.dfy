/** Deleting a folder: the two loops of delete_folder and what they add up to. */
module PsvPrune {
  import opened PsvLayout
  import opened PsvTree
  import opened PsvBlocks
  import opened PsvSteps
  import opened PsvReach

  /** The files that slots of `c` below `n` name. */
  ghost function FilesBelow(v: View, c: int, n: int): set<int>
    requires Sized(v)
  {
    set k | k in v.files && v.fo[k] == c && v.io[k] < n
  }

  /** `w` is `v` with the first `n` file slots of `c` emptied. */
  ghost predicate FilesDone(v: View, w: View, detached: set<int>, c: int, n: int)
    requires Sized(v) && 0 <= n
  {
    && Inv(w, detached)
    && c in w.live && |v.fn[c].iterms| == ITERM_NUM
    && Pruned(v, w, {}, FilesBelow(v, c, n), {c}) && w.lost == v.lost
    && w.fn[c].fterms == v.fn[c].fterms
    && (forall j :: 0 <= j < n && j < ITERM_NUM ==> w.fn[c].iterms[j] == v.fn[c].iterms[j].(used := false))
    && (forall j :: n <= j < ITERM_NUM ==> w.fn[c].iterms[j] == v.fn[c].iterms[j])
  }

  lemma FilesBelowGrow(v: View, c: int, i: int)
    requires FileInv(v) && c in v.live && 0 <= i < ITERM_NUM
    ensures FilesBelow(v, c, i + 1) ==
              FilesBelow(v, c, i) + if v.fn[c].iterms[i].used then {v.fn[c].iterms[i].inode} else {}
    ensures v.fn[c].iterms[i].used ==> v.fn[c].iterms[i].inode !in FilesBelow(v, c, i)
  {
    if v.fn[c].iterms[i].used { assert NamesFile(v, c, i); }
    forall k | k in FilesBelow(v, c, i + 1) && k !in FilesBelow(v, c, i)
      ensures v.fn[c].iterms[i].used && v.fn[c].iterms[i].inode == k
    {
      assert HasFile(v.fn[v.fo[k]], v.io[k], k);
    }
  }

  lemma FilesDoneStart(v: View, detached: set<int>, c: int)
    requires Inv(v, detached) && c in v.live
    ensures FilesDone(v, v, detached, c, 0)
  {
  }

  lemma FilesDoneStep(v: View, w: View, detached: set<int>, c: int, i: int)
    requires Inv(v, detached) && c in v.live && 0 <= i < ITERM_NUM && FilesDone(v, w, detached, c, i)
    ensures w.fn[c].iterms[i].used ==> FilesDone(v, DropFile(w, c, i), detached, c, i + 1)
    ensures !w.fn[c].iterms[i].used ==> FilesDone(v, w, detached, c, i + 1)
  {
    FilesBelowGrow(v, c, i);
    if w.fn[c].iterms[i].used {
      var k := w.fn[c].iterms[i].inode;
      DropFileKeeps(w, detached, c, i);
      assert NamesFile(w, c, i);
      PrunedTrans(v, w, DropFile(w, c, i), {}, {}, FilesBelow(v, c, i), {k}, {c}, {},
                  FilesBelow(v, c, i + 1));
    }
  }

  /** Folder `g` is called "." or "..", which delete_folder refuses. */
  ghost predicate CalledDotted(v: View, g: int)
    requires Sized(v) && g in v.live
  {
    var p, i := v.par[g], v.pos[g];
    0 <= p < FNODE_NUM && 0 <= i < |v.fn[p].fterms| && Dotted(v.fn[p].fterms[i].name)
  }

  /** No folder below `c` is. */
  ghost predicate Clean(v: View, c: int)
    requires Sized(v)
  {
    forall g {:trigger CalledDotted(v, g)} :: g in Subtree(v, c) && g != c ==> !CalledDotted(v, g)
  }

  /** `w` is `v` without what hangs from the first `n` child slots of `c`. */
  ghost predicate ChildrenDone(v: View, w: View, detached: set<int>, c: int, n: int)
    requires Sized(v) && SUB <= n
  {
    && Inv(w, detached)
    && c in w.live && |v.fn[c].fterms| == FTERM_NUM
    && Pruned(v, w, Lopped(v, c, n), FilesOf(v, Lopped(v, c, n)), {c}) && w.lost == v.lost
    && w.fn[c].iterms == v.fn[c].iterms
    && (forall j :: 0 <= j < FTERM_NUM ==>
          w.fn[c].fterms[j] == if SUB <= j < n then v.fn[c].fterms[j].(used := false) else v.fn[c].fterms[j])
    && (forall g {:trigger CalledDotted(v, g)} :: g in Lopped(v, c, n) ==> !CalledDotted(v, g))
  }

  /** `w` is `v` without the child in slot `i` of `f`, everything below it, and the files there. */
  ghost predicate Erased(v: View, w: View, f: int, i: int)
    requires Sized(v) && f in v.live && 0 <= i < |v.fn[f].fterms|
  {
    var c := v.fn[f].fterms[i].fnode;
    && Pruned(v, w, Subtree(v, c), FilesOf(v, Subtree(v, c)), {f}) && w.lost == v.lost
    && f in w.live && w.fn[f] == Unlink(v.fn[f], i)
  }

  lemma ChildrenDoneStart(v: View, detached: set<int>, c: int)
    requires Inv(v, detached) && c in v.live && ShallowDetached(v, detached, c)
    ensures ChildrenDone(v, v, detached, c, SUB)
  {
    LoppedEnds(v, detached, c);
    assert OwnedBy(v, {}) == {} && PartialBlocks(v, {}) == {};
    assert v.owner - {} == v.owner;
    assert FilesOf(v, {}) == {};
  }

  lemma ChildrenDoneSkip(v: View, w: View, detached: set<int>, c: int, i: int)
    requires Inv(v, detached) && c in v.live && ShallowDetached(v, detached, c)
    requires SUB <= i < FTERM_NUM && ChildrenDone(v, w, detached, c, i) && !w.fn[c].fterms[i].used
    ensures ChildrenDone(v, w, detached, c, i + 1)
  {
    LoppedGrows(v, detached, c, i);
  }

  /** Below a child that has not had its turn every folder is still called what it was. */
  lemma SameCalled(v: View, w: View, detached: set<int>, c: int, i: int, g: int)
    requires Inv(v, detached) && c in v.live && ShallowDetached(v, detached, c)
    requires SUB <= i < FTERM_NUM && ChildrenDone(v, w, detached, c, i) && w.fn[c].fterms[i].used
    requires g in Subtree(v, v.fn[c].fterms[i].fnode)
    ensures g in w.live && CalledDotted(w, g) == CalledDotted(v, g)
    ensures g != v.fn[c].fterms[i].fnode ==> v.par[g] in w.live && v.par[g] != c
  {
    LoppedGrows(v, detached, c, i);
    var d := v.fn[c].fterms[i].fnode;
    assert NamesChild(v, detached, c, i);
    if g != d {
      SubtreeIsClosed(v, detached, d, g);
      if v.par[g] != d { UnderIsDeeper(v.par, v.depth, v.lost, d, v.par[g]); }
      assert w.fn[v.par[g]] == v.fn[v.par[g]];
    }
  }

  /** A child found clean when its turn comes was so before. */
  lemma StillClean(v: View, w: View, detached: set<int>, c: int, i: int)
    requires Inv(v, detached) && c in v.live && ShallowDetached(v, detached, c)
    requires SUB <= i < FTERM_NUM && ChildrenDone(v, w, detached, c, i) && w.fn[c].fterms[i].used
    requires !Dotted(w.fn[c].fterms[i].name) && Clean(w, w.fn[c].fterms[i].fnode)
    ensures forall g {:trigger CalledDotted(v, g)} :: g in Subtree(v, v.fn[c].fterms[i].fnode) ==> !CalledDotted(v, g)
  {
    var d := v.fn[c].fterms[i].fnode;
    assert NamesChild(v, detached, c, i);
    forall g | g in Subtree(v, d)
      ensures !CalledDotted(v, g)
    {
      SameCalled(v, w, detached, c, i, g);
      assert g in Subtree(w, d);
    }
  }

  lemma ChildrenDoneStep(v: View, w: View, x: View, detached: set<int>, c: int, i: int)
    requires Inv(v, detached) && c in v.live && ShallowDetached(v, detached, c)
    requires SUB <= i < FTERM_NUM && ChildrenDone(v, w, detached, c, i) && w.fn[c].fterms[i].used
    requires Inv(x, detached) && Erased(w, x, c, i)
    requires !Dotted(w.fn[c].fterms[i].name) && Clean(w, w.fn[c].fterms[i].fnode)
    ensures ChildrenDone(v, x, detached, c, i + 1)
  {
    LoppedGrows(v, detached, c, i);
    StillClean(v, w, detached, c, i);
    var d := v.fn[c].fterms[i].fnode;
    assert Subtree(w, d) == Subtree(v, d);
    FilesKeepFolders(w);
    assert FilesOf(v, Lopped(v, c, i + 1)) == FilesOf(v, Lopped(v, c, i)) + FilesOf(w, Subtree(v, d));
    PrunedTrans(v, w, x, Lopped(v, c, i), Subtree(v, d), FilesOf(v, Lopped(v, c, i)), FilesOf(w, Subtree(v, d)), {c},
                Lopped(v, c, i + 1), FilesOf(v, Lopped(v, c, i + 1)));
  }

  /** The four views of one delete_folder: `v` before, `v1` with the child detached, `v2`
      with its files gone, `v3` with its subfolders gone. */
  ghost predicate ErasePhases(v: View, v1: View, v2: View, v3: View, detached: set<int>, f: int, i: int)
    requires Sized(v)
  {
    && f in v.live && |v.fn[f].fterms| == FTERM_NUM && SUB <= i < FTERM_NUM && v.fn[f].fterms[i].used
    && v1 == Detach(v, f, i)
    && var c := v.fn[f].fterms[i].fnode;
       && Sized(v1) && FilesDone(v1, v2, detached + {c}, c, ITERM_NUM)
       && Sized(v2) && ChildrenDone(v2, v3, detached + {c}, c, FTERM_NUM)
  }

  lemma DetachedIsDeepest(v: View, detached: set<int>, f: int, i: int, w: View, files: set<int>)
    requires Inv(v, detached) && f in v.live && ShallowDetached(v, detached, f)
    requires SUB <= i < FTERM_NUM && v.fn[f].fterms[i].used
    requires var c := v.fn[f].fterms[i].fnode;
      Sized(w) && Pruned(Detach(v, f, i), w, {}, files, {c}) && w.lost == v.lost
    ensures var c := v.fn[f].fterms[i].fnode;
      && c in v.live && c != f && c != ROOT && c !in v.lost && c !in detached && c in w.live && f in w.live
      && v.par[c] == f && v.depth[c] == v.depth[f] + 1
      && ShallowDetached(w, detached + {c}, c)
  {
    DetachKeepsLinks(v, detached, f, i);
  }

  lemma EraseRemoves(v: View, v1: View, v2: View, v3: View, detached: set<int>, f: int, i: int)
    requires Inv(v, detached) && f in v.live && ShallowDetached(v, detached, f)
    requires ErasePhases(v, v1, v2, v3, detached, f, i)
    ensures var c := v.fn[f].fterms[i].fnode;
      && c in v3.live
      && Inv(v3.(live := v3.live - {c}), detached)
      && Pruned(v3, v3.(live := v3.live - {c}), {c}, {}, {c})
  {
    var c := v.fn[f].fterms[i].fnode;
    DetachedIsDeepest(v, detached, f, i, v2, FilesBelow(v1, c, ITERM_NUM));
    assert v3.depth == v2.depth && v3.live <= v2.live;
    RemoveKeeps(v3, detached + {c}, c);
    assert detached + {c} - {c} == detached;
  }

  /** What the phases add up to: the child's whole subtree and the files in it are gone, and
      nothing else is touched but the one slot. */
  lemma EraseAddsUp(v: View, v1: View, v2: View, v3: View, detached: set<int>, f: int, i: int)
    requires Inv(v, detached) && f in v.live && ShallowDetached(v, detached, f)
    requires ErasePhases(v, v1, v2, v3, detached, f, i)
    ensures var w := v3.(live := v3.live - {v.fn[f].fterms[i].fnode});
      Inv(w, detached) && Erased(v, w, f, i) && f in w.live && w.fn[f] == v1.fn[f]
  {
    var c := v.fn[f].fterms[i].fnode;
    var w := v3.(live := v3.live - {c});
    var d := detached + {c};
    DetachKeeps(v, detached, f, i);
    DetachedIsDeepest(v, detached, f, i, v2, FilesBelow(v1, c, ITERM_NUM));
    EraseRemoves(v, v1, v2, v3, detached, f, i);
    LoppedEnds(v2, d, c);
    var s, t := Lopped(v2, c, FTERM_NUM), Subtree(v2, c);
    PrunedTrans(v2, v3, w, s, {c}, FilesOf(v2, s), {}, {c}, t, FilesOf(v2, s));
    EraseFiles(v, v1, v2, f, c);
    PrunedTrans(v1, v2, w, {}, t, FilesBelow(v1, c, ITERM_NUM), FilesOf(v2, s), {c}, t, FilesOf(v, t));
    assert Subtree(v, c) == t;
    assert f !in t by {
      if f in t { UnderIsDeeper(v.par, v.depth, v.lost, c, f); }
    }
    assert Pruned(v1, w, t, FilesOf(v, t), {f});
    PrunedTrans(v, v1, w, {}, t, {}, FilesOf(v, t), {f}, t, FilesOf(v, t));
  }

  /** A folder that could be deleted had no dotted folder below it. */
  lemma EraseIsClean(v: View, v1: View, v2: View, v3: View, detached: set<int>, f: int, i: int)
    requires Inv(v, detached) && f in v.live && ShallowDetached(v, detached, f)
    requires ErasePhases(v, v1, v2, v3, detached, f, i)
    ensures Clean(v, v.fn[f].fterms[i].fnode)
  {
    var c := v.fn[f].fterms[i].fnode;
    DetachKeeps(v, detached, f, i);
    DetachedIsDeepest(v, detached, f, i, v2, FilesBelow(v1, c, ITERM_NUM));
    LoppedEnds(v2, detached + {c}, c);
    forall g | g in Subtree(v, c) && g != c
      ensures !CalledDotted(v, g)
    {
      SameCalledAfterFiles(v, v1, v2, detached, f, i, g);
      assert g in Lopped(v2, c, FTERM_NUM);
    }
  }

  /** Unnaming a folder and deleting its files changes no folder's name. */
  lemma SameCalledAfterFiles(v: View, v1: View, v2: View, detached: set<int>, f: int, i: int, g: int)
    requires Inv(v, detached) && f in v.live && SUB <= i < FTERM_NUM && v.fn[f].fterms[i].used && v1 == Detach(v, f, i)
    requires FilesDone(v1, v2, detached + {v.fn[f].fterms[i].fnode}, v.fn[f].fterms[i].fnode, ITERM_NUM)
    requires g in Subtree(v, v.fn[f].fterms[i].fnode) && g != v.fn[f].fterms[i].fnode
    ensures g in v2.live && CalledDotted(v2, g) == CalledDotted(v, g)
  {
    var p := v.par[g];
    assert p in v.live && p in v2.live;
    assert p != v.fn[f].fterms[i].fnode ==> v2.fn[p] == v1.fn[p];
  }

  lemma EraseFiles(v: View, v1: View, v2: View, f: int, c: int)
    requires FileInv(v) && Sized(v1) && Sized(v2) && v1.files == v.files && v1.fo == v.fo && v1.io == v.io
    requires v2.files == v.files - FilesBelow(v1, c, ITERM_NUM) && v2.fo == v.fo && v2.io == v.io
    ensures FilesOf(v, Lopped(v2, c, FTERM_NUM) + {c}) ==
              FilesBelow(v1, c, ITERM_NUM) + FilesOf(v2, Lopped(v2, c, FTERM_NUM))
  {
  }

  /** No live folder is more than `room` levels below `f`: what bounds the recursion. */
  ghost predicate HasRoom(v: View, f: int, room: nat)
    requires Sized(v) && f in v.live
  {
    forall g :: g in v.live ==> v.depth[g] <= v.depth[f] + room
  }

  ghost function Deepest(depth: seq<nat>): (m: nat)
    ensures forall i :: 0 <= i < |depth| ==> depth[i] <= m
  {
    if depth == [] then 0
    else
      var m := Deepest(depth[..|depth| - 1]);
      if m < depth[|depth| - 1] then depth[|depth| - 1] else m
  }
}
