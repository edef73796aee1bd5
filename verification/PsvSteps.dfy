/** The single steps of the filesystem operations, and what each keeps. */
module PsvSteps {
  import opened PsvLayout
  import opened PsvTree
  import opened PsvBlocks

  ghost predicate Inv(v: View, detached: set<int>) {
    TreeInv(v, detached) && FileInv(v) && InodeInv(v)
  }

  /** `w` is `v` without the folders `folders` and the files `files`.  No other folder node
      has changed except perhaps those of `touched`; the other files' inodes are as they were,
      and where no two files shared a block, so are their blocks that have sectors of their own,
      and each block of a deleted file is free again unless it was only partly filled. */
  ghost predicate Pruned(v: View, w: View, folders: set<int>, files: set<int>, touched: set<int>) {
    && InodeInv(v) && InodeInv(w)
    && w.fixed == v.fixed && w.par == v.par && w.depth == v.depth && w.pos == v.pos
    && w.fo == v.fo && w.io == v.io
    && w.live == v.live - folders && w.files == v.files - files
    && (forall k {:trigger w.ino[k]} :: k in w.files ==> w.ino[k] == v.ino[k])
    && (forall g {:trigger w.fn[g]} :: g in w.live && g !in touched ==> w.fn[g] == v.fn[g])
    && (BlockInv(v) ==> BlocksPruned(v, w, files))
  }

  ghost predicate BlocksPruned(v: View, w: View, files: set<int>)
    requires InodeInv(v) && InodeInv(w)
  {
    && BlockInv(w)
    && w.owner == v.owner - OwnedBy(v, files)
    && w.stranded == v.stranded + PartialBlocks(v, files)
    && (forall b :: b in w.owner && Own(v.fixed, DB, b) ==> w.data[b] == v.data[b])
  }

  lemma PrunedTrans(u: View, v: View, w: View, a: set<int>, b: set<int>, m: set<int>, n: set<int>, touched: set<int>,
                    folders: set<int>, files: set<int>)
    requires Pruned(u, v, a, m, touched) && Pruned(v, w, b, n, touched)
    requires n <= v.files && folders == a + b && files == m + n
    ensures Pruned(u, w, folders, files, touched)
  {
  }

  // ----- files

  /** A step that changes only file slots of `f` keeps the links between folders. */
  lemma FileStepKeepsLinks(v: View, w: View, detached: set<int>, f: int)
    requires LinksInv(v, detached) && f in v.live && Sized(w)
    requires w.live == v.live && w.par == v.par && w.depth == v.depth && w.pos == v.pos && w.lost == v.lost
    requires forall g :: g in v.live ==> w.fn[g].fterms == v.fn[g].fterms
    ensures LinksInv(w, detached)
  {
    forall g, i | g in w.live && SUB <= i < FTERM_NUM && w.fn[g].fterms[i].used
      ensures NamesChild(w, detached, g, i)
    {
      assert v.fn[g].fterms[i].used;
      assert NamesChild(v, detached, g, i);
    }
    forall c | c in w.live && c != ROOT && c !in w.lost && c !in detached
      ensures IsNamed(w, c)
    {
      assert IsNamed(v, c);
    }
  }

  lemma DropFileKeepsTree(v: View, detached: set<int>, f: int, i: int)
    requires Inv(v, detached) && f in v.live && 0 <= i < ITERM_NUM && v.fn[f].iterms[i].used
    ensures TreeInv(DropFile(v, f, i), detached)
  {
    UnlinkFileKeepsNode(v.fn[f], f, v.par[f], i);
    FileStepKeepsLinks(v, DropFile(v, f, i), detached, f);
  }

  lemma DropFileKeepsFiles(v: View, f: int, i: int)
    requires FileInv(v) && InodeInv(v) && f in v.live && 0 <= i < ITERM_NUM && v.fn[f].iterms[i].used
    ensures FileInv(DropFile(v, f, i)) && InodeInv(DropFile(v, f, i))
  {
    var w := DropFile(v, f, i);
    assert NamesFile(v, f, i);
    forall g, j | g in w.live && 0 <= j < ITERM_NUM && w.fn[g].iterms[j].used
      ensures NamesFile(w, g, j)
    {
      assert v.fn[g].iterms[j].used;
      assert NamesFile(v, g, j);
    }
    forall k | k in w.files
      ensures w.fo[k] in w.live && HasFile(w.fn[w.fo[k]], w.io[k], k)
    {
      assert HasFile(v.fn[v.fo[k]], v.io[k], k);
    }
  }

  /** Deleting one file keeps every invariant and touches nothing of the other files. */
  lemma DropFileKeeps(v: View, detached: set<int>, f: int, i: int)
    requires Inv(v, detached) && f in v.live && 0 <= i < ITERM_NUM && v.fn[f].iterms[i].used
    ensures Inv(DropFile(v, f, i), detached)
    ensures Pruned(v, DropFile(v, f, i), {}, {v.fn[f].iterms[i].inode}, {f})
  {
    DropFileKeepsTree(v, detached, f, i);
    DropFileKeepsFiles(v, f, i);
    var k := v.fn[f].iterms[i].inode;
    assert NamesFile(v, f, i);
    if BlockInv(v) {
      DropFileKeepsBlocks(v, f, i);
    }
  }

  lemma DropFileKeepsBlocks(v: View, f: int, i: int)
    requires FileInv(v) && BlockInv(v) && f in v.live && 0 <= i < ITERM_NUM && v.fn[f].iterms[i].used
    requires v.fn[f].iterms[i].inode in v.files && InodeInv(DropFile(v, f, i))
    ensures BlocksPruned(v, DropFile(v, f, i), {v.fn[f].iterms[i].inode})
  {
    var k, w := v.fn[f].iterms[i].inode, DropFile(v, f, i);
    FreeFileKeepsOthers(v, k);
    forall m, j | m in w.files && 0 <= j < NumBlocks(w.ino[m].len)
      ensures Owns(w, m, j)
    {
    }
    forall b | b in w.owner
      ensures OwnerOk(w, b) && (Own(v.fixed, DB, b) ==> w.data[b] == v.data[b])
    {
      assert OwnerOk(v, b);
      FreedAreOwned(v, k);
    }
  }

  ghost predicate CanLinkFile(v: View, f: int, i: int, name: string, k: int)
    requires Sized(v)
  {
    && f in v.live && |v.fn[f].iterms| == ITERM_NUM && 0 <= i < ITERM_NUM
    && !v.fn[f].iterms[i].used && name != ""
    && (forall j :: 0 <= j < ITERM_NUM ==> v.fn[f].iterms[j].name != name)
    && 0 <= k < INODE_NUM && k !in v.files
  }

  lemma AddFileKeepsTree(v: View, detached: set<int>, f: int, i: int, name: string, k: int)
    requires TreeInv(v, detached) && FileInv(v) && CanLinkFile(v, f, i, name, k)
    ensures TreeInv(AddFile(v, f, i, name, k), detached)
  {
    LinkFileKeepsNode(v.fn[f], f, v.par[f], i, name, k);
    FileStepKeepsLinks(v, AddFile(v, f, i, name, k), detached, f);
  }

  lemma AddFileKeepsFiles(v: View, f: int, i: int, name: string, k: int)
    requires FileInv(v) && InodeInv(v) && CanLinkFile(v, f, i, name, k)
    ensures FileInv(AddFile(v, f, i, name, k)) && InodeInv(AddFile(v, f, i, name, k))
  {
    var w := AddFile(v, f, i, name, k);
    forall g, j | g in w.live && 0 <= j < ITERM_NUM && w.fn[g].iterms[j].used
      ensures NamesFile(w, g, j)
    {
      if (g, j) != (f, i) {
        assert v.fn[g].iterms[j].used;
        assert NamesFile(v, g, j);
      }
    }
    forall m | m in w.files
      ensures w.fo[m] in w.live && HasFile(w.fn[w.fo[m]], w.io[m], m)
    {
      if m != k { assert HasFile(v.fn[v.fo[m]], v.io[m], m); }
    }
  }

  lemma AddFileKeeps(v: View, detached: set<int>, f: int, i: int, name: string, k: int)
    requires Inv(v, detached) && CanLinkFile(v, f, i, name, k)
    ensures Inv(AddFile(v, f, i, name, k), detached)
    ensures BlockInv(v) ==> BlockInv(AddFile(v, f, i, name, k))
  {
    AddFileKeepsTree(v, detached, f, i, name, k);
    AddFileKeepsFiles(v, f, i, name, k);
    if BlockInv(v) {
      AddFileKeepsBlocks(v, f, i, name, k);
    }
  }

  lemma AddFileKeepsBlocks(v: View, f: int, i: int, name: string, k: int)
    requires BlockInv(v) && CanLinkFile(v, f, i, name, k)
    ensures BlockInv(AddFile(v, f, i, name, k))
  {
    var w := AddFile(v, f, i, name, k);
    forall m, j | m in w.files && 0 <= j < NumBlocks(w.ino[m].len)
      ensures Owns(w, m, j)
    {
      assert m != k && Owns(v, m, j);
    }
    forall b | b in w.owner
      ensures OwnerOk(w, b)
    {
      assert OwnerOk(v, b);
    }
  }

  // ----- folders

  /** create_folder: slot `i` of `f` names the fresh folder `c`. */
  ghost function Grow(v: View, f: int, i: int, name: string, c: int): View
    requires Sized(v) && f in v.live && 0 <= i < |v.fn[f].fterms| && 0 <= c < FNODE_NUM
  {
    v.(live := v.live + {c},
       fn := v.fn[f := Link(v.fn[f], i, name, c)][c := NewNode(name, c, f)],
       par := v.par[c := f], depth := v.depth[c := v.depth[f] + 1], pos := v.pos[c := i])
  }

  /** delete_fterm: the child in slot `i` of `f` loses its name. */
  ghost function Detach(v: View, f: int, i: int): View
    requires Sized(v) && f in v.live && 0 <= i < |v.fn[f].fterms|
  {
    v.(fn := v.fn[f := Unlink(v.fn[f], i)])
  }

  ghost predicate CanLink(v: View, f: int, i: int, name: string)
    requires Sized(v)
  {
    && f in v.live && |v.fn[f].fterms| == FTERM_NUM && SUB <= i < FTERM_NUM
    && !v.fn[f].fterms[i].used
    && forall j :: SUB <= j < FTERM_NUM ==> v.fn[f].fterms[j].name != name
  }

  lemma GrowKeepsNodes(v: View, f: int, i: int, name: string, c: int)
    requires NodesInv(v) && CanLink(v, f, i, name) && name != "" && 0 < c < FNODE_NUM && c !in v.live
    ensures NodesInv(Grow(v, f, i, name, c))
  {
    LinkKeepsNode(v.fn[f], f, v.par[f], i, name, c);
    NewNodeOk(name, c, f);
  }

  lemma GrowKeepsLinks(v: View, f: int, i: int, name: string, c: int)
    requires LinksInv(v, {}) && CanLink(v, f, i, name) && 0 < c < FNODE_NUM && c !in v.live
    ensures LinksInv(Grow(v, f, i, name, c), {})
  {
    var w := Grow(v, f, i, name, c);
    forall g, j | g in w.live && SUB <= j < FTERM_NUM && w.fn[g].fterms[j].used
      ensures NamesChild(w, {}, g, j)
    {
      if (g, j) != (f, i) && g != c {
        assert v.fn[g].fterms[j].used;
        assert NamesChild(v, {}, g, j);
      }
    }
    forall d | d in w.live && d != ROOT && d !in w.lost
      ensures IsNamed(w, d)
    {
      if d != c { assert IsNamed(v, d); }
    }
  }

  lemma GrowKeepsFiles(v: View, f: int, i: int, name: string, c: int)
    requires FileInv(v) && CanLink(v, f, i, name) && 0 < c < FNODE_NUM && c !in v.live
    ensures FileInv(Grow(v, f, i, name, c))
  {
    var w := Grow(v, f, i, name, c);
    forall g, j | g in w.live && 0 <= j < ITERM_NUM && w.fn[g].iterms[j].used
      ensures NamesFile(w, g, j)
    {
      assert g != c && v.fn[g].iterms[j].used;
      assert NamesFile(v, g, j);
    }
    forall k | k in w.files
      ensures w.fo[k] in w.live && HasFile(w.fn[w.fo[k]], w.io[k], k)
    {
      assert HasFile(v.fn[v.fo[k]], v.io[k], k);
    }
  }

  lemma GrowKeeps(v: View, f: int, i: int, name: string, c: int)
    requires Inv(v, {}) && CanLink(v, f, i, name) && name != "" && 0 < c < FNODE_NUM && c !in v.live
    ensures Inv(Grow(v, f, i, name, c), {})
    ensures BlockInv(v) ==> BlockInv(Grow(v, f, i, name, c))
  {
    GrowKeepsNodes(v, f, i, name, c);
    GrowKeepsLinks(v, f, i, name, c);
    GrowKeepsFiles(v, f, i, name, c);
    if BlockInv(v) { SameBlocks(v, Grow(v, f, i, name, c)); }
  }

  lemma SameBlocks(v: View, w: View)
    requires BlockInv(v) && InodeInv(w)
    requires w.files == v.files && forall k :: k in v.files ==> w.ino[k] == v.ino[k]
    requires w.owner == v.owner && w.stranded == v.stranded && w.blocks == v.blocks
    ensures BlockInv(w)
  {
    forall m, j | m in w.files && 0 <= j < NumBlocks(w.ino[m].len)
      ensures Owns(w, m, j)
    {
      assert Owns(v, m, j);
    }
    forall b | b in w.owner
      ensures OwnerOk(w, b)
    {
      assert OwnerOk(v, b);
    }
  }

  lemma DetachKeepsLinks(v: View, detached: set<int>, f: int, i: int)
    requires LinksInv(v, detached) && f in v.live && SUB <= i < FTERM_NUM && v.fn[f].fterms[i].used
    ensures var c := v.fn[f].fterms[i].fnode;
      && c in v.live && c != ROOT && c !in v.lost && c != f && c !in detached && v.par[c] == f && v.pos[c] == i
      && v.depth[c] == v.depth[f] + 1
      && LinksInv(Detach(v, f, i), detached + {c})
  {
    var c, w := v.fn[f].fterms[i].fnode, Detach(v, f, i);
    assert NamesChild(v, detached, f, i);
    forall g, j | g in w.live && SUB <= j < FTERM_NUM && w.fn[g].fterms[j].used
      ensures NamesChild(w, detached + {c}, g, j)
    {
      assert v.fn[g].fterms[j].used;
      assert NamesChild(v, detached, g, j);
    }
    forall d | d in w.live && d != ROOT && d !in w.lost && d !in detached + {c}
      ensures IsNamed(w, d)
    {
      assert IsNamed(v, d);
    }
  }

  lemma DetachKeeps(v: View, detached: set<int>, f: int, i: int)
    requires Inv(v, detached) && f in v.live && SUB <= i < FTERM_NUM && v.fn[f].fterms[i].used
    ensures Inv(Detach(v, f, i), detached + {v.fn[f].fterms[i].fnode})
    ensures Pruned(v, Detach(v, f, i), {}, {}, {f})
  {
    var w := Detach(v, f, i);
    DetachKeepsLinks(v, detached, f, i);
    UnlinkKeepsNode(v.fn[f], f, v.par[f], i);
    FilesKeepFolders(v);
    SlotsKeepFiles(v, w);
    if BlockInv(v) { SameBlocks(v, w); }
  }

  lemma FilesKeepFolders(v: View)
    requires FileInv(v)
    ensures forall k :: k in v.files ==> v.fo[k] in v.live
  {
  }

  lemma SlotsKeepFiles(v: View, w: View)
    requires FileInv(v) && Sized(w) && w.live <= v.live && w.files == v.files && w.fo == v.fo && w.io == v.io
    requires forall g :: g in w.live ==> w.fn[g].iterms == v.fn[g].iterms
    requires forall k :: k in v.files ==> v.fo[k] in w.live
    ensures FileInv(w)
  {
    forall g, j | g in w.live && 0 <= j < ITERM_NUM && w.fn[g].iterms[j].used
      ensures NamesFile(w, g, j)
    {
      assert v.fn[g].iterms[j].used;
      assert NamesFile(v, g, j);
    }
    forall k | k in w.files
      ensures w.fo[k] in w.live && HasFile(w.fn[w.fo[k]], w.io[k], k)
    {
      assert HasFile(v.fn[v.fo[k]], v.io[k], k);
    }
  }

  ghost predicate IsEmptyFolder(n: FNode)
    requires |n.fterms| == FTERM_NUM && |n.iterms| == ITERM_NUM
  {
    && (forall i :: SUB <= i < FTERM_NUM ==> !n.fterms[i].used)
    && (forall i :: 0 <= i < ITERM_NUM ==> !n.iterms[i].used)
  }

  lemma RemoveKeepsLinks(v: View, detached: set<int>, c: int)
    requires LinksInv(v, detached) && c in v.live && c != ROOT && c !in v.lost && c in detached
    requires forall i :: SUB <= i < FTERM_NUM ==> !v.fn[c].fterms[i].used
    requires forall d :: d in detached && d in v.live ==> v.depth[d] <= v.depth[c]
    ensures LinksInv(v.(live := v.live - {c}), detached - {c})
  {
    var w := v.(live := v.live - {c});
    forall g | g in w.live && g != ROOT && g !in w.lost
      ensures w.par[g] != c
    {
      if g !in detached { assert IsNamed(v, g); }
    }
    forall g, j | g in w.live && SUB <= j < FTERM_NUM && w.fn[g].fterms[j].used
      ensures NamesChild(w, detached - {c}, g, j)
    {
      assert NamesChild(v, detached, g, j);
    }
    forall d | d in w.live && d != ROOT && d !in w.lost && d !in detached - {c}
      ensures IsNamed(w, d)
    {
      assert IsNamed(v, d);
    }
  }

  /** Clearing the bit of a detached, emptied folder: no live folder has it as its parent any more. */
  lemma RemoveKeeps(v: View, detached: set<int>, c: int)
    requires Inv(v, detached) && c in v.live && c != ROOT && c !in v.lost && c in detached
    requires |v.fn[c].fterms| == FTERM_NUM && |v.fn[c].iterms| == ITERM_NUM && IsEmptyFolder(v.fn[c])
    requires forall d :: d in detached && d in v.live ==> v.depth[d] <= v.depth[c]
    ensures Inv(v.(live := v.live - {c}), detached - {c})
    ensures Pruned(v, v.(live := v.live - {c}), {c}, {}, {c})
  {
    var w := v.(live := v.live - {c});
    RemoveKeepsLinks(v, detached, c);
    forall k | k in v.files
      ensures v.fo[k] in w.live
    {
      assert HasFile(v.fn[v.fo[k]], v.io[k], k);
    }
    SlotsKeepFiles(v, w);
    if BlockInv(v) { SameBlocks(v, w); }
  }

  /** A folder whose deletion stopped halfway stays behind without a name. */
  lemma AbandonKeeps(v: View, detached: set<int>, c: int)
    requires Inv(v, detached + {c}) && c in v.live && c != ROOT && c !in detached
    ensures Inv(v.(lost := v.lost + {c}), detached)
    ensures BlockInv(v) ==> BlockInv(v.(lost := v.lost + {c}))
  {
    var w := v.(lost := v.lost + {c});
    forall f | f in w.live
      ensures NodeOk(w.fn[f], f, w.par[f])
    {
      assert NodeOk(v.fn[f], f, v.par[f]);
    }
    forall g, j | g in w.live && SUB <= j < FTERM_NUM && w.fn[g].fterms[j].used
      ensures NamesChild(w, detached, g, j)
    {
      assert NamesChild(v, detached + {c}, g, j);
    }
    forall d | d in w.live && d != ROOT && d !in w.lost && d !in detached
      ensures IsNamed(w, d)
    {
      assert IsNamed(v, d);
    }
    SlotsKeepFiles(v, w) by { FilesKeepFolders(v); }
    if BlockInv(v) { SameBlocks(v, w); }
  }
}
