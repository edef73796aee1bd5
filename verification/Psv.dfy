/** The PSV filesystem: superblock, cached folder and operations (PSV.c, helper.c). */
module Psv {
  import opened PsvLayout
  import opened PsvDisk
  import opened PsvTree
  import opened PsvBlocks
  import opened PsvSteps
  import opened PsvReach
  import opened PsvPrune
  import opened PsvAbandon
  import opened PsvContent
  import opened PsvPath
  import opened PsvTargets
  import opened PsvRuns
  import Bitmap

  /** A folder node in memory: the cache of the current folder, or a local copy. */
  class Folder {
    var name: string
    var numF: int
    var numI: int
    var fterms: seq<FTerm>
    var iterms: seq<ITerm>

    constructor ()
    {
      name, numF, numI, fterms, iterms := "", 0, 0, [], [];
    }

    function Image(): FNode
      reads this
    {
      FNode(name, numF, numI, fterms, iterms)
    }

    method Load(n: FNode)
      modifies this
      ensures Image() == n
    {
      name, numF, numI, fterms, iterms := n.name, n.numF, n.numI, n.fterms, n.iterms;
    }
  }

  /** The last slot from `lo` up to `n` that has the property, or -1. */
  function LastSlot<T>(ts: seq<T>, has: T -> bool, lo: nat, n: int): (i: int)
    requires lo <= n <= |ts|
    ensures -1 <= i < n
    ensures i != -1 ==> lo <= i && has(ts[i])
    ensures forall j :: (if i == -1 then lo else i + 1) <= j < n ==> !has(ts[j])
  {
    if n == lo then -1 else if has(ts[n - 1]) then n - 1 else LastSlot(ts, has, lo, n - 1)
  }

  /** The used file slot of that name below `n`, or -1. */
  function FileSlot(ts: seq<ITerm>, name: string, n: int): (i: int)
    requires 0 <= n <= |ts|
    ensures -1 <= i < n
    ensures i != -1 ==> ts[i].used && ts[i].name == name
    ensures i == -1 ==> forall j :: 0 <= j < n && ts[j].used ==> ts[j].name != name
  {
    LastSlot(ts, (t: ITerm) => t.used && t.name == name, 0, n)
  }

  /** The used child slot of that name below `n`, or -1. */
  function ChildSlot(ts: seq<FTerm>, name: string, n: int): (i: int)
    requires SUB <= n <= |ts|
    ensures -1 <= i < n
    ensures i != -1 ==> SUB <= i && ts[i].used && ts[i].name == name
    ensures i == -1 ==> forall j :: SUB <= j < n && ts[j].used ==> ts[j].name != name
  {
    LastSlot(ts, (t: FTerm) => t.used && t.name == name, SUB, n)
  }

  lemma FirstBlocksGrow(fixed: bool, n: INode, i: int, data: seq<Block>, ino: seq<INode>)
    requires 0 <= i < |n.blocks| && 0 <= n.blocks[i] < |data|
    ensures FirstBlocks(n, i + 1) == FirstBlocks(n, i) + {n.blocks[i]}
    ensures PutBlock(fixed, Zeroed(fixed, data, FirstBlocks(n, i)), n.blocks[i], ZeroBlock()) ==
              Zeroed(fixed, data, FirstBlocks(n, i + 1))
    ensures Emptied(fixed, Emptied(fixed, ino, FirstBlocks(n, i)), {n.blocks[i]}) ==
              Emptied(fixed, ino, FirstBlocks(n, i + 1))
  {
    var now, more := FirstBlocks(n, i), FirstBlocks(n, i + 1);
    assert more == now + {n.blocks[i]};
    assert Shares(fixed, more) <==> Shares(fixed, now) || Shares(fixed, {n.blocks[i]});
    SharesOne(fixed, n.blocks[i]);
  }

  /** A write of no bytes that takes no blocks. */
  lemma EmptyStaysEmpty(u: View, k: int, buf: seq<byte>)
    requires InodeInv(u) && k in u.files
    ensures InodeInv(FreeFile(u, k)) && Rewritten(u, FreeFile(u, k), FreeFile(u, k), k, buf, 0, [])
    ensures !Own(u.fixed, FILE, k) ==> NewInode(FreeFile(u, k).ino[k], 0, []) == ZeroInode()
  {
    hide Freed, OwnedBy, PartialBlocks;
    var v := FreeFile(u, k);
    assert |v.data| == DB_NUM;
    if !Own(u.fixed, FILE, k) {
      var z: seq<int> := ZeroInode().blocks;
      assert [] + z[0..] == z;
    }
  }

  lemma NoneZeroed(fixed: bool, data: seq<Block>, ino: seq<INode>)
    ensures Zeroed(fixed, data, {}) == data && Emptied(fixed, ino, {}) == ino
  {
    SharesOne(fixed, 0);
  }

  lemma SharesOne(fixed: bool, b: int)
    ensures Shares(fixed, {b}) <==> !Own(fixed, DB, b)
    ensures !Shares(fixed, {})
  {
    if !Own(fixed, DB, b) { assert b in {b}; }
  }

  ghost function FirstBlocks(n: INode, i: int): set<int>
    requires i <= |n.blocks|
  {
    set j | 0 <= j < i :: n.blocks[j]
  }

  class Psv {
    const fixed: bool
    const disk: Disk
    const cur: Folder
    var usedF: int
    var usedI: int
    var usedD: int
    var fnodeMap: seq<bool>
    var inodeMap: seq<bool>
    var dbMap: seq<bool>
    ghost var par: seq<int>
    ghost var depth: seq<nat>
    ghost var pos: seq<int>
    ghost var fo: seq<int>
    ghost var io: seq<int>
    ghost var owner: map<int, (int, int)>
    ghost var stranded: set<int>
    ghost var lost: set<int>

    /** PSV_setup's image of an empty filesystem, then PSV_mount on it. */
    constructor Setup(fixed: bool, stray: Stray)
      ensures this.fixed == fixed && fresh(disk) && fresh(cur)
      ensures Ready() && Synced() && V() == EmptyView(fixed, stray) && cur.Image() == RootNode()
    {
      var root := RootNode();
      var sb := SuperBlock(1, 0, 0, seq(FNODE_NUM, i => i == ROOT),
                           seq(INODE_NUM, _ => false), seq(DB_NUM, _ => false));
      this.fixed := fixed;
      disk := new Disk(fixed, sb, root, stray);
      cur := new Folder();
      par, depth, pos := seq(FNODE_NUM, _ => 0), seq(FNODE_NUM, _ => 0), seq(FNODE_NUM, _ => 0);
      fo, io, owner, stranded, lost := seq(INODE_NUM, _ => 0), seq(INODE_NUM, _ => 0), map[], {}, {};
      usedF, usedI, usedD := sb.usedF, sb.usedI, sb.usedD;
      fnodeMap, inodeMap, dbMap := sb.fnodeMap, sb.inodeMap, sb.dbMap;
      new;
      var n := disk.ReadFnode(ROOT);
      cur.Load(n);
    }

    /** PSV_mount on the disk of a running filesystem whose bitmaps are on disk. */
    constructor Mount(before: Psv)
      requires before.Ready() && before.Synced() && Inv(before.V(), {})
      ensures disk == before.disk && fresh(cur)
      ensures Ready() && Synced() && V() == before.V() && cur.Image() == V().fn[ROOT]
    {
      fixed := before.fixed;
      disk := before.disk;
      cur := new Folder();
      par, depth, pos := before.par, before.depth, before.pos;
      fo, io, owner, stranded, lost := before.fo, before.io, before.owner, before.stranded, before.lost;
      var sb := before.disk.ReadSuper();
      usedF, usedI, usedD := sb.usedF, sb.usedI, sb.usedD;
      fnodeMap, inodeMap, dbMap := sb.fnodeMap, sb.inodeMap, sb.dbMap;
      new;
      var n := disk.ReadFnode(ROOT);
      cur.Load(n);
    }

    ghost predicate Ready()
      reads this, disk
    {
      && disk.Valid() && disk.fixed == fixed
      && |fnodeMap| == FNODE_NUM && |inodeMap| == INODE_NUM && |dbMap| == DB_NUM
    }

    ghost function V(): View
      reads this, disk
    {
      View(fixed, Bitmap.Bits(fnodeMap), Bitmap.Bits(inodeMap), Bitmap.Bits(dbMap),
           disk.fn, disk.ino, disk.data, par, depth, pos, fo, io, owner, stranded, lost)
    }

    function Super(): SuperBlock
      reads this
    {
      SuperBlock(usedF, usedI, usedD, fnodeMap, inodeMap, dbMap)
    }

    /** The bitmaps on disk are the bitmaps in memory. */
    ghost predicate Synced()
      reads this, disk
    {
      && |disk.super.fnodeMap| == FNODE_NUM && |disk.super.inodeMap| == INODE_NUM && |disk.super.dbMap| == DB_NUM
      && Bitmap.Bits(disk.super.fnodeMap) == Bitmap.Bits(fnodeMap)
      && Bitmap.Bits(disk.super.inodeMap) == Bitmap.Bits(inodeMap)
      && Bitmap.Bits(disk.super.dbMap) == Bitmap.Bits(dbMap)
    }

    // ----- deleting files

    /** delete_db; its index check passes for every index that an inode holds. */
    method DeleteDb(idx: int)
      requires Ready() && 0 <= idx < DB_NUM
      modifies this`dbMap, disk
      ensures Ready() && Synced()
      ensures V() == old(V()).(blocks := old(V()).blocks - {idx},
                               data := PutBlock(fixed, old(V()).data, idx, ZeroBlock()),
                               ino := Emptied(fixed, old(V()).ino, {idx}))
    {
      SharesOne(fixed, idx);
      disk.WriteDb(ZeroBlock(), idx);
      dbMap := Bitmap.Clear(dbMap, idx);
      disk.WriteSuper(Super());
    }

    /** The loop that frees an inode's blocks in delete_file and write_content. */
    method DeleteBlocks(n: INode)
      requires Ready() && InodeOk(n)
      modifies this`dbMap, disk
      ensures Ready() && (old(Synced()) ==> Synced())
      ensures V() == old(V()).(blocks := old(V()).blocks - Freed(n), data := Zeroed(fixed, old(V()).data, Freed(n)),
                               ino := Emptied(fixed, old(V()).ino, Freed(n)))
    {
      hide Zeroed, Emptied, PutBlock, Shares;
      ghost var v := V();
      NoneZeroed(fixed, v.data, v.ino);
      assert FirstBlocks(n, 0) == {};
      for i := 0 to WholeBlocks(n.len)
        invariant Ready() && (old(Synced()) ==> Synced())
        invariant V() == v.(blocks := v.blocks - FirstBlocks(n, i),
                            data := Zeroed(fixed, v.data, FirstBlocks(n, i)),
                            ino := Emptied(fixed, v.ino, FirstBlocks(n, i)))
      {
        FirstBlocksGrow(fixed, n, i, v.data, v.ino);
        DeleteDb(n.blocks[i]);
      }
      assert FirstBlocks(n, WholeBlocks(n.len)) == Freed(n);
    }

    /** delete_iterm. */
    method DeleteIterm(node: Folder, name: string, ghost f: int) returns (idx: int)
      requires Ready() && 0 <= f < FNODE_NUM && node.Image() == disk.fn[f]
      requires ITableOk(node.iterms) && |node.fterms| == FTERM_NUM && node.fterms[SELF].fnode == f
      modifies node, disk
      ensures Ready() && disk.super == old(disk.super)
      ensures idx == FileSlot(old(node.iterms), name, ITERM_NUM)
      ensures idx == -1 ==> V() == old(V()) && node.Image() == old(node.Image())
      ensures idx != -1 ==> node.Image() == UnlinkFile(old(node.Image()), idx)
      ensures idx != -1 ==> V() == old(V()).(fn := old(V()).fn[f := node.Image()])
    {
      ghost var ts := node.iterms;
      idx := -1;
      for i := 0 to ITERM_NUM
        modifies node
        invariant node.Image() == old(node.Image()).(iterms := node.iterms)
        invariant idx == FileSlot(ts, name, i)
        invariant node.iterms == if idx == -1 then ts else ts[idx := ts[idx].(used := false)]
      {
        if node.iterms[i].used && node.iterms[i].name == name {
          assert idx == -1;
          idx := i;
          node.iterms := node.iterms[i := node.iterms[i].(used := false)];
        }
      }
      if idx == -1 {
        return;
      }
      node.numI := node.numI - 1;
      disk.WriteFnode(node.Image(), node.fterms[SELF].fnode);
    }

    /** The blocks of the old content of `k`, in delete_file and write_content. */
    method FreeContent(k: int)
      requires Ready() && InodeInv(V()) && k in V().files
      modifies disk, this`dbMap, this`owner, this`stranded
      ensures Ready() && (old(Synced()) ==> Synced())
      ensures V() == FreeFile(old(V()), k)
    {
      ghost var v := V();
      var inode := disk.ReadInode(k);
      DeleteBlocks(inode);
      owner := owner - OwnedBy(v, {k});
      stranded := stranded + PartialBlocks(v, {k});
    }

    /** The rest of delete_file once the slot is free: the blocks, then the bit, of inode `k`. */
    method FreeInode(k: int)
      requires Ready() && InodeInv(V()) && k in V().files
      modifies disk, this`dbMap, this`inodeMap, this`owner, this`stranded
      ensures Ready() && Synced()
      ensures V() == FreeFile(old(V()), k).(files := old(V()).files - {k})
    {
      FreeContent(k);
      inodeMap := Bitmap.Clear(inodeMap, k);
      disk.WriteSuper(Super());
    }

    /** delete_file on folder `f`, whose node in memory is `node`. */
    method DeleteFile(node: Folder, name: string, ghost f: int) returns (ok: bool)
      requires Ready() && FileInv(V()) && InodeInv(V()) && f in V().live && node.Image() == V().fn[f]
      requires ITableOk(node.iterms) && |node.fterms| == FTERM_NUM && node.fterms[SELF].fnode == f
      modifies node, disk, this`dbMap, this`inodeMap, this`owner, this`stranded
      ensures Ready() && node.Image() == V().fn[f]
      ensures old(Synced()) ==> Synced()
      ensures ok <==> FileSlot(old(node.iterms), name, ITERM_NUM) != -1
      ensures !ok ==> V() == old(V()) && disk.super == old(disk.super)
      ensures ok ==> V() == DropFile(old(V()), f, FileSlot(old(node.iterms), name, ITERM_NUM))
    {
      ghost var v := V();
      var idx := DeleteIterm(node, name, f);
      if idx == -1 {
        return false;
      }
      assert NamesFile(v, f, idx);
      FreeInode(node.iterms[idx].inode);
      return true;
    }

    // ----- deleting folders

    /** read_fnode. */
    method ReadFnode(node: Folder, idx: int)
      requires Ready() && 0 <= idx < FNODE_NUM
      modifies node
      ensures node.Image() == if idx in V().live then V().fn[idx] else old(node.Image())
    {
      if fnodeMap[idx] {
        var n := disk.ReadFnode(idx);
        node.Load(n);
      }
    }

    /** delete_fterm. */
    method DeleteFterm(node: Folder, name: string, ghost f: int) returns (idx: int)
      requires Ready() && 0 <= f < FNODE_NUM && node.Image() == disk.fn[f]
      requires |par| == FNODE_NUM && FTableOk(node.fterms, f, par[f]) && name != ""
      modifies node, disk
      ensures Ready() && disk.super == old(disk.super)
      ensures idx == ChildSlot(old(node.fterms), name, FTERM_NUM)
      ensures idx == -1 ==> V() == old(V()) && node.Image() == old(node.Image())
      ensures idx != -1 ==> node.Image() == Unlink(old(node.Image()), idx)
      ensures idx != -1 ==> V() == old(V()).(fn := old(V()).fn[f := node.Image()])
    {
      ghost var ts := node.fterms;
      idx := -1;
      for i := SUB to FTERM_NUM
        modifies node
        invariant node.Image() == old(node.Image()).(fterms := node.fterms)
        invariant idx == ChildSlot(ts, name, i)
        invariant node.fterms == if idx == -1 then ts else ts[idx := ts[idx].(used := false)]
      {
        if node.fterms[i].used && node.fterms[i].name == name {
          assert idx == -1;
          idx := i;
          node.fterms := node.fterms[i := node.fterms[i].(used := false)];
        }
      }
      if idx == -1 {
        return;
      }
      node.numF := node.numF - 1;
      disk.WriteFnode(node.Image(), node.fterms[SELF].fnode);
    }

    /** One turn of delete_folder's loop over the files of the folder `c` that is being deleted. */
    method DeleteFileAt(node: Folder, i: int, ghost v: View, ghost c: int, ghost detached: set<int>)
      requires Ready() && Inv(v, detached) && c in v.live && 0 <= i < ITERM_NUM
      requires FilesDone(v, V(), detached, c, i) && node.Image() == V().fn[c]
      modifies node, disk, this`dbMap, this`inodeMap, this`owner, this`stranded
      ensures Ready() && (old(Synced()) ==> Synced())
      ensures FilesDone(v, V(), detached, c, i + 1) && node.Image() == V().fn[c]
    {
      FilesDoneStep(v, V(), detached, c, i);
      if node.iterms[i].used {
        NodeIsOk(V(), detached, c);
        FileSlotOfUsed(node.iterms, i);
        var ok := DeleteFile(node, node.iterms[i].name, c);
      }
    }

    method DeleteFilesIn(node: Folder, ghost c: int, ghost detached: set<int>)
      requires Ready() && Inv(V(), detached) && c in V().live && node.Image() == V().fn[c]
      modifies node, disk, this`dbMap, this`inodeMap, this`owner, this`stranded
      ensures Ready() && (old(Synced()) ==> Synced())
      ensures FilesDone(old(V()), V(), detached, c, ITERM_NUM) && node.Image() == V().fn[c]
    {
      ghost var v := V();
      FilesDoneStart(v, detached, c);
      for i := 0 to ITERM_NUM
        invariant Ready() && (old(Synced()) ==> Synced())
        invariant FilesDone(v, V(), detached, c, i) && node.Image() == V().fn[c]
      {
        DeleteFileAt(node, i, v, c, detached);
      }
    }

    /** delete_folder on folder `f`, whose node in memory is `node`: recursive deletion of the
        child called `name`.  It succeeds exactly when `f` has a child of that name, and neither
        it nor a folder below it is called "." or "..".  Then the child's subtree and the files in
        it are gone and nothing else has changed.  A dotted folder `x` below the child stops it
        halfway. */
    method DeleteFolder(node: Folder, name: string, ghost f: int, ghost detached: set<int>, ghost room: nat)
      returns (ok: bool, ghost x: int)
      requires Ready() && Inv(V(), detached) && f in V().live && node.Image() == V().fn[f] && name != ""
      requires ShallowDetached(V(), detached, f) && HasRoom(V(), f, room)
      modifies node, disk, this`fnodeMap, this`dbMap, this`inodeMap, this`owner, this`stranded, this`lost
      ensures Ready() && Inv(V(), detached) && f in V().live && node.Image() == V().fn[f]
      ensures old(Synced()) ==> Synced()
      ensures |old(node.fterms)| == FTERM_NUM
      ensures var i := ChildSlot(old(node.fterms), name, FTERM_NUM);
        && (ok <==> !Dotted(name) && CanErase(old(V()), f, i))
        && (Dotted(name) || i == -1 ==> V() == old(V()))
        && (ok ==> Erased(old(V()), V(), f, i))
        && (!ok && !Dotted(name) && i != -1 ==> Abandoned(old(V()), V(), f, i, x))
      decreases room, 2
    {
      hide Erased, Abandoned, Clean, LastSlot;
      ghost var v := V();
      NodeIsOk(v, detached, f);
      x := -1;
      if name == "." || name == ".." {
        return false, x;
      }
      var idx := DeleteFterm(node, name, f);
      if idx == -1 {
        return false, x;
      }
      ok, x := DeleteDetached(node.fterms[idx].fnode, v, f, idx, detached, room);
    }

    /** The rest of delete_folder once the child `c` has lost its slot `i` in `f`. */
    method DeleteDetached(c: int, ghost v: View, ghost f: int, ghost i: int, ghost detached: set<int>, ghost room: nat)
      returns (ok: bool, ghost x: int)
      requires Inv(v, detached) && f in v.live && ShallowDetached(v, detached, f) && HasRoom(v, f, room)
      requires SUB <= i < FTERM_NUM && v.fn[f].fterms[i].used && c == v.fn[f].fterms[i].fnode
      requires Ready() && V() == Detach(v, f, i)
      modifies disk, this`fnodeMap, this`dbMap, this`inodeMap, this`owner, this`stranded, this`lost
      ensures Ready() && Inv(V(), detached) && (old(Synced()) ==> Synced())
      ensures ok <==> Clean(v, c)
      ensures if ok then Erased(v, V(), f, i) else Abandoned(v, V(), f, i, x)
      ensures f in V().live && V().fn[f] == old(V()).fn[f]
      decreases room, 1
    {
      hide Halted, FilesDone, ChildrenDone, Abandoned, Erased, NodeOk, BlocksPruned, FileInv, LinksInv, Clean;
      DetachKeepsLinks(v, detached, f, i);
      ghost var v1, v2 := V(), V();
      ok, v2, x := EmptyFolder(c, v, f, i, detached, room);
      ghost var v3 := V();
      if !ok {
        AbandonAddsUp(v, v1, v2, v3, detached, f, i, x);
        lost := lost + {c};
        AbandonedIsNotClean(v, V(), f, i, x);
        return;
      }
      EraseAddsUp(v, v1, v2, v3, detached, f, i);
      EraseIsClean(v, v1, v2, v3, detached, f, i);
      fnodeMap := Bitmap.Clear(fnodeMap, c);
      disk.WriteSuper(Super());
    }

    /** The two loops of delete_folder over the detached folder `c`. */
    method EmptyFolder(c: int, ghost v: View, ghost f: int, ghost i: int, ghost detached: set<int>, ghost room: nat)
      returns (ok: bool, ghost v2: View, ghost x: int)
      requires Inv(v, detached) && f in v.live && ShallowDetached(v, detached, f) && HasRoom(v, f, room)
      requires SUB <= i < FTERM_NUM && v.fn[f].fterms[i].used && c == v.fn[f].fterms[i].fnode
      requires Ready() && V() == Detach(v, f, i)
      modifies disk, this`fnodeMap, this`dbMap, this`inodeMap, this`owner, this`stranded, this`lost
      ensures Ready() && (old(Synced()) ==> Synced()) && 0 <= c < FNODE_NUM
      ensures ok ==> ErasePhases(v, old(V()), v2, V(), detached, f, i)
      ensures !ok ==> HaltPhases(v, old(V()), v2, V(), detached, f, i, x)
      decreases room, 0
    {
      hide Halted, NodeOk, BlocksPruned;
      ghost var v1 := V();
      DetachKeeps(v, detached, f, i);
      DetachKeepsLinks(v, detached, f, i);
      var del := new Folder();
      ReadFnode(del, c);
      DeleteFilesIn(del, c, detached + {c});
      v2 := V();
      DetachedIsDeepest(v, detached, f, i, v2, FilesBelow(v1, c, ITERM_NUM));
      assert room > 0;
      ok, x := DeleteChildrenIn(del, c, detached + {c}, room - 1);
    }

    /** One turn of delete_folder's loop over the subfolders of the folder `c` that is being deleted. */
    method DeleteChildAt(node: Folder, i: int, ghost v: View, ghost c: int, ghost detached: set<int>, ghost room: nat)
      returns (ok: bool, ghost x: int)
      requires Ready() && Inv(v, detached) && c in v.live && SUB <= i < FTERM_NUM
      requires ShallowDetached(v, detached, c) && HasRoom(v, c, room)
      requires ChildrenDone(v, V(), detached, c, i) && node.Image() == V().fn[c]
      modifies node, disk, this`fnodeMap, this`dbMap, this`inodeMap, this`owner, this`stranded, this`lost
      ensures Ready() && (old(Synced()) ==> Synced())
      ensures ok ==> ChildrenDone(v, V(), detached, c, i + 1) && node.Image() == V().fn[c]
      ensures !ok ==> Halted(v, V(), detached, c, x)
      decreases room, 3
    {
      hide Erased, Abandoned, Halted, Clean;
      ghost var w := V();
      NodeIsOk(w, detached, c);
      ok, x := true, -1;
      if node.fterms[i].used {
        ChildSlotOfUsed(node.fterms, c, w.par[c], i);
        ghost var d := node.fterms[i].fnode;
        ok, x := DeleteFolder(node, node.fterms[i].name, c, detached, room);
        if ok {
          ChildrenDoneStep(v, w, V(), detached, c, i);
        } else if Dotted(w.fn[c].fterms[i].name) {
          x := d;
          HaltedHere(v, w, detached, c, i);
        } else {
          HaltedBelow(v, w, V(), detached, c, i, x);
        }
      } else {
        ChildrenDoneSkip(v, w, detached, c, i);
      }
    }

    method DeleteChildrenIn(node: Folder, ghost c: int, ghost detached: set<int>, ghost room: nat)
      returns (ok: bool, ghost x: int)
      requires Ready() && Inv(V(), detached) && c in V().live && node.Image() == V().fn[c]
      requires ShallowDetached(V(), detached, c) && HasRoom(V(), c, room)
      modifies node, disk, this`fnodeMap, this`dbMap, this`inodeMap, this`owner, this`stranded, this`lost
      ensures Ready() && (old(Synced()) ==> Synced())
      ensures ok ==> ChildrenDone(old(V()), V(), detached, c, FTERM_NUM) && node.Image() == V().fn[c]
      ensures !ok ==> Halted(old(V()), V(), detached, c, x)
      decreases room, 4
    {
      hide Halted, ChildrenDone, Inv, Synced, ShallowDetached, HasRoom;
      ghost var v := V();
      LiveIsInRange(v, detached, c);
      ChildrenDoneStart(v, detached, c);
      ok, x := true, -1;
      for i := SUB to FTERM_NUM
        invariant Ready() && (old(Synced()) ==> Synced())
        invariant ok && ChildrenDone(v, V(), detached, c, i) && node.Image() == V().fn[c]
      {
        ok, x := DeleteChildAt(node, i, v, c, detached, room);
        if !ok {
          return;
        }
      }
    }

    // ----- creating files and folders

    /** get_free_bit(FILE): the lowest free inode, marked as used. */
    method TakeInode() returns (idx: int)
      requires Ready()
      modifies this`inodeMap, this`usedI
      ensures Ready() && idx == Bitmap.Lowest(old(V()).files, 0, INODE_NUM)
      ensures V() == if idx == -1 then old(V()) else old(V()).(files := old(V()).files + {idx})
    {
      idx := Bitmap.FirstFree(inodeMap);
      if idx != -1 {
        inodeMap := Bitmap.Set(inodeMap, idx);
        if usedI < INODE_NUM {
          usedI := usedI + 1;
        }
      }
    }

    /** get_free_bit(FOLDER). */
    method TakeFnode() returns (idx: int)
      requires Ready()
      modifies this`fnodeMap, this`usedF
      ensures Ready() && idx == Bitmap.Lowest(old(V()).live, 0, FNODE_NUM)
      ensures V() == if idx == -1 then old(V()) else old(V()).(live := old(V()).live + {idx})
    {
      idx := Bitmap.FirstFree(fnodeMap);
      if idx != -1 {
        fnodeMap := Bitmap.Set(fnodeMap, idx);
        if usedF < FNODE_NUM {
          usedF := usedF + 1;
        }
      }
    }

    /** The node in memory has full tables and names `f` as itself. */
    ghost predicate IsFolder(node: Folder, f: int)
      reads node
    {
      |node.iterms| == ITERM_NUM && |node.fterms| == FTERM_NUM && node.fterms[SELF].fnode == f
    }

    /** insert_iterm: the name is compared with every slot, in use or not. */
    method InsertIterm(node: Folder, term: ITerm, ghost f: int) returns (ok: bool)
      requires Ready() && 0 <= f < FNODE_NUM && node.Image() == disk.fn[f]
      requires IsFolder(node, f)
      modifies node, disk
      ensures Ready() && disk.super == old(disk.super)
      ensures ok <==> (forall j :: 0 <= j < ITERM_NUM ==> old(node.iterms)[j].name != term.name)
                      && FreeFileSlot(old(node.iterms), 0) != -1
      ensures !ok ==> V() == old(V()) && node.Image() == old(node.Image())
      ensures ok ==> var n := old(node.Image());
        && node.Image() == n.(numI := n.numI + 1, iterms := n.iterms[FreeFileSlot(n.iterms, 0) := term])
        && V() == old(V()).(fn := old(V()).fn[f := node.Image()])
    {
      for i := 0 to ITERM_NUM
        invariant forall j :: 0 <= j < i ==> node.iterms[j].name != term.name
      {
        if node.iterms[i].name == term.name {
          return false;
        }
      }
      var p := -1;
      for i := 0 to ITERM_NUM
        invariant p == -1 && FreeFileSlot(node.iterms, 0) == FreeFileSlot(node.iterms, i)
      {
        if !node.iterms[i].used {
          p := i;
          break;
        }
      }
      if p == -1 {
        return false;
      }
      node.iterms := node.iterms[p := term];
      node.numI := node.numI + 1;
      disk.WriteFnode(node.Image(), node.fterms[SELF].fnode);
      return true;
    }

    /** insert_fterm: likewise over the child slots. */
    method InsertFterm(node: Folder, term: FTerm, ghost f: int) returns (ok: bool)
      requires Ready() && 0 <= f < FNODE_NUM && node.Image() == disk.fn[f]
      requires IsFolder(node, f)
      modifies node, disk
      ensures Ready() && disk.super == old(disk.super)
      ensures ok <==> (forall j :: SUB <= j < FTERM_NUM ==> old(node.fterms)[j].name != term.name)
                      && FreeChildSlot(old(node.fterms), SUB) != -1
      ensures !ok ==> V() == old(V()) && node.Image() == old(node.Image())
      ensures ok ==> var n := old(node.Image());
        && node.Image() == n.(numF := n.numF + 1, fterms := n.fterms[FreeChildSlot(n.fterms, SUB) := term])
        && V() == old(V()).(fn := old(V()).fn[f := node.Image()])
    {
      for i := SUB to FTERM_NUM
        invariant forall j :: SUB <= j < i ==> node.fterms[j].name != term.name
      {
        if node.fterms[i].name == term.name {
          return false;
        }
      }
      var p := -1;
      for i := SUB to FTERM_NUM
        invariant p == -1 && FreeChildSlot(node.fterms, SUB) == FreeChildSlot(node.fterms, i)
      {
        if !node.fterms[i].used {
          p := i;
          break;
        }
      }
      if p == -1 {
        return false;
      }
      node.fterms := node.fterms[p := term];
      node.numF := node.numF + 1;
      disk.WriteFnode(node.Image(), node.fterms[SELF].fnode);
      return true;
    }

    /** create_file. */
    method CreateFile(node: Folder, name: string, ghost f: int) returns (ok: bool)
      requires Ready() && Sized(V()) && f in V().live && node.Image() == V().fn[f] && IsFolder(node, f)
      modifies node, disk, this`inodeMap, this`usedI, this`fo, this`io
      ensures Ready() && node.Image() == V().fn[f] && f in V().live
      ensures old(Synced()) ==> Synced()
      ensures ok <==> CanCreateFile(old(V()), f, name)
      ensures !ok ==> V() == old(V())
      ensures ok ==> V() == AddFile(old(V()), f, FreeFileSlot(old(node.iterms), 0), name,
                                    Bitmap.Lowest(old(V()).files, 0, INODE_NUM))
    {
      hide Disk.Valid, Bitmap.Lowest;
      ghost var v := V();
      if node.numI >= ITERM_NUM {
        return false;
      }
      var k := TakeInode();
      if k == -1 {
        return false;
      }
      ok := InsertIterm(node, ITerm(true, name, k), f);
      if !ok {
        inodeMap := Bitmap.Clear(inodeMap, k);
        assert v.files + {k} - {k} == v.files;
        return;
      }
      StoreInode(k, f, FreeFileSlot(v.fn[f].iterms, 0));
    }

    /** The end of create_file: the superblock and an empty inode go to disk. */
    method StoreInode(k: int, ghost f: int, ghost i: int)
      requires Ready() && |fo| == |io| == INODE_NUM && 0 <= k < INODE_NUM
      modifies disk, this`fo, this`io
      ensures Ready() && Synced()
      ensures V() == old(V()).(ino := PutInode(fixed, old(V()).ino, k, ZeroInode()),
                               data := AfterInode(fixed, old(V()).data, k),
                               fo := old(fo)[k := f], io := old(io)[k := i])
    {
      fo, io := fo[k := f], io[k := i];
      disk.WriteSuper(Super());
      disk.WriteInode(ZeroInode(), k);
    }

    /** create_folder. */
    method CreateFolder(node: Folder, name: string, ghost f: int) returns (ok: bool)
      requires Ready() && Sized(V()) && f in V().live && node.Image() == V().fn[f] && IsFolder(node, f)
      modifies node, disk, this`fnodeMap, this`usedF, this`par, this`depth, this`pos
      ensures Ready() && node.Image() == V().fn[f] && f in V().live
      ensures old(Synced()) ==> Synced()
      ensures ok <==> CanCreateFolder(old(V()), f, name)
      ensures !ok ==> V() == old(V())
      ensures ok ==> V() == Grow(old(V()), f, FreeChildSlot(old(node.fterms), SUB), name,
                                 Bitmap.Lowest(old(V()).live, 0, FNODE_NUM))
    {
      hide Disk.Valid, Bitmap.Lowest;
      ghost var v := V();
      if node.numF >= FTERM_NUM {
        return false;
      }
      var c := TakeFnode();
      if c == -1 {
        return false;
      }
      ok := InsertFterm(node, FTerm(true, name, c), f);
      if !ok {
        fnodeMap := Bitmap.Clear(fnodeMap, c);
        assert v.live + {c} - {c} == v.live;
        return;
      }
      StoreFnode(NewNode(name, c, node.fterms[SELF].fnode), c, f, FreeChildSlot(v.fn[f].fterms, SUB));
    }

    /** The end of create_folder: the superblock and the new node go to disk. */
    method StoreFnode(n: FNode, c: int, ghost f: int, ghost i: int)
      requires Ready() && |par| == |depth| == |pos| == FNODE_NUM && 0 <= c < FNODE_NUM && 0 <= f < FNODE_NUM
      modifies disk, this`par, this`depth, this`pos
      ensures Ready() && Synced()
      ensures V() == old(V()).(fn := old(V()).fn[c := n], par := old(par)[c := f],
                               depth := old(depth)[c := old(depth)[f] + 1], pos := old(pos)[c := i])
    {
      par, depth, pos := par[c := f], depth[c := depth[f] + 1], pos[c := i];
      disk.WriteSuper(Super());
      disk.WriteFnode(n, c);
    }

    // ----- file contents

    /** get_free_bit(DB). */
    method TakeBlock() returns (idx: int)
      requires Ready()
      modifies this`dbMap, this`usedD
      ensures Ready() && idx == Bitmap.Lowest(old(V()).blocks, 0, DB_NUM)
      ensures V() == if idx == -1 then old(V()) else old(V()).(blocks := old(V()).blocks + {idx})
    {
      idx := Bitmap.FirstFree(dbMap);
      if idx != -1 {
        dbMap := Bitmap.Set(dbMap, idx);
        if usedD < DB_NUM {
          usedD := usedD + 1;
        }
      }
    }

    /** One block of a write: the last one is padded with zeros. */
    method MakeBlock(buf: seq<byte>, length: nat, i: nat) returns (b: Block)
      requires Needed(fixed, length) <= |buf| && i * SECTOR_SIZE < length
      ensures b == Chunk(fixed, buf, length, i)
    {
      hide Chunk, Needed;
      var endIdx := (length - 1) / SECTOR_SIZE;
      var endOffs := length - endIdx * SECTOR_SIZE;
      var start := if fixed then i * SECTOR_SIZE else 0;
      PartFits(fixed, length, i);
      if i == endIdx {
        LastChunk(fixed, buf, length, i);
        b := buf[start..start + endOffs] + seq(SECTOR_SIZE - endOffs, _ => 0);
      } else {
        WholeChunk(fixed, buf, length, i);
        b := buf[start..start + SECTOR_SIZE];
      }
    }

    /** The second loop of write_content: it takes the lowest free blocks, one by one. */
    method FillBlocks(buf: seq<byte>, length: nat) returns (ok: bool, idxs: seq<int>)
      requires Ready() && |V().data| == DB_NUM && length <= MAX_LEN && Needed(fixed, length) <= |buf|
      requires fixed || NoneShared(V()) || NumBlocks(length) <= FreeBelow(V().blocks, Limit(fixed, DB) + 1)
      modifies disk, this`dbMap, this`usedD
      ensures Ready() && Filled(old(V()), V(), buf, length, idxs) && disk.super == old(disk.super)
      ensures ok <==> NumBlocks(length) <= FreeBelow(old(V()).blocks, DB_NUM)
      ensures ok ==> |idxs| == NumBlocks(length)
      ensures AllOwn(fixed, idxs) || NoneShared(old(V()))
      ensures !ok ==> FreeBelow(V().blocks, DB_NUM) == 0
    {
      hide Filled, FreeBelow, AllOwn, Own, NoneShared;
      ghost var v := V();
      FillNone(v, buf, length);
      idxs := [];
      for i := 0 to NumBlocks(length)
        invariant Ready() && disk.super == old(disk.super)
        invariant Filled(v, V(), buf, length, idxs) && |idxs| == i
        invariant FreeBelow(V().blocks, DB_NUM) == FreeBelow(v.blocks, DB_NUM) - i
        invariant AllOwn(fixed, idxs) || NoneShared(v)
        invariant fixed || NoneShared(v) || NumBlocks(length) - i <= FreeBelow(V().blocks, Limit(fixed, DB) + 1)
      {
        var idx := FillBlock(buf, length, i, v, idxs);
        if idx == -1 {
          return false, idxs;
        }
        AllOwnMore(fixed, idxs, idx);
        idxs := idxs + [idx];
      }
      return true, idxs;
    }

    method FillBlock(buf: seq<byte>, length: nat, i: nat, ghost v: View, ghost idxs: seq<int>) returns (idx: int)
      requires Ready() && |V().data| == DB_NUM && length <= MAX_LEN && Needed(fixed, length) <= |buf|
      requires v.fixed == fixed && Filled(v, V(), buf, length, idxs) && |idxs| == i < NumBlocks(length)
      modifies disk, this`dbMap, this`usedD
      ensures Ready() && disk.super == old(disk.super)
      ensures idx == -1 <==> FreeBelow(old(V()).blocks, DB_NUM) == 0
      ensures idx == -1 ==> V() == old(V())
      ensures idx != -1 ==> Filled(v, V(), buf, length, idxs + [idx])
      ensures idx != -1 ==> FreeBelow(V().blocks, DB_NUM) == FreeBelow(old(V()).blocks, DB_NUM) - 1
      ensures var lim := Limit(fixed, DB) + 1;
              FreeBelow(old(V()).blocks, lim) > 0 ==>
                Own(fixed, DB, idx) && idx != -1 && FreeBelow(V().blocks, lim) == FreeBelow(old(V()).blocks, lim) - 1
    {
      hide Filled, FreeBelow, Chunk, PutBlock;
      ghost var w := V();
      idx := TakeBlock();
      CountTaken(w.blocks, idx);
      if idx == -1 {
        return;
      }
      var b := MakeBlock(buf, length, i);
      disk.WriteDb(b, idx);
      FillOne(v, w, V(), buf, length, idxs, idx);
    }

    /** The free blocks, and those with sectors of their own, before and after one is taken. */
    lemma CountTaken(bits: set<int>, idx: int)
      requires idx == Bitmap.Lowest(bits, 0, DB_NUM)
      ensures idx == -1 <==> FreeBelow(bits, DB_NUM) == 0
      ensures idx != -1 ==> FreeBelow(bits + {idx}, DB_NUM) == FreeBelow(bits, DB_NUM) - 1
      ensures var lim := Limit(fixed, DB) + 1;
              FreeBelow(bits, lim) > 0 ==>
                Own(fixed, DB, idx) && idx != -1 && FreeBelow(bits + {idx}, lim) == FreeBelow(bits, lim) - 1
    {
      hide FreeBelow, Bitmap.Lowest;
      var lim := Limit(fixed, DB) + 1;
      if idx == -1 {
        NoneFree(bits, DB_NUM);
        NoneFree(bits, lim);
      } else {
        if FreeBelow(bits, lim) > 0 { FreeMeansLowest(bits, lim, DB_NUM); }
        FreeAfterTaking(bits, idx, DB_NUM);
        FreeAfterTaking(bits, idx, lim);
      }
    }

    /** The end of write_content: superblock and inode go to disk. */
    method StoreContent(k: int, length: nat, idxs: seq<int>)
      requires Ready() && InodeInv(V()) && k in V().files && |idxs| <= FILE_BLOCKS && Own(fixed, FILE, k)
      modifies disk, this`owner
      ensures Ready() && Synced()
      ensures V() == Named(old(V()), k, length, idxs)
    {
      var inode := disk.ReadInode(k);
      owner := owner + Owners(k, idxs);
      disk.WriteSuper(Super());
      disk.WriteInode(NewInode(inode, length, idxs), k);
    }

    /** write_content.  The caller gives a length that a file can have and a buffer that holds
        what the copies read; with the shipped index bound, the file has a sector of its own, and
        so have enough free blocks or else all files.  It fails exactly when the free blocks run
        out; then the bitmap on disk is that of the old content freed, which is the one in memory
        exactly when nothing was free even so. */
    method WriteContent(k: int, buf: seq<byte>, length: nat) returns (r: int, ghost e: Event)
      requires Valid() && length <= MAX_LEN && Needed(fixed, length) <= |buf|
      requires 0 <= k < INODE_NUM ==> k in V().files && Addressable(V(), k, length)
      modifies disk, this`dbMap, this`usedD, this`owner, this`stranded
      ensures Valid() && Cwd() == old(Cwd())
      ensures !(0 <= k < INODE_NUM) ==> r == -1 && V() == old(V())
      ensures 0 <= k < INODE_NUM ==> r == if EnoughRoom(old(V()), k, length) then length else -1
      ensures old(Synced()) && 0 <= k < INODE_NUM && r == -1 ==>
                && Bitmap.Bits(disk.super.dbMap) == AfterFree(old(V()), k)
                && (Synced() <==> FreeBelow(AfterFree(old(V()), k), DB_NUM) == 0)
      ensures old(Synced()) && (r != -1 || !(0 <= k < INODE_NUM)) ==> Synced()
      ensures e == if !(0 <= k < INODE_NUM) then NoEffect
                   else if r != -1 then Write(k, buf, length) else FailedWrite(k, length)
      ensures BlockInv(old(V())) ==> Step(old(V()), e, V())
    {
      hide LinksInv, FileInv, NodeOk, BlockInv, WriteDone, WriteFailed, Freed, Under;
      if k >= INODE_NUM || k < 0 {
        return -1, NoEffect;
      }
      ghost var u := V();
      FreeContent(k);
      r := StoreNew(k, buf, length, u);
      e := if r != -1 then Write(k, buf, length) else FailedWrite(k, length);
      OnlyContentChanged(u, V(), {});
      if r == -1 { SameWhenFull(AfterFree(u, k), V().blocks, DB_NUM); }
    }

    /** The rest of write_content once the old content is freed. */
    method StoreNew(k: int, buf: seq<byte>, length: nat, ghost u: View) returns (r: int)
      requires Ready() && InodeInv(u) && k in u.files && V() == FreeFile(u, k)
      requires length <= MAX_LEN && Needed(fixed, length) <= |buf| && Addressable(u, k, length)
      modifies disk, this`dbMap, this`usedD, this`owner, this`stranded
      ensures Ready() && InodeInv(V())
      ensures r == if EnoughRoom(u, k, length) then length else -1
      ensures r != -1 && old(Synced()) ==> Synced()
      ensures r == -1 ==> disk.super == old(disk.super) && FreeBelow(V().blocks, DB_NUM) == 0
      ensures V() == u.(blocks := V().blocks, data := V().data, ino := V().ino, owner := V().owner,
                        stranded := V().stranded)
      ensures BlockInv(u) ==> if r != -1 then WriteDone(u, V(), k, buf, length) else WriteFailed(u, V(), k)
    {
      hide BlockInv, WriteDone, WriteFailed, Freed;
      if length == 0 {
        StoreEmpty(k, u, buf);
        r := 0;
      } else {
        r := StoreBlocks(k, buf, length, u);
      }
    }

    /** write_content of no bytes, once the old content is freed: only the inode is written. */
    method StoreEmpty(k: int, ghost u: View, ghost buf: seq<byte>)
      requires Ready() && InodeInv(u) && k in u.files && V() == FreeFile(u, k)
      modifies disk
      ensures Ready() && InodeInv(V()) && disk.super == old(disk.super)
      ensures V() == FreeFile(u, k).(ino := V().ino, data := V().data)
      ensures BlockInv(u) ==> WriteDone(u, V(), k, buf, 0)
    {
      hide BlockInv, WriteDone, Freed, Zeroed, Emptied, Filled;
      ghost var v := V();
      EmptyStaysEmpty(u, k, buf);
      var inode := disk.ReadInode(k);
      disk.WriteInode(NewInode(inode, 0, []), k);
      assert Owners(k, []) == map[];
      assert v.owner + map[] == v.owner;
      assert V() == Named(v, k, 0, []);
      RewriteKeepsInodes(u, v, v, k, buf, 0, []);
      if BlockInv(u) { WriteIsDone(u, v, v, k, buf, 0, []); }
    }

    /** write_content of some bytes, once the old content is freed. */
    method StoreBlocks(k: int, buf: seq<byte>, length: nat, ghost u: View) returns (r: int)
      requires Ready() && InodeInv(u) && k in u.files && V() == FreeFile(u, k)
      requires 0 < length <= MAX_LEN && Needed(fixed, length) <= |buf| && Addressable(u, k, length)
      modifies disk, this`dbMap, this`usedD, this`owner, this`stranded
      ensures Ready() && InodeInv(V())
      ensures r == if EnoughRoom(u, k, length) then length else -1
      ensures r != -1 ==> Synced()
      ensures r == -1 ==> disk.super == old(disk.super) && FreeBelow(V().blocks, DB_NUM) == 0
      ensures V() == u.(blocks := V().blocks, data := V().data, ino := V().ino, owner := V().owner,
                        stranded := V().stranded)
      ensures BlockInv(u) ==> if r != -1 then WriteDone(u, V(), k, buf, length) else WriteFailed(u, V(), k)
    {
      hide BlockInv, WriteDone, WriteFailed, Freed, Filled;
      var ok, idxs := FillBlocks(buf, length);
      if !ok {
        GiveUp(k, buf, length, idxs, u);
        return -1;
      }
      StoreRewritten(k, buf, length, idxs, u);
      return length;
    }

    /** A write that ran out of blocks: the old inode, still on disk, owns what it owned. */
    ghost method GiveUp(k: int, buf: seq<byte>, length: nat, idxs: seq<int>, u: View)
      requires Ready() && InodeInv(u) && k in u.files && u.fixed == fixed && Needed(fixed, length) <= |buf|
      requires Filled(FreeFile(u, k), V(), buf, length, idxs) && FreeBelow(V().blocks, DB_NUM) == 0
      requires AllOwn(fixed, idxs) || NoneShared(u)
      modifies this`owner, this`stranded
      ensures V() == u.(blocks := old(V()).blocks, data := V().data, ino := V().ino, stranded := V().stranded)
      ensures InodeInv(V()) && (BlockInv(u) ==> WriteFailed(u, V(), k))
    {
      ghost var w := V();
      owner, stranded := u.owner, w.blocks - u.owner.Keys;
      FillKeepsInodes(u, w, k, buf, length, idxs);
      if BlockInv(u) { FailureKeepsBlocks(u, FreeFile(u, k), w, k, buf, length, idxs); }
    }

    /** A write that found its blocks: the inode names them. */
    method StoreRewritten(k: int, ghost buf: seq<byte>, length: nat, idxs: seq<int>, ghost u: View)
      requires Ready() && u.fixed == fixed && InodeInv(u) && k in u.files && length > 0
      requires Rewritten(u, FreeFile(u, k), V(), k, buf, length, idxs)
      modifies disk, this`owner
      ensures Ready() && Synced() && InodeInv(V())
      ensures V() == u.(blocks := V().blocks, data := V().data, ino := V().ino, owner := V().owner,
                        stranded := V().stranded)
      ensures BlockInv(u) ==> WriteDone(u, V(), k, buf, length)
    {
      ghost var v, w := FreeFile(u, k), V();
      RewriteKeepsInodes(u, v, w, k, buf, length, idxs);
      if BlockInv(u) { WriteIsDone(u, v, w, k, buf, length, idxs); }
      StoreContent(k, length, idxs);
    }

    /** read_db into a buffer: a block whose bit is clear leaves the buffer as it was. */
    method ReadDb(before: Block, idx: int) returns (b: Block)
      requires Ready() && 0 <= idx < DB_NUM
      ensures b == if idx in V().blocks then V().data[idx] else before
    {
      b := before;
      if dbMap[idx] {
        b := disk.ReadDb(idx);
      }
    }

    /** read_content: what it copies to the caller's buffer, and what it returns. */
    method ReadContent(k: int, offset: int, length: int) returns (r: int, out: seq<byte>)
      requires Ready() && BlockInv(V()) && (0 <= k < INODE_NUM ==> k in V().files)
      requires offset + length <= 0x7FFF_FFFF
      ensures offset < 0 || length <= 0 || !(0 <= k < INODE_NUM) ==> r == -1 && out == []
      ensures offset >= 0 && length > 0 && 0 <= k < INODE_NUM ==>
                var len := V().ino[k].len;
                if len <= offset then r == 0 && out == []
                else
                  var end := if offset + length >= len then len else offset + length;
                  out == Content(V(), k)[offset..end] && r == (if fixed then end else end % 512) - offset
    {
      out := [];
      if offset < 0 || length <= 0 {
        return -1, [];
      }
      if k >= INODE_NUM || k < 0 {
        return -1, [];
      }
      var inode := disk.ReadInode(k);
      if inode.len <= offset {
        return 0, [];
      }
      var end := if offset + length >= inode.len then inode.len else offset + length;
      out := ReadBlocks(k, inode, offset, end);
      return (if fixed then end else end % SECTOR_SIZE) - offset, out;
    }

    method ReadBlocks(k: int, inode: INode, offset: nat, end: nat) returns (out: seq<byte>)
      requires Ready() && BlockInv(V()) && k in V().files && inode == V().ino[k]
      requires offset < end <= inode.len
      ensures out == Content(V(), k)[offset..end]
    {
      var startIdx, endIdx := offset / SECTOR_SIZE, end / SECTOR_SIZE;
      if endIdx == startIdx {
        out := ReadPart(k, inode, startIdx, offset - startIdx * SECTOR_SIZE, end - endIdx * SECTOR_SIZE);
      } else {
        out := ReadAcross(k, inode, offset, end, startIdx, endIdx);
      }
    }

    /** The three parts of read_content's copying: the end of the first block, the whole
        blocks, the start of the last block. */
    method ReadAcross(k: int, inode: INode, offset: nat, end: nat, startIdx: nat, endIdx: nat) returns (out: seq<byte>)
      requires Ready() && BlockInv(V()) && k in V().files && inode == V().ino[k]
      requires offset < end <= inode.len && startIdx == offset / SECTOR_SIZE && endIdx == end / SECTOR_SIZE
      requires startIdx != endIdx
      ensures out == Content(V(), k)[offset..end]
    {
      hide Content;
      BlockBounds(offset, end);
      var first := ReadPart(k, inode, startIdx, offset - startIdx * SECTOR_SIZE, SECTOR_SIZE);
      var whole := ReadWhole(k, inode, startIdx + 1, endIdx);
      var last := ReadPart(k, inode, endIdx, 0, end - endIdx * SECTOR_SIZE);
      JoinThree(Content(V(), k), offset, (startIdx + 1) * SECTOR_SIZE, endIdx * SECTOR_SIZE, end);
      out := first + whole + last;
    }

    /** The blocks `lo` to `hi`, whole. */
    method ReadWhole(k: int, inode: INode, lo: nat, hi: nat) returns (out: seq<byte>)
      requires Ready() && BlockInv(V()) && k in V().files && inode == V().ino[k]
      requires lo <= hi && hi * SECTOR_SIZE <= inode.len
      ensures out == Content(V(), k)[lo * SECTOR_SIZE..hi * SECTOR_SIZE]
    {
      out := [];
      for i := lo to hi
        invariant out == Content(V(), k)[lo * SECTOR_SIZE..i * SECTOR_SIZE]
      {
        var part := ReadPart(k, inode, i, 0, SECTOR_SIZE);
        SliceJoin(Content(V(), k), lo * SECTOR_SIZE, i * SECTOR_SIZE, (i + 1) * SECTOR_SIZE);
        out := out + part;
      }
    }

    /** The bytes `a` to `b` of block `j`.  Where the range is empty the block need not be one
        that the file owns: read_content also reads the block after a whole number of blocks. */
    method ReadPart(k: int, inode: INode, j: nat, a: nat, b: nat) returns (part: seq<byte>)
      requires Ready() && BlockInv(V()) && k in V().files && inode == V().ino[k]
      requires a <= b <= SECTOR_SIZE && j * SECTOR_SIZE + b <= inode.len
      ensures part == Content(V(), k)[j * SECTOR_SIZE + a..j * SECTOR_SIZE + b]
    {
      var block := ReadDb(ZeroBlock(), inode.blocks[j]);
      part := block[a..b];
      if a < b {
        assert Owns(V(), k, j);
        ContentInBlock(V(), k, j, a, b);
      }
    }

    // ----- the operations on paths

    /** The folder that the cached node is the node of. */
    function Cwd(): int
      reads cur
    {
      if |cur.fterms| == FTERM_NUM then cur.fterms[SELF].fnode else -1
    }

    /** The cache holds the disk image of a live folder; in a valid state it hangs from the root. */
    ghost predicate Coherent()
      reads this, disk, cur
    {
      Cwd() in V().live && 0 <= Cwd() < |V().fn| && cur.Image() == V().fn[Cwd()]
    }

    ghost predicate Valid()
      reads this, disk, cur
    {
      Ready() && Inv(V(), {}) && Coherent() && Rooted(V(), Cwd())
    }

    /** goin_sp: the cache follows the walk, and stays at the last folder reached when the walk fails. */
    method GoinSp(abs: bool, names: seq<string>) returns (ok: bool)
      requires Valid() && Parts(names)
      modifies cur
      ensures Valid()
      ensures Place(ok, Cwd()) == Walk(V().fn, if abs then ROOT else old(Cwd()), names)
    {
      hide NodesInv, FileInv, InodeInv;
      if abs {
        LoadFolder(ROOT);
      }
      ghost var start := Cwd();
      for i := 0 to |names|
        invariant Valid()
        invariant Walk(V().fn, start, names) == Walk(V().fn, Cwd(), names[i..])
      {
        ok := GoinOne(names[i]);
        assert names[i..][0] == names[i] && names[i..][1..] == names[i + 1..];
        if !ok {
          return;
        }
      }
      return true;
    }

    /** read_fnode into the cache. */
    method LoadFolder(idx: int)
      requires Valid() && 0 <= idx < FNODE_NUM && (idx in V().live ==> Rooted(V(), idx))
      modifies cur
      ensures Valid() && Cwd() == if idx in V().live then idx else old(Cwd())
    {
      ReadFnode(cur, idx);
      if idx in V().live { NodeIsOk(V(), {}, idx); }
    }

    method GoinOne(name: string) returns (ok: bool)
      requires Valid() && name != ""
      modifies cur
      ensures Valid()
      ensures var j := AnySlot(old(cur.fterms), name, 0);
        ok == (j != -1) && Cwd() == if ok then V().fn[old(Cwd())].fterms[j].fnode else old(Cwd())
    {
      NodeIsOk(V(), {}, Cwd());
      SlotIsStep(V(), Cwd(), name);
      for j := 0 to FTERM_NUM
        invariant AnySlot(cur.fterms, name, 0) == AnySlot(cur.fterms, name, j)
      {
        if cur.fterms[j].used && cur.fterms[j].name == name {
          LoadFolder(cur.fterms[j].fnode);
          return true;
        }
      }
      return false;
    }

    /** The common start of the operations: into the folder that holds the last part. */
    method GoinTarget(path: string) returns (ok: bool, name: string)
      requires Valid() && FitsFields(path) && Split(path).names != []
      modifies cur
      ensures Valid() && name == LastPart(path) && name != ""
      ensures Place(ok, Cwd()) == Target(V().fn, old(Cwd()), path)
    {
      SplitNames(path);
      var sp := SplitPath(path);
      name := sp.names[|sp.names| - 1];
      ok := GoinSp(sp.abs, sp.names[..|sp.names| - 1]);
    }

    /** create_folder in the current folder.  A child called "." or ".." is created like any other. */
    method CreateFolderHere(name: string) returns (ok: bool, ghost e: Event)
      requires Valid()
      modifies this`fnodeMap, this`usedF, this`par, this`depth, this`pos, disk, cur
      ensures Ready() && (old(Synced()) ==> Synced())
      ensures ok <==> CanCreateFolder(old(V()), old(Cwd()), name)
      ensures ok ==> V() == Grow(old(V()), old(Cwd()), FreeChildSlot(old(cur.fterms), SUB), name,
                                 Bitmap.Lowest(old(V()).live, 0, FNODE_NUM))
      ensures !ok ==> V() == old(V())
      ensures ok ==> e == MakeFolder(old(Cwd()), FreeChildSlot(old(cur.fterms), SUB), name,
                                     Bitmap.Lowest(old(V()).live, 0, FNODE_NUM))
      ensures !ok || name != "" ==> Valid() && Cwd() == old(Cwd()) && Step(old(V()), e, V())
      ensures !ok || name != "" ==> forall g :: g in old(V()).live && Rooted(old(V()), g) ==> Rooted(V(), g)
    {
      hide NodesInv, FileInv, InodeInv, BlockInv, Under;
      ghost var v, f := V(), Cwd();
      e := NoEffect;
      NodeIsOk(v, {}, f);
      ok := CreateFolder(cur, name, f);
      if ok {
        e := MakeFolder(f, FreeChildSlot(v.fn[f].fterms, SUB), name, Bitmap.Lowest(v.live, 0, FNODE_NUM));
        if name != "" {
          GrowKeeps(v, f, e.i, name, e.c);
          GrowKeepsRooted(v, V(), f, e.i, name, e.c);
          CacheFollows(f);
        }
      } else {
        CacheFollows(f);
      }
    }

    /** PSV_create_folder. */
    method CreateFolderAt(path: string) returns (ok: bool, ghost e: Event)
      requires Valid() && FitsFields(path)
      modifies this`fnodeMap, this`usedF, this`par, this`depth, this`pos, disk, cur
      ensures Valid() && (old(Synced()) ==> Synced())
      ensures Split(path).names == [] ==> !ok
      ensures Split(path).names != [] ==>
                var p := Target(old(V()).fn, old(Cwd()), path);
                && (ok <==> p.ok && p.folder in old(V()).live && CanCreateFolder(old(V()), p.folder, LastPart(path)))
                && (ok ==> V() == Grow(old(V()), p.folder, FreeChildSlot(old(V()).fn[p.folder].fterms, SUB),
                                       LastPart(path), Bitmap.Lowest(old(V()).live, 0, FNODE_NUM)))
      ensures !ok ==> V() == old(V())
      ensures Cwd() == CwdAfter(old(V()).fn, old(Cwd()), path)
      ensures Step(old(V()), e, V())
      ensures ok ==>
                var names, start := Split(path).names, if Split(path).abs then ROOT else old(Cwd());
                && Cwd() == old(Cwd())
                && e.MakeFolder? && e.c !in old(V()).live && V().live == old(V()).live + {e.c}
                && names != []
                && (names[|names| - 1] != "." && names[|names| - 1] != ".." ==>
                      Walk(V().fn, start, names) == Place(true, e.c))
      ensures Split(path).names != [] ==>
                var names, start := Split(path).names, if Split(path).abs then ROOT else old(Cwd());
                var q := Walk(old(V()).fn, start, names[..|names| - 1]);
                Cwd() == if q.ok then old(Cwd()) else q.folder
    {
      hide Split, Walk, LinksInv, FileInv, InodeInv, NodeOk, Rooted;
      var origin := Cwd();
      var sp := SplitPath(path);
      if |sp.names| <= 0 {
        return false, NoEffect;
      }
      var reached, name := GoinTarget(path);
      if !reached {
        return false, NoEffect;
      }
      ghost var v := V();
      ok, e := CreateFolderHere(name);
      LoadFolder(origin);
      if ok { MadeAt(v, origin, path, e.i, e.c); }
    }

    /** create_file in the current folder. */
    method CreateFileHere(name: string) returns (ok: bool, ghost e: Event)
      requires Valid() && name != ""
      modifies this`inodeMap, this`usedI, this`fo, this`io, disk, cur
      ensures Valid() && Cwd() == old(Cwd()) && (old(Synced()) ==> Synced())
      ensures ok <==> CanCreateFile(old(V()), old(Cwd()), name)
      ensures ok ==> V() == AddFile(old(V()), old(Cwd()), FreeFileSlot(old(cur.iterms), 0), name,
                                    Bitmap.Lowest(old(V()).files, 0, INODE_NUM))
      ensures !ok ==> V() == old(V())
      ensures ok ==> e == MakeFile(old(Cwd()), FreeFileSlot(old(cur.iterms), 0), name,
                                   Bitmap.Lowest(old(V()).files, 0, INODE_NUM))
      ensures Step(old(V()), e, V())
    {
      ghost var v, f := V(), Cwd();
      e := NoEffect;
      NodeIsOk(v, {}, f);
      ok := CreateFile(cur, name, f);
      if ok {
        e := MakeFile(f, FreeFileSlot(v.fn[f].iterms, 0), name, Bitmap.Lowest(v.files, 0, INODE_NUM));
        AddFileKeeps(v, {}, f, e.i, name, e.k);
      }
      CacheFollows(f);
    }

    /** PSV_create_file.  The path has a part: with none the original reads before its table
        of parts. */
    method CreateFileAt(path: string) returns (ok: bool, ghost e: Event)
      requires Valid() && FitsFields(path) && Split(path).names != []
      modifies this`inodeMap, this`usedI, this`fo, this`io, disk, cur
      ensures Valid() && (old(Synced()) ==> Synced())
      ensures var p := Target(old(V()).fn, old(Cwd()), path);
        && (ok <==> p.ok && p.folder in old(V()).live && CanCreateFile(old(V()), p.folder, LastPart(path)))
        && (ok ==> V() == AddFile(old(V()), p.folder, FreeFileSlot(old(V()).fn[p.folder].iterms, 0), LastPart(path),
                                  Bitmap.Lowest(old(V()).files, 0, INODE_NUM)))
      ensures !ok ==> V() == old(V())
      ensures Cwd() == CwdAfter(old(V()).fn, old(Cwd()), path)
      ensures Step(old(V()), e, V())
      ensures var names, start := Split(path).names, if Split(path).abs then ROOT else old(Cwd());
              var q, n := Walk(old(V()).fn, start, names[..|names| - 1]), names[|names| - 1];
              && Cwd() == (if q.ok then old(Cwd()) else q.folder)
              && (ok ==>
                    && q.ok && q.folder in old(V()).live && e.MakeFile? && e.f == q.folder
                    && 0 <= e.i < |V().fn[q.folder].iterms| && V().fn[q.folder].iterms[e.i] == ITerm(true, n, e.k)
                    && e.k !in old(V()).files && V().files == old(V()).files + {e.k})
    {
      hide Split, Walk, LinksInv, FileInv, InodeInv, NodeOk, Under, PutInode, AfterInode, FreeSlot;
      var origin := Cwd();
      var reached, name := GoinTarget(path);
      if !reached {
        return false, NoEffect;
      }
      ok, e := CreateFileHere(name);
      LoadFolder(origin);
    }

    /** delete_folder in the current folder. */
    method DeleteFolderHere(name: string) returns (ok: bool, ghost e: Event)
      requires Valid() && name != ""
      modifies this`fnodeMap, this`dbMap, this`inodeMap, this`owner, this`stranded, this`lost, disk, cur
      ensures Valid() && Cwd() == old(Cwd()) && (old(Synced()) ==> Synced())
      ensures |old(cur.fterms)| == FTERM_NUM
      ensures var i := ChildSlot(old(cur.fterms), name, FTERM_NUM);
        && (ok <==> !Dotted(name) && CanErase(old(V()), old(Cwd()), i))
        && Deletion(old(Cwd()), i, name, ok, e)
      ensures Step(old(V()), e, V())
    {
      hide LinksInv, FileInv, InodeInv, Erased, Abandoned, Clean, Under;
      ghost var v, f := V(), Cwd();
      ghost var x;
      NodeIsOk(v, {}, f);
      ok, x := DeleteFolder(cur, name, f, {}, Deepest(v.depth));
      ghost var i := ChildSlot(v.fn[f].fterms, name, FTERM_NUM);
      e := if ok then RemoveFolder(f, i) else if Dotted(name) || i == -1 then NoEffect else FailedRemove(f, i, x);
      if e.RemoveFolder? { ErasedKeepsRooted(v, V(), f, i); }
      if e.FailedRemove? { FailsKeepsRooted(v, V(), f, i, x); }
      CacheFollows(f);
    }

    /** PSV_delete_folder.  A failed deletion leaves the cache in the folder it was asked of; so
        does a successful one where the folder that was current is inside the deleted subtree. */
    method DeleteFolderAt(path: string) returns (ok: bool, ghost e: Event)
      requires Valid() && FitsFields(path)
      modifies this`fnodeMap, this`dbMap, this`inodeMap, this`owner, this`stranded, this`lost, disk, cur
      ensures Valid() && (old(Synced()) ==> Synced())
      ensures Split(path).names == [] ==> !ok && e == NoEffect && Cwd() == old(Cwd())
      ensures Split(path).names != [] ==>
                var p, name := Target(old(V()).fn, old(Cwd()), path), LastPart(path);
                && p.folder in old(V()).live && |old(V()).fn[p.folder].fterms| == FTERM_NUM
                && var i := ChildSlot(old(V()).fn[p.folder].fterms, name, FTERM_NUM);
                && (ok <==> p.ok && !Dotted(name) && CanErase(old(V()), p.folder, i))
                && (if p.ok then Deletion(p.folder, i, name, ok, e) else e == NoEffect)
                && Cwd() == if ok && old(Cwd()) in V().live then old(Cwd()) else p.folder
      ensures Step(old(V()), e, V())
      ensures ok ==>
                var names, start := Split(path).names, if Split(path).abs then ROOT else old(Cwd());
                var d := Walk(old(V()).fn, start, names);
                && names != [] && names[|names| - 1] != "." && names[|names| - 1] != ".."
                && d.ok && d.folder in old(V()).live && d.folder !in V().live
    {
      hide Split, Walk, LinksInv, FileInv, InodeInv, NodeOk, Pruned, Under, Clean, Abandoned;
      var origin := Cwd();
      var sp := SplitPath(path);
      if |sp.names| <= 0 {
        return false, NoEffect;
      }
      ghost var v := V();
      var reached, name := GoinTarget(path);
      NodeIsOk(V(), {}, Cwd());
      if !reached {
        return false, NoEffect;
      }
      ok, e := DeleteFolderHere(name);
      if ok {
        ErasedKeepsRooted(v, V(), e.f, e.i);
        ErasedAt(v, origin, path, V(), e.i);
        LoadFolder(origin);
      }
    }

    /** The cache is the node that the operation worked on. */
    lemma CacheFollows(f: int)
      requires Ready() && Inv(V(), {}) && f in V().live && cur.Image() == V().fn[f] && Rooted(V(), f)
      ensures Valid() && Cwd() == f
    {
      NodeIsOk(V(), {}, f);
    }

    /** delete_file in the current folder. */
    method DeleteFileHere(name: string) returns (ok: bool, ghost e: Event)
      requires Valid()
      modifies this`dbMap, this`inodeMap, this`owner, this`stranded, disk, cur
      ensures Valid() && Cwd() == old(Cwd()) && (old(Synced()) ==> Synced())
      ensures |old(cur.iterms)| == ITERM_NUM
      ensures ok <==> FileSlot(old(cur.iterms), name, ITERM_NUM) != -1
      ensures ok ==> V() == DropFile(old(V()), old(Cwd()), FileSlot(old(cur.iterms), name, ITERM_NUM))
      ensures ok ==> e == RemoveFile(old(Cwd()), FileSlot(old(cur.iterms), name, ITERM_NUM))
      ensures !ok ==> V() == old(V())
      ensures Step(old(V()), e, V())
    {
      ghost var v, f := V(), Cwd();
      e := NoEffect;
      NodeIsOk(v, {}, f);
      ok := DeleteFile(cur, name, f);
      if ok {
        e := RemoveFile(f, FileSlot(v.fn[f].iterms, name, ITERM_NUM));
        DropFileKeeps(v, {}, f, e.i);
      }
      CacheFollows(f);
    }

    /** PSV_delete_file: the cache stays in the folder of the file. */
    method DeleteFileOf(path: string) returns (ok: bool, ghost e: Event)
      requires Valid() && FitsFields(path)
      modifies this`dbMap, this`inodeMap, this`owner, this`stranded, disk, cur
      ensures Valid() && (old(Synced()) ==> Synced())
      ensures Split(path).names == [] ==> !ok && Cwd() == old(Cwd())
      ensures Split(path).names != [] ==>
                var p := Target(old(V()).fn, old(Cwd()), path);
                && p.folder in old(V()).live && |old(V()).fn[p.folder].iterms| == ITERM_NUM
                && var i := FileSlot(old(V()).fn[p.folder].iterms, LastPart(path), ITERM_NUM);
                && (ok <==> p.ok && i != -1)
                && (ok ==> V() == DropFile(old(V()), p.folder, i))
                && Cwd() == p.folder
      ensures !ok ==> V() == old(V())
      ensures Step(old(V()), e, V())
      ensures Split(path).names != [] ==>
                var names, start := Split(path).names, if Split(path).abs then ROOT else old(Cwd());
                var q, n := Walk(old(V()).fn, start, names[..|names| - 1]), names[|names| - 1];
                && Cwd() == q.folder && q.folder in old(V()).live
                && (ok ==>
                      && q.ok && e.RemoveFile? && e.f == q.folder && 0 <= e.i < |old(V()).fn[q.folder].iterms|
                      && var t := old(V()).fn[q.folder].iterms[e.i];
                         && t.used && t.name == n && V().files == old(V()).files - {t.inode}
                         && V().fn[q.folder].iterms == old(V()).fn[q.folder].iterms[e.i := t.(used := false)])
                && (q.ok && !ok ==> forall j :: 0 <= j < |old(V()).fn[q.folder].iterms| ==>
                      !(old(V()).fn[q.folder].iterms[j].used && old(V()).fn[q.folder].iterms[j].name == n))
    {
      hide Split, Walk, LinksInv, NodeOk;
      var sp := SplitPath(path);
      if |sp.names| <= 0 {
        return false, NoEffect;
      }
      var reached, name := GoinTarget(path);
      NodeIsOk(V(), {}, Cwd());
      if !reached {
        return false, NoEffect;
      }
      ok, e := DeleteFileHere(name);
    }

    /** get_inode_idx_by_path, for a path with a part. */
    method InodeByPath(path: string) returns (idx: int)
      requires Valid() && FitsFields(path) && Split(path).names != []
      modifies cur
      ensures Valid() && Cwd() == CwdAfter(V().fn, old(Cwd()), path)
      ensures var p := Target(V().fn, old(Cwd()), path);
        && p.folder in V().live && |V().fn[p.folder].iterms| == ITERM_NUM
        && var i := FileSlot(V().fn[p.folder].iterms, LastPart(path), ITERM_NUM);
        idx == if p.ok && i != -1 then V().fn[p.folder].iterms[i].inode else -1
      ensures var names, start := Split(path).names, if Split(path).abs then ROOT else old(Cwd());
              var q, n := Walk(V().fn, start, names[..|names| - 1]), names[|names| - 1];
              && Cwd() == (if q.ok then old(Cwd()) else q.folder) && q.folder in V().live && (!q.ok ==> idx == -1)
              && (idx != -1 ==> exists j ::
                    0 <= j < |V().fn[q.folder].iterms| && V().fn[q.folder].iterms[j] == ITerm(true, n, idx))
              && (q.ok && idx == -1 ==> forall j :: 0 <= j < |V().fn[q.folder].iterms| ==>
                    !(V().fn[q.folder].iterms[j].used && V().fn[q.folder].iterms[j].name == n))
    {
      hide Split, Walk, LinksInv, FileInv, InodeInv, NodeOk, Under, LastSlot;
      var origin := Cwd();
      var reached, name := GoinTarget(path);
      NodeIsOk(V(), {}, Cwd());
      if !reached {
        return -1;
      }
      InodeFound(V(), Cwd(), name);
      idx := -1;
      ghost var slot := -1;
      for i := 0 to ITERM_NUM
        invariant slot == FileSlot(cur.iterms, name, i)
        invariant idx == if slot == -1 then -1 else cur.iterms[slot].inode
      {
        if cur.iterms[i].used && cur.iterms[i].name == name {
          idx := cur.iterms[i].inode;
          slot := i;
        }
      }
      LoadFolder(origin);
    }
  }

  /** The lowest slot from `n` on that is not in use, or -1. */
  ghost function FreeSlot<T>(ts: seq<T>, used: T -> bool, n: nat): (p: int)
    ensures p == -1 || (n <= p < |ts| && !used(ts[p]))
    ensures forall j :: n <= j < (if p == -1 then |ts| else p) ==> used(ts[j])
    decreases |ts| - n
  {
    if n >= |ts| then -1 else if !used(ts[n]) then n else FreeSlot(ts, used, n + 1)
  }

  ghost function FreeFileSlot(ts: seq<ITerm>, n: nat): (p: int)
    ensures p == -1 || (n <= p < |ts| && !ts[p].used)
    ensures forall j :: n <= j < (if p == -1 then |ts| else p) ==> ts[j].used
  {
    FreeSlot(ts, (t: ITerm) => t.used, n)
  }

  ghost function FreeChildSlot(ts: seq<FTerm>, n: nat): (p: int)
    ensures p == -1 || (n <= p < |ts| && !ts[p].used)
    ensures forall j :: n <= j < (if p == -1 then |ts| else p) ==> ts[j].used
  {
    FreeSlot(ts, (t: FTerm) => t.used, n)
  }

  /** When create_file succeeds.  A name that an unused slot still holds counts as taken. */
  ghost predicate CanCreateFile(v: View, f: int, name: string)
    requires Sized(v) && f in v.live
  {
    && |v.fn[f].iterms| == ITERM_NUM && v.fn[f].numI < ITERM_NUM
    && Bitmap.Lowest(v.files, 0, INODE_NUM) != -1
    && (forall j :: 0 <= j < ITERM_NUM ==> v.fn[f].iterms[j].name != name)
    && FreeFileSlot(v.fn[f].iterms, 0) != -1
  }

  /** When create_folder succeeds. */
  ghost predicate CanCreateFolder(v: View, f: int, name: string)
    requires Sized(v) && f in v.live
  {
    && |v.fn[f].fterms| == FTERM_NUM && v.fn[f].numF < FTERM_NUM
    && Bitmap.Lowest(v.live, 0, FNODE_NUM) != -1
    && (forall j :: SUB <= j < FTERM_NUM ==> v.fn[f].fterms[j].name != name)
    && FreeChildSlot(v.fn[f].fterms, SUB) != -1
  }

  /** In a tree in order the counters in the nodes do not matter: creating succeeds exactly when a slot
      and a node or inode are free and no slot, used or not, has the name. */
  lemma CanCreateExactly(v: View, f: int, name: string)
    requires Inv(v, {}) && f in v.live
    ensures |v.fn[f].fterms| == 8 && |v.fn[f].iterms| == 16
    ensures CanCreateFolder(v, f, name) <==>
              && (exists i :: 2 <= i < 8 && !v.fn[f].fterms[i].used) && (exists c :: 0 <= c < 32 && c !in v.live)
              && forall j :: 2 <= j < 8 ==> v.fn[f].fterms[j].name != name
    ensures CanCreateFile(v, f, name) <==>
              && (exists i :: 0 <= i < 16 && !v.fn[f].iterms[i].used) && (exists k :: 0 <= k < 64 && k !in v.files)
              && forall j :: 0 <= j < 16 ==> v.fn[f].iterms[j].name != name
  {
    hide NodesInv, LinksInv, FileInv, InodeInv, FTableOk, ITableOk, FreeSlot;
    NodeCounts(v, f);
    CountFBound(v.fn[f].fterms);
    CountIBound(v.fn[f].iterms);
  }

  lemma NodeCounts(v: View, f: int)
    requires Inv(v, {}) && f in v.live
    ensures Sized(v) && |v.fn[f].fterms| == FTERM_NUM && |v.fn[f].iterms| == ITERM_NUM
    ensures v.fn[f].numF == CountF(v.fn[f].fterms) && v.fn[f].numI == CountI(v.fn[f].iterms)
  {
    assert NodeOk(v.fn[f], f, v.par[f]);
  }

  /** A deleted folder's name cannot be given again while the slot that held it stays unused. */
  lemma DeletedFolderNameIsTaken(v: View, w: View, f: int, i: int)
    requires Inv(v, {}) && Sized(w) && f in v.live && SUB <= i < FTERM_NUM && v.fn[f].fterms[i].used
    requires Erased(v, w, f, i)
    ensures !CanCreateFolder(w, f, v.fn[f].fterms[i].name)
  {
    NodeIsOk(v, {}, f);
    assert w.fn[f].fterms[i].name == v.fn[f].fterms[i].name;
  }

  /** Nor a deleted file's. */
  lemma DeletedFileNameIsTaken(v: View, f: int, i: int)
    requires Inv(v, {}) && f in v.live && 0 <= i < ITERM_NUM && v.fn[f].iterms[i].used
    ensures !CanCreateFile(DropFile(v, f, i), f, v.fn[f].iterms[i].name)
  {
    NodeIsOk(v, {}, f);
    assert DropFile(v, f, i).fn[f].iterms[i].name == v.fn[f].iterms[i].name;
  }

  /** What a deletion of the child in slot `i` of `f` did: nothing where there is no such child
      or delete_folder refuses its name, and otherwise all of it or, where it fails, a part. */
  ghost predicate Deletion(f: int, i: int, name: string, ok: bool, e: Event) {
    if ok then e == RemoveFolder(f, i)
    else if Dotted(name) || i == -1 then e == NoEffect
    else e.FailedRemove? && e.f == f && e.i == i
  }

  /** PSV_create_folder in terms of the whole path. */
  lemma MadeAt(v: View, cwd: int, path: string, i: int, c: int)
    requires Inv(v, {}) && cwd in v.live && Rooted(v, cwd) && Split(path).names != [] && Target(v.fn, cwd, path).ok
    requires CanLink(v, Target(v.fn, cwd, path).folder, i, LastPart(path)) && 0 < c < FNODE_NUM && c !in v.live
    ensures var names, start := Split(path).names, if Split(path).abs then ROOT else cwd;
            names[|names| - 1] != "." && names[|names| - 1] != ".." ==>
              Walk(Grow(v, Target(v.fn, cwd, path).folder, i, LastPart(path), c).fn, start, names) == Place(true, c)
  {
    var sp := Split(path);
    SplitNames(path);
    if !Dotted(LastPart(path)) { MadeIsReached(v, if sp.abs then ROOT else cwd, sp.names, i, c); }
  }

  /** PSV_delete_folder in terms of the whole path. */
  lemma ErasedAt(v: View, cwd: int, path: string, w: View, i: int)
    requires Inv(v, {}) && cwd in v.live && Rooted(v, cwd) && Split(path).names != [] && Target(v.fn, cwd, path).ok
    requires var f := Target(v.fn, cwd, path).folder;
             && f in v.live && |v.fn[f].fterms| == FTERM_NUM && SUB <= i < FTERM_NUM && v.fn[f].fterms[i].used
             && v.fn[f].fterms[i].name == LastPart(path) && !Dotted(LastPart(path)) && Erased(v, w, f, i)
    ensures var names, start := Split(path).names, if Split(path).abs then ROOT else cwd;
            var d := Walk(v.fn, start, names);
            && names[|names| - 1] != "." && names[|names| - 1] != ".."
            && d.ok && d.folder in v.live && d.folder !in w.live
  {
    var sp := Split(path);
    SplitNames(path);
    NamedIsReached(v, if sp.abs then ROOT else cwd, sp.names, i);
    ErasedIsGone(v, w, Target(v.fn, cwd, path).folder, i);
  }

  /** get_inode_idx_by_path in terms of the slots: the inode that one of that name holds, or none has it. */
  lemma InodeFound(v: View, f: int, n: string)
    requires Inv(v, {}) && f in v.live
    ensures var ts := v.fn[f].iterms;
            && |ts| == ITERM_NUM
            && var i := FileSlot(ts, n, ITERM_NUM);
               var idx := if i == -1 then -1 else ts[i].inode;
               && (idx != -1 ==> 0 <= i < |ts| && ts[i] == ITerm(true, n, idx))
               && (idx == -1 ==> forall j :: 0 <= j < |ts| ==> !(ts[j].used && ts[j].name == n))
  {
    NodeIsOk(v, {}, f);
    var i := FileSlot(v.fn[f].iterms, n, ITERM_NUM);
    if i != -1 { assert NamesFile(v, f, i); }
  }

  lemma ErasedIsGone(v: View, w: View, f: int, i: int)
    requires Inv(v, {}) && f in v.live && SUB <= i < |v.fn[f].fterms| && v.fn[f].fterms[i].used && Erased(v, w, f, i)
    ensures v.fn[f].fterms[i].fnode in v.live && v.fn[f].fterms[i].fnode !in w.live
  {
    assert NamesChild(v, {}, f, i);
    assert v.fn[f].fterms[i].fnode in Subtree(v, v.fn[f].fterms[i].fnode);
  }

  lemma ErasedKeepsRooted(v: View, w: View, f: int, i: int)
    requires Sized(v) && f in v.live && 0 <= i < |v.fn[f].fterms| && Erased(v, w, f, i)
    ensures forall g :: Rooted(w, g) <==> Rooted(v, g)
  {
  }

  lemma GrowKeepsRooted(v: View, w: View, f: int, i: int, name: string, c: int)
    requires Inv(v, {}) && CanLink(v, f, i, name) && 0 < c < FNODE_NUM && c !in v.live && w == Grow(v, f, i, name, c)
    ensures forall g :: g in v.live ==> (Rooted(w, g) <==> Rooted(v, g))
  {
    forall g | g in v.live
      ensures Rooted(w, g) <==> Rooted(v, g)
    {
      RootedStays(v, w, g);
    }
  }

  lemma LiveIsInRange(v: View, detached: set<int>, f: int)
    requires Inv(v, detached) && f in v.live
    ensures Sized(v) && 0 <= f < FNODE_NUM
  {
  }

  lemma NodeIsOk(v: View, detached: set<int>, f: int)
    requires Inv(v, detached) && f in v.live
    ensures FTableOk(v.fn[f].fterms, f, v.par[f]) && ITableOk(v.fn[f].iterms)
  {
    assert NodeOk(v.fn[f], f, v.par[f]);
  }

  lemma FileSlotOfUsed(ts: seq<ITerm>, i: int)
    requires ITableOk(ts) && 0 <= i < ITERM_NUM && ts[i].used
    ensures FileSlot(ts, ts[i].name, ITERM_NUM) == i
  {
  }

  lemma ChildSlotOfUsed(ts: seq<FTerm>, f: int, p: int, i: int)
    requires FTableOk(ts, f, p) && SUB <= i < FTERM_NUM && ts[i].used
    ensures ChildSlot(ts, ts[i].name, FTERM_NUM) == i
  {
  }
}
