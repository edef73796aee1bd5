/** Runs of the filesystem: any sequence of successful and failed operations. */
module PsvRuns {
  import opened PsvLayout
  import opened PsvDisk
  import opened PsvTree
  import opened PsvBlocks
  import opened PsvSteps
  import opened PsvReach
  import opened PsvPrune
  import opened PsvAbandon
  import opened PsvContent

  datatype Event =
    | NoEffect
    | MakeFolder(f: int, i: int, name: string, c: int)
    | MakeFile(f: int, i: int, name: string, k: int)
    | RemoveFolder(f: int, i: int)
    | FailedRemove(f: int, i: int, x: int)
    | RemoveFile(f: int, i: int)
    | Write(k: int, buf: seq<byte>, len: nat)
    | FailedWrite(k: int, len: nat)

  /** One operation, as the methods of the filesystem class perform it. */
  ghost predicate Step(v: View, e: Event, w: View)
    requires Inv(v, {})
  {
    match e
    case NoEffect => w == v
    case MakeFolder(f, i, name, c) =>
      CanLink(v, f, i, name) && name != "" && 0 < c < FNODE_NUM && c !in v.live && w == Grow(v, f, i, name, c)
    case MakeFile(f, i, name, k) =>
      CanLinkFile(v, f, i, name, k) && w == AddFile(v, f, i, name, k)
    case RemoveFolder(f, i) =>
      && f in v.live && SUB <= i < FTERM_NUM && v.fn[f].fterms[i].used && !Dotted(v.fn[f].fterms[i].name)
      && Clean(v, v.fn[f].fterms[i].fnode) && Sized(w) && Erased(v, w, f, i)
    case FailedRemove(f, i, x) =>
      Fails(v, w, f, i, x) && !Dotted(v.fn[f].fterms[i].name)
    case RemoveFile(f, i) =>
      f in v.live && 0 <= i < ITERM_NUM && v.fn[f].iterms[i].used && w == DropFile(v, f, i)
    case Write(k, buf, len) =>
      k in v.files && InodeInv(w) && len <= MAX_LEN && Needed(v.fixed, len) <= |buf| && WriteDone(v, w, k, buf, len)
    case FailedWrite(k, len) =>
      k in v.files && InodeInv(w) && !EnoughRoom(v, k, len) && WriteFailed(v, w, k)
  }

  /** The folders and files that are left after a folder is removed. */
  lemma ErasedKeepsNodes(v: View, w: View, f: int, i: int)
    requires Inv(v, {}) && f in v.live && SUB <= i < FTERM_NUM && v.fn[f].fterms[i].used && Erased(v, w, f, i)
    ensures NodesInv(w)
  {
    forall g | g in w.live
      ensures NodeOk(w.fn[g], g, w.par[g])
    {
      assert NodeOk(v.fn[g], g, v.par[g]);
      if g == f { UnlinkKeepsNode(v.fn[f], f, v.par[f], i); }
    }
  }

  lemma ErasedKeepsLinks(v: View, w: View, f: int, i: int)
    requires Inv(v, {}) && f in v.live && SUB <= i < FTERM_NUM && v.fn[f].fterms[i].used && Erased(v, w, f, i)
    ensures LinksInv(w, {})
  {
    var c := v.fn[f].fterms[i].fnode;
    DetachKeepsLinks(v, {}, f, i);
    assert ROOT !in Subtree(v, c);
    forall g | g in w.live && g != ROOT && g !in w.lost
      ensures w.par[g] in w.live && w.depth[g] == w.depth[w.par[g]] + 1
    {
      assert c in Subtree(v, c);
      SubtreeIsClosed(v, {}, c, g);
    }
    forall g, j | g in w.live && SUB <= j < FTERM_NUM && w.fn[g].fterms[j].used
      ensures NamesChild(w, {}, g, j)
    {
      assert NamesChild(v, {}, g, j);
      var d := v.fn[g].fterms[j].fnode;
      if d != c { SubtreeIsClosed(v, {}, c, d); }
    }
    forall d | d in w.live && d != ROOT && d !in w.lost
      ensures IsNamed(w, d)
    {
      assert IsNamed(v, d);
      assert c in Subtree(v, c);
      SubtreeIsClosed(v, {}, c, d);
    }
  }

  lemma ErasedKeepsFiles(v: View, w: View, f: int, i: int)
    requires Inv(v, {}) && f in v.live && SUB <= i < FTERM_NUM && v.fn[f].fterms[i].used && Erased(v, w, f, i)
    ensures FileInv(w)
  {
    forall g, j | g in w.live && 0 <= j < ITERM_NUM && w.fn[g].iterms[j].used
      ensures NamesFile(w, g, j)
    {
      assert NamesFile(v, g, j);
    }
    forall k | k in w.files
      ensures w.fo[k] in w.live && HasFile(w.fn[w.fo[k]], w.io[k], k)
    {
      assert HasFile(v.fn[v.fo[k]], v.io[k], k);
    }
  }

  /** Every operation keeps the tree, the naming of files and the ownership of blocks. */
  lemma StepKeeps(v: View, e: Event, w: View)
    requires Inv(v, {}) && BlockInv(v) && Step(v, e, w)
    ensures Inv(w, {}) && BlockInv(w) && w.fixed == v.fixed
  {
    match e
    case NoEffect =>
    case MakeFolder(f, i, name, c) => GrowKeeps(v, f, i, name, c);
    case MakeFile(f, i, name, k) => AddFileKeeps(v, {}, f, i, name, k);
    case RemoveFolder(f, i) =>
      ErasedKeepsNodes(v, w, f, i);
      ErasedKeepsLinks(v, w, f, i);
      ErasedKeepsFiles(v, w, f, i);
    case FailedRemove(f, i, x) => FailsKeeps(v, w, f, i, x);
    case RemoveFile(f, i) => DropFileKeeps(v, {}, f, i);
    case Write(k, buf, len) => OnlyContentChanged(v, w, {});
    case FailedWrite(k, len) => OnlyContentChanged(v, w, {});
  }

  /** Operations that write a file, with or without success. */
  predicate Writes(e: Event, k: int) {
    (e.Write? && e.k == k) || (e.FailedWrite? && e.k == k)
  }

  /** An operation that neither writes file `k` nor removes it leaves its inode and data as they were. */
  lemma StepKeepsFile(v: View, e: Event, w: View, k: int)
    requires Inv(v, {}) && BlockInv(v) && Step(v, e, w) && InodeInv(w)
    requires k in v.files && k in w.files && !Writes(e, k)
    ensures SameFile(v, w, k)
  {
    match e
    case NoEffect =>
    case MakeFolder(f, i, name, c) =>
    case MakeFile(f, i, name, m) =>
    case RemoveFolder(f, i) =>
      var c := v.fn[f].fterms[i].fnode;
      PrunedKeepsFile(v, w, Subtree(v, c), FilesOf(v, Subtree(v, c)), {f}, k);
    case FailedRemove(f, i, x) => FailsKeepsFile(v, w, f, i, x, k);
    case RemoveFile(f, i) =>
      DropFileKeeps(v, {}, f, i);
      PrunedKeepsFile(v, w, {}, {v.fn[f].iterms[i].inode}, {f}, k);
    case Write(m, buf, len) =>
    case FailedWrite(m, len) =>
  }

  lemma FailsKeepsFile(v: View, w: View, f: int, i: int, x: int, k: int)
    requires Inv(v, {}) && BlockInv(v) && Fails(v, w, f, i, x) && k in w.files
    ensures k in v.files && InodeInv(w) && SameFile(v, w, k)
  {
    var c := v.fn[f].fterms[i].fnode;
    var gone, stuck := Gone(v, c, x), Stuck(v, c, x);
    PrunedKeepsFile(v, w, gone, FilesOf(v, gone + stuck), {f} + stuck, k);
  }

  // ----- the empty filesystem

  /** The root folder that PSV_setup writes. */
  function RootNode(): FNode {
    ZeroFnode().(name := "/", numF := 1, fterms := ZeroFnode().fterms[SELF := FTerm(true, ".", ROOT)])
  }

  ghost function EmptyView(fixed: bool, stray: Stray): (v: View)
    ensures Sized(v) && v.live == {ROOT} && v.fn[ROOT] == RootNode()
  {
    View(fixed, {ROOT}, {}, {},
         seq(FNODE_NUM, i => if i == ROOT then RootNode() else ZeroFnode()), BlankInodes(fixed, stray),
         BlankBlocks(fixed, stray),
         seq(FNODE_NUM, _ => 0), seq(FNODE_NUM, _ => 0), seq(FNODE_NUM, _ => 0),
         seq(INODE_NUM, _ => 0), seq(INODE_NUM, _ => 0), map[], {}, {})
  }

  /** The empty filesystem satisfies the invariants. */
  lemma EmptyViewOk(fixed: bool, stray: Stray)
    ensures Inv(EmptyView(fixed, stray), {}) && BlockInv(EmptyView(fixed, stray))
  {
    var root := RootNode();
    CountNone(ZeroFnode().fterms, root.iterms);
    CountFUpdate(ZeroFnode().fterms, SELF, root.fterms[SELF]);
    assert NodeOk(root, ROOT, 0);
  }

  // ----- runs

  /** `vs` are the successive views of a run of the operations `es` from the empty filesystem. */
  ghost predicate IsRun(fixed: bool, vs: seq<View>, es: seq<Event>) {
    && |vs| == |es| + 1
    && (exists stray :: vs[0] == EmptyView(fixed, stray))
    && forall i {:trigger es[i]} :: 0 <= i < |es| && Inv(vs[i], {}) && BlockInv(vs[i]) ==> Step(vs[i], es[i], vs[i + 1])
  }

  /** The invariants hold after every run. */
  lemma {:induction false} RunKeeps(fixed: bool, vs: seq<View>, es: seq<Event>, n: nat)
    requires IsRun(fixed, vs, es) && n < |vs|
    ensures Inv(vs[n], {}) && BlockInv(vs[n]) && vs[n].fixed == fixed
  {
    if n == 0 {
      var stray :| vs[0] == EmptyView(fixed, stray);
      EmptyViewOk(fixed, stray);
    } else {
      RunKeeps(fixed, vs, es, n - 1);
      StepKeeps(vs[n - 1], es[n - 1], vs[n]);
    }
  }

  /** After every run the set bits of the folder map are exactly the folders reachable from the
      root or from a folder that a failed deletion left behind, each by one path of slots, and the
      set bits of the inode map exactly the inodes that slots of those folders name, each named once. */
  lemma RunIsTree(fixed: bool, vs: seq<View>, es: seq<Event>, n: nat)
    requires IsRun(fixed, vs, es) && n < |vs|
    ensures forall f :: f != -1 ==>
              (f in vs[n].live <==> exists top :: IsTop(vs[n], top) && ReachableFrom(vs[n], top, f))
    ensures forall t, p, u, q ::
              IsTop(vs[n], t) && IsTop(vs[n], u) && Follow(vs[n], t, p) == Follow(vs[n], u, q) != -1 ==>
                  t == u && p == q
    ensures Sized(vs[n])
    ensures forall k :: k in vs[n].files <==> exists f, i :: f in vs[n].live && HasFile(vs[n].fn[f], i, k)
    ensures forall f, i, g, j, k ::
              f in vs[n].live && g in vs[n].live && HasFile(vs[n].fn[f], i, k) && HasFile(vs[n].fn[g], j, k) ==>
                f == g && i == j
  {
    var v := vs[n];
    RunKeeps(fixed, vs, es, n);
    forall f | f != -1
      ensures f in v.live <==> exists top :: IsTop(v, top) && ReachableFrom(v, top, f)
    {
      LiveIsReachable(v, f);
    }
    forall t, p, u, q | IsTop(v, t) && IsTop(v, u) && Follow(v, t, p) == Follow(v, u, q) != -1
      ensures t == u && p == q
    {
      PathsAreUnique(v, t, p, u, q);
    }
    FilesAreNamed(v);
  }

  // ----- folders called "." and ".."

  /** No used child slot of a live folder has a dotted name. */
  ghost predicate NoDots(v: View)
    requires LinksInv(v, {})
  {
    forall f, i {:trigger v.fn[f].fterms[i]} ::
      f in v.live && SUB <= i < FTERM_NUM && v.fn[f].fterms[i].used ==> !Dotted(v.fn[f].fterms[i].name)
  }

  lemma NoDotsNoneCalled(v: View, g: int)
    requires LinksInv(v, {}) && NoDots(v) && g in v.live && g != ROOT && g !in v.lost
    ensures !CalledDotted(v, g)
  {
    assert IsNamed(v, g);
  }

  lemma NoDotsNoFailure(v: View, w: View, f: int, i: int, x: int)
    requires Inv(v, {}) && NoDots(v)
    ensures !Fails(v, w, f, i, x)
  {
    if Fails(v, w, f, i, x) {
      assert FirstDotted(v, v.fn[f].fterms[i].fnode, x);
      NoDotsNoneCalled(v, x);
    }
  }

  lemma StepKeepsNoDots(v: View, e: Event, w: View)
    requires Inv(v, {}) && NoDots(v) && v.lost == {} && Step(v, e, w) && Inv(w, {})
    requires e.MakeFolder? ==> !Dotted(e.name)
    ensures NoDots(w) && w.lost == {} && !e.FailedRemove?
  {
    hide NodeOk, InodeOk, Pruned, Fails;
    if e.FailedRemove? { NoDotsNoFailure(v, w, e.f, e.i, e.x); }
    forall f, i | f in w.live && SUB <= i < FTERM_NUM && w.fn[f].fterms[i].used
      ensures !Dotted(w.fn[f].fterms[i].name)
    {
      StepKeepsSlot(v, e, w, f, i);
    }
  }

  /** A used child slot was there before, or is the one that the step made. */
  lemma StepKeepsSlot(v: View, e: Event, w: View, f: int, i: int)
    requires Inv(v, {}) && Step(v, e, w) && Inv(w, {}) && !e.FailedRemove?
    requires f in w.live && SUB <= i < FTERM_NUM && w.fn[f].fterms[i].used
    ensures (f in v.live && w.fn[f].fterms[i] == v.fn[f].fterms[i])
            || (e.MakeFolder? && w.fn[f].fterms[i].name == e.name)
  {
    hide NodeOk, InodeOk, BlocksPruned, Fails, Subtree, FilesOf;
  }

  lemma EmptyHasNoDots(fixed: bool, v: View)
    requires exists stray :: v == EmptyView(fixed, stray)
    ensures LinksInv(v, {}) && NoDots(v) && v.lost == {}
  {
    var stray :| v == EmptyView(fixed, stray);
    EmptyViewOk(fixed, stray);
  }

  /** A run that never creates a folder called "." or ".." has no failed deletion of a folder that
      is there, and the set bits are what the root leads to. */
  lemma {:induction false} PlainRunsLoseNothing(fixed: bool, vs: seq<View>, es: seq<Event>, n: nat)
    requires IsRun(fixed, vs, es) && n < |vs|
    requires forall i {:trigger es[i]} :: 0 <= i < n && es[i].MakeFolder? ==> !Dotted(es[i].name)
    ensures LinksInv(vs[n], {}) && NoDots(vs[n]) && vs[n].lost == {}
    ensures n > 0 ==> !es[n - 1].FailedRemove?
    ensures forall f :: f != -1 ==> (f in vs[n].live <==> ReachableFrom(vs[n], ROOT, f))
  {
    hide Step, LinksInv, NodesInv, FileInv, InodeInv, BlockInv, NoDots, EmptyView;
    RunKeeps(fixed, vs, es, n);
    if n == 0 {
      EmptyHasNoDots(fixed, vs[0]);
    } else {
      RunKeeps(fixed, vs, es, n - 1);
      PlainRunsLoseNothing(fixed, vs, es, n - 1);
      StepKeepsNoDots(vs[n - 1], es[n - 1], vs[n]);
    }
    NothingIsLost(vs[n]);
  }

  lemma NothingIsLost(v: View)
    requires LinksInv(v, {}) && v.lost == {}
    ensures forall f :: f != -1 ==> (f in v.live <==> ReachableFrom(v, ROOT, f))
  {
    forall f | f != -1
      ensures f in v.live <==> ReachableFrom(v, ROOT, f)
    {
      LiveIsReachable(v, f);
    }
  }

  /** A folder "a" in the root with a folder "." in it. */
  ghost function DotInside(fixed: bool, stray: Stray): View {
    var v := Grow(EmptyView(fixed, stray), ROOT, SUB, "a", 1);
    assert v.fn[1] == NewNode("a", 1, ROOT);
    Grow(v, 1, SUB, ".", 2)
  }

  lemma DotInsideIsRun(fixed: bool, stray: Stray)
    ensures var u := EmptyView(fixed, stray);
            IsRun(fixed, [u, Grow(u, ROOT, SUB, "a", 1), DotInside(fixed, stray)],
                  [MakeFolder(ROOT, SUB, "a", 1), MakeFolder(1, SUB, ".", 2)])
    ensures Inv(DotInside(fixed, stray), {})
  {
    hide NodesInv, LinksInv, FileInv, InodeInv, BlockInv;
    var u := EmptyView(fixed, stray);
    EmptyViewOk(fixed, stray);
    var v := Grow(u, ROOT, SUB, "a", 1);
    assert CanLink(u, ROOT, SUB, "a");
    GrowKeeps(u, ROOT, SUB, "a", 1);
    assert v.fn[1] == NewNode("a", 1, ROOT);
    assert CanLink(v, 1, SUB, ".");
    GrowKeeps(v, 1, SUB, ".", 2);
  }

  lemma DotInsideIs(fixed: bool, stray: Stray)
    ensures var v := DotInside(fixed, stray);
            && v.live == {ROOT, 1, 2} && v.lost == {} && v.par[1] == ROOT && v.par[2] == 1
            && v.pos[2] == SUB && v.depth[ROOT] == 0 && v.depth[1] == 1 && v.depth[2] == 2
            && v.fn[ROOT].fterms[SUB] == FTerm(true, "a", 1) && v.fn[1].fterms[SUB] == FTerm(true, ".", 2)
  {
  }

  /** Deleting "a" there fails at the folder ".", and from then on both keep their bits although
      no path from the root reaches either. */
  lemma DotInsideStrands(fixed: bool, stray: Stray, w: View)
    ensures Sized(DotInside(fixed, stray)) && !Clean(DotInside(fixed, stray), 1)
    ensures FirstDotted(DotInside(fixed, stray), 1, 2)
    ensures Inv(DotInside(fixed, stray), {})
    ensures Fails(DotInside(fixed, stray), w, ROOT, SUB, 2) ==>
              && w.live == {ROOT, 1, 2} && LinksInv(w, {})
              && !ReachableFrom(w, ROOT, 1) && !ReachableFrom(w, ROOT, 2)
  {
    var v := DotInside(fixed, stray);
    DotInsideIsRun(fixed, stray);
    DotInsideIs(fixed, stray);
    assert Under(v.par, v.depth, v.lost, 1, 2) && CalledDotted(v, 2);
    StuckAtChild(v, 1, 2);
    LoppedEnds(v, {}, 1);
    if Fails(v, w, ROOT, SUB, 2) {
      FailsKeeps(v, w, ROOT, SUB, 2);
      FailsCutsOff(v, w, ROOT, SUB, 2, 1);
      FailsCutsOff(v, w, ROOT, SUB, 2, 2);
      RootedIsReachable(w, 1);
      RootedIsReachable(w, 2);
    }
  }

  /** File `k` stays live from view `a` to view `b`, and no operation in between writes it. */
  ghost predicate LeftAlone(vs: seq<View>, es: seq<Event>, a: nat, b: nat, k: int)
    requires |vs| == |es| + 1
  {
    && a <= b < |vs|
    && (forall t {:trigger vs[t]} :: a <= t <= b ==> k in vs[t].files)
    && (forall t {:trigger es[t]} :: a <= t < b ==> !Writes(es[t], k))
  }

  /** Whatever a run that leaves the file alone does to others, the file's inode stays as it is,
      and so does all of it that lies in sectors of its own. */
  lemma {:induction false} RunKeepsContent(fixed: bool, vs: seq<View>, es: seq<Event>, a: nat, b: nat, k: int)
    requires IsRun(fixed, vs, es) && LeftAlone(vs, es, a, b, k)
    ensures InodeInv(vs[a]) && InodeInv(vs[b]) && k in vs[a].files && k in vs[b].files
    ensures vs[a].fixed == vs[b].fixed == fixed && SameFile(vs[a], vs[b], k)
    ensures Private(vs[a], k) ==> Content(vs[b], k) == Content(vs[a], k)
    decreases b
  {
    RunKeeps(fixed, vs, es, a);
    RunKeeps(fixed, vs, es, b);
    if a < b {
      assert k in vs[b - 1].files;
      RunKeepsContent(fixed, vs, es, a, b - 1, k);
      RunKeeps(fixed, vs, es, b - 1);
      StepKeepsFile(vs[b - 1], es[b - 1], vs[b], k);
    }
    SameFileSameContent(vs[a], vs[b], k);
  }

  /** What a write stored in file `k` is still there after any further operations that leave the
      file alone, whatever they do to other files and folders. */
  lemma WriteLasts(fixed: bool, vs: seq<View>, es: seq<Event>, a: nat, b: nat, k: int)
    requires IsRun(fixed, vs, es) && a < b < |vs| && es[a].Write? && es[a].k == k && LeftAlone(vs, es, a + 1, b, k)
    ensures InodeInv(vs[b]) && k in vs[b].files && Needed(fixed, es[a].len) <= |es[a].buf|
    ensures vs[b].fixed == fixed && vs[b].ino[k].len == es[a].len
    ensures forall p {:trigger OwnByte(vs[b], k, p)} :: 0 <= p < es[a].len && OwnByte(vs[b], k, p) ==>
              Content(vs[b], k)[p] == es[a].buf[if fixed then p else p % 512]
    ensures Private(vs[b], k) ==> Content(vs[b], k) == Stored(fixed, es[a].buf, es[a].len)
  {
    RunKeeps(fixed, vs, es, a);
    RunKeeps(fixed, vs, es, a + 1);
    RunKeepsContent(fixed, vs, es, a + 1, b, k);
    SameFileSameContent(vs[a + 1], vs[b], k);
    forall p | 0 <= p < es[a].len && OwnByte(vs[b], k, p)
      ensures Content(vs[b], k)[p] == Stored(fixed, es[a].buf, es[a].len)[p]
    {
      assert OwnByte(vs[a + 1], k, p);
    }
    assert forall p :: 0 <= p < es[a].len ==>
        Stored(fixed, es[a].buf, es[a].len)[p] == es[a].buf[if fixed then p else p % 512];
    if Private(vs[b], k) {
      forall p | 0 <= p < es[a].len
        ensures Content(vs[b], k)[p] == Stored(fixed, es[a].buf, es[a].len)[p]
      {
        assert OwnByte(vs[b], k, p);
      }
    }
  }

  /** What is in the shared sector is lost: it reads as the last block that any write put there. */
  lemma SharedIsOverwritten(v: View, e: Event, w: View, k: int, p: nat, j: int)
    requires Inv(v, {}) && BlockInv(v) && Step(v, e, w) && e.Write? && e.k != k && k in v.files
    requires p < v.ino[k].len && !OwnByte(v, k, p)
    requires InodeInv(w) && e.k in w.files && IsLastShared(v.fixed, w.ino[e.k].blocks[..NumBlocks(e.len)], j)
    ensures k in w.files && w.ino[k].len == v.ino[k].len
    ensures Content(w, k)[p] == Chunk(v.fixed, e.buf, e.len, j)[p % SECTOR_SIZE]
  {
    assert SameFile(v, w, k);
  }

  /** A read after such a run gives back what was written, and its length, if the code is the
      repaired one, or the read ends before the second block and the first has a sector of its
      own; and with the shipped code it never does if it ends later. */
  lemma ReadAfterWrite(fixed: bool, vs: seq<View>, es: seq<Event>, a: nat, b: nat, k: int, o: nat, n: nat)
    requires IsRun(fixed, vs, es) && a < b < |vs| && es[a].Write? && es[a].k == k && LeftAlone(vs, es, a + 1, b, k)
    requires es[a].len <= |es[a].buf| && o < es[a].len && n > 0
    ensures InodeInv(vs[b]) && k in vs[b].files && vs[b].ino[k].len == es[a].len
    ensures var e := if o + n >= es[a].len then es[a].len else o + n;
      var good := Content(vs[b], k)[o..e] == es[a].buf[o..e] && ReadResult(fixed, o, e) == e - o;
      && (fixed || (e < SECTOR_SIZE && OwnByte(vs[b], k, 0)) ==> good)
      && (good ==> fixed || e < SECTOR_SIZE)
  {
    WriteLasts(fixed, vs, es, a, b, k);
    ReadBackExactly(fixed, es[a].buf, es[a].len, o, n);
    var e := if o + n >= es[a].len then es[a].len else o + n;
    if fixed || (e < SECTOR_SIZE && OwnByte(vs[b], k, 0)) {
      forall p | o <= p < e
        ensures Content(vs[b], k)[p] == Stored(fixed, es[a].buf, es[a].len)[p]
      {
        FirstOwnBytes(vs[b], k, p, e);
      }
      assert Content(vs[b], k)[o..e] == Stored(fixed, es[a].buf, es[a].len)[o..e];
    }
  }

  lemma FirstOwnBytes(v: View, k: int, p: nat, e: nat)
    requires InodeInv(v) && k in v.files && p < e <= v.ino[k].len
    requires v.fixed || (e < SECTOR_SIZE && OwnByte(v, k, 0))
    ensures OwnByte(v, k, p)
  {
    assert p / SECTOR_SIZE < FILE_BLOCKS + 1;
  }

  // ----- accounting of blocks

  /** The files among `ks` whose length is not a multiple of the block size. */
  ghost function Uneven(v: View, ks: set<int>): set<int>
    requires InodeInv(v)
  {
    set k | k in ks && k in v.files && v.ino[k].len % SECTOR_SIZE != 0
  }

  /** The number of blocks that the live files below `n` own. */
  ghost function BlocksBelow(v: View, n: nat): nat
    requires InodeInv(v)
  {
    if n == 0 then 0
    else BlocksBelow(v, n - 1) + if n - 1 in v.files then NumBlocks(v.ino[n - 1].len) else 0
  }

  lemma PartialOfOne(v: View, k: int)
    requires BlockInv(v) && k in v.files
    ensures |PartialBlocks(v, {k})| == |Uneven(v, {k})|
  {
    var n := v.ino[k];
    var j := WholeBlocks(n.len);
    forall b | b in PartialBlocks(v, {k})
      ensures n.len % SECTOR_SIZE != 0 && b == n.blocks[j]
    {
      assert OwnerOk(v, b);
    }
    if n.len % SECTOR_SIZE != 0 {
      assert Owns(v, k, j);
      assert PartialBlocks(v, {k}) == {n.blocks[j]};
      assert Uneven(v, {k}) == {k};
    } else {
      assert PartialBlocks(v, {k}) == {};
      assert Uneven(v, {k}) == {};
    }
  }

  ghost function Below(ks: set<int>, n: int): set<int> {
    set k | k in ks && k < n
  }

  lemma AddOne(v: View, ks: set<int>, k: int)
    requires InodeInv(v) && k !in ks
    ensures |PartialBlocks(v, ks + {k})| == |PartialBlocks(v, ks)| + |PartialBlocks(v, {k})|
    ensures |Uneven(v, ks + {k})| == |Uneven(v, ks)| + |Uneven(v, {k})|
  {
    assert PartialBlocks(v, ks + {k}) == PartialBlocks(v, ks) + PartialBlocks(v, {k});
    assert Uneven(v, ks + {k}) == Uneven(v, ks) + Uneven(v, {k});
  }

  /** Each of the files strands one block, and only if it has a partly filled one. */
  lemma {:induction false} PartialCount(v: View, ks: set<int>, n: nat)
    requires BlockInv(v) && ks <= v.files
    ensures |PartialBlocks(v, Below(ks, n))| == |Uneven(v, Below(ks, n))|
  {
    var now := Below(ks, n);
    if n == 0 {
      assert PartialBlocks(v, now) == {} && Uneven(v, now) == {};
    } else {
      var before := Below(ks, n - 1);
      PartialCount(v, ks, n - 1);
      if n - 1 in ks {
        PartialOfOne(v, n - 1);
        assert now == before + {n - 1};
        AddOne(v, before, n - 1);
      } else {
        assert now == before;
      }
    }
  }

  ghost function OwnedUpTo(v: View, k: int, j: int): set<int> {
    set b | b in v.owner && v.owner[b].0 == k && v.owner[b].1 < j
  }

  lemma {:induction false} OwnedCountUpTo(v: View, k: int, j: nat)
    requires BlockInv(v) && k in v.files && j <= NumBlocks(v.ino[k].len)
    ensures |OwnedUpTo(v, k, j)| == j
  {
    if j == 0 {
      forall b | b in v.owner
        ensures v.owner[b].1 >= 0
      {
        assert OwnerOk(v, b);
      }
      assert OwnedUpTo(v, k, 0) == {};
    } else {
      OwnedCountUpTo(v, k, j - 1);
      var b := v.ino[k].blocks[j - 1];
      assert Owns(v, k, j - 1);
      forall x | x in OwnedUpTo(v, k, j) && x !in OwnedUpTo(v, k, j - 1)
        ensures x == b
      {
        assert OwnerOk(v, x);
      }
      assert OwnedUpTo(v, k, j) == OwnedUpTo(v, k, j - 1) + {b};
    }
  }

  ghost function OwnedBelow(v: View, n: int): set<int> {
    set b | b in v.owner && v.owner[b].0 < n
  }

  lemma OwnedBelowGrows(v: View, n: nat)
    requires BlockInv(v) && 0 < n <= INODE_NUM
    ensures n - 1 in v.files ==>
              var all := OwnedUpTo(v, n - 1, NumBlocks(v.ino[n - 1].len));
              OwnedBelow(v, n) == OwnedBelow(v, n - 1) + all && OwnedBelow(v, n - 1) !! all
    ensures n - 1 !in v.files ==> OwnedBelow(v, n) == OwnedBelow(v, n - 1)
  {
    forall b | b in v.owner
      ensures v.owner[b].0 in v.files && v.owner[b].1 < NumBlocks(v.ino[v.owner[b].0].len)
    {
      assert OwnerOk(v, b);
    }
  }

  lemma OwnedBounds(v: View)
    requires BlockInv(v)
    ensures OwnedBelow(v, 0) == {} && OwnedBelow(v, INODE_NUM) == v.owner.Keys
  {
    forall b | b in v.owner
      ensures 0 <= v.owner[b].0 < INODE_NUM
    {
      assert OwnerOk(v, b);
    }
  }

  lemma {:induction false} OwnedCount(v: View, n: nat)
    requires BlockInv(v) && n <= INODE_NUM
    ensures |OwnedBelow(v, n)| == BlocksBelow(v, n)
  {
    if n == 0 {
      OwnedBounds(v);
    } else {
      OwnedCount(v, n - 1);
      OwnedBelowGrows(v, n);
      if n - 1 in v.files {
        OwnedCountUpTo(v, n - 1, NumBlocks(v.ino[n - 1].len));
      }
    }
  }

  /** The set bits of the block map are the blocks of the live files and the stranded ones. */
  lemma BlocksAccounted(v: View)
    requires BlockInv(v)
    ensures |v.blocks| == BlocksBelow(v, INODE_NUM) + |v.stranded|
  {
    OwnedCount(v, INODE_NUM);
    OwnedBounds(v);
    assert |v.blocks| == |v.owner.Keys| + |v.stranded|;
  }

  lemma {:induction false} FreeIsRest(bits: set<int>, n: nat)
    requires forall b :: b in bits ==> 0 <= b
    ensures FreeBelow(bits, n) + |Below(bits, n)| == n
  {
    if n == 0 {
      assert Below(bits, 0) == {};
    } else {
      FreeIsRest(bits, n - 1);
      assert Below(bits, n) == Below(bits, n - 1) + if n - 1 in bits then {n - 1} else {};
    }
  }

  lemma FreedCount(v: View, k: int)
    requires BlockInv(v) && k in v.files
    ensures Freed(v.ino[k]) <= v.blocks && |Freed(v.ino[k])| == v.ino[k].len / 512
  {
    var whole := WholeBlocks(v.ino[k].len);
    FreedAreOwned(v, k);
    OwnedCountUpTo(v, k, whole);
    forall b | b in Freed(v.ino[k])
      ensures b in OwnedUpTo(v, k, whole)
    {
      var j :| 0 <= j < whole && v.ino[k].blocks[j] == b;
      assert Owns(v, k, j);
    }
    forall b | b in OwnedUpTo(v, k, whole)
      ensures b in Freed(v.ino[k])
    {
      assert OwnerOk(v, b);
    }
    assert OwnedUpTo(v, k, whole) == Freed(v.ino[k]);
  }

  /** A write fits exactly when the blocks in use, less the whole ones of the old content, leave room
      for the new content's. */
  lemma EnoughRoomExactly(v: View, k: int, len: nat)
    requires BlockInv(v) && k in v.files
    ensures EnoughRoom(v, k, len) <==> |v.blocks| - v.ino[k].len / 512 + (len + 511) / 512 <= 2048
  {
    var bits := AfterFree(v, k);
    FreedCount(v, k);
    assert |bits| == |v.blocks| - |Freed(v.ino[k])|;
    FreeIsRest(bits, DB_NUM);
    assert Below(bits, DB_NUM) == bits;
  }

  /** The files that an operation removes or writes anew. */
  ghost function Dropped(v: View, e: Event): set<int>
    requires Inv(v, {})
  {
    match e
    case RemoveFile(f, i) => if f in v.live && 0 <= i < ITERM_NUM then {v.fn[f].iterms[i].inode} else {}
    case RemoveFolder(f, i) =>
      if f in v.live && 0 <= i < FTERM_NUM then FilesOf(v, Subtree(v, v.fn[f].fterms[i].fnode)) else {}
    case FailedRemove(f, i, x) =>
      if f in v.live && 0 <= i < FTERM_NUM then
        var c := v.fn[f].fterms[i].fnode;
        FilesOf(v, Gone(v, c, x) + Stuck(v, c, x))
      else {}
    case Write(k, _, _) => {k}
    case _ => {}
  }

  lemma StrandedIs(v: View, e: Event, w: View)
    requires Inv(v, {}) && BlockInv(v) && Step(v, e, w) && !e.FailedWrite?
    ensures Dropped(v, e) <= v.files
    ensures w.stranded == v.stranded + PartialBlocks(v, Dropped(v, e))
  {
    var d := Dropped(v, e);
    if d == {} {
      assert PartialBlocks(v, d) == {};
    }
    if e.RemoveFile? { assert NamesFile(v, e.f, e.i); }
  }

  lemma {:induction false} SameBlocksBelow(v: View, w: View, n: nat)
    requires InodeInv(v) && InodeInv(w) && w.files == v.files && forall k :: k in v.files ==> w.ino[k] == v.ino[k]
    ensures BlocksBelow(w, n) == BlocksBelow(v, n)
  {
    if n > 0 { SameBlocksBelow(v, w, n - 1); }
  }

  ghost function AllBelow(n: nat): (r: set<int>)
    ensures |r| == n && forall b :: b in r <==> 0 <= b < n
  {
    if n == 0 then {} else AllBelow(n - 1) + {n - 1}
  }

  lemma AllSet(bits: set<int>, n: nat)
    requires forall b :: b in bits <==> 0 <= b < n
    ensures |bits| == n
  {
    assert bits == AllBelow(n);
  }

  /** An operation strands exactly one block for each file it removes or writes anew whose old
      length is not a multiple of the block size; a write that runs out of blocks strands all
      that no file owns. */
  lemma StrandedGrows(v: View, e: Event, w: View)
    requires Inv(v, {}) && BlockInv(v) && Step(v, e, w)
    ensures !e.FailedWrite? ==> |w.stranded| == |v.stranded| + |Uneven(v, Dropped(v, e))|
    ensures e.FailedWrite? ==> |w.stranded| == DB_NUM - BlocksBelow(v, INODE_NUM)
  {
    if e.FailedWrite? {
      BlocksAccounted(w);
      SameBlocksBelow(v, w, INODE_NUM);
      AllSet(w.blocks, DB_NUM);
      return;
    }
    var d := Dropped(v, e);
    StrandedIs(v, e, w);
    PartialCount(v, d, INODE_NUM);
    assert Below(d, INODE_NUM) == d;
    assert PartialBlocks(v, d) !! v.stranded;
  }
}
