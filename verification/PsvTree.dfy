/**
  The folder tree of the PSV filesystem.

  A `View` is everything the filesystem stores - the three bitmaps as sets, the folder
  nodes, inodes and data blocks on disk - together with ghost maps that locate each live
  folder, inode and data block: `par`, `pos` and `depth` give a folder's parent, its slot
  there and its distance from the root; `fo` and `io` the folder and slot that name an
  inode; `owner` the inode and block number that a data block belongs to.  A deletion that
  stops halfway leaves folders whose bit is set although no slot names them: `lost` is these.
 */
module PsvTree {
  import opened PsvLayout

  datatype View = View(
    fixed: bool,
    live: set<int>, files: set<int>, blocks: set<int>,
    fn: seq<FNode>, ino: seq<INode>, data: seq<Block>,
    par: seq<int>, depth: seq<nat>, pos: seq<int>,
    fo: seq<int>, io: seq<int>,
    owner: map<int, (int, int)>, stranded: set<int>, lost: set<int>)

  ghost predicate Sized(v: View) {
    && |v.fn| == |v.par| == |v.depth| == |v.pos| == FNODE_NUM
    && |v.ino| == |v.fo| == |v.io| == INODE_NUM
    && |v.data| == DB_NUM
    && (forall f :: f in v.live ==> 0 <= f < FNODE_NUM)
    && (forall k :: k in v.files ==> 0 <= k < INODE_NUM)
  }

  // ----- one folder node

  /** The two names that delete_folder refuses. */
  predicate Dotted(s: string) {
    s == "." || s == ".."
  }

  function CountF(ts: seq<FTerm>): nat {
    if ts == [] then 0 else CountF(ts[..|ts| - 1]) + if ts[|ts| - 1].used then 1 else 0
  }

  function CountI(ts: seq<ITerm>): nat {
    if ts == [] then 0 else CountI(ts[..|ts| - 1]) + if ts[|ts| - 1].used then 1 else 0
  }

  /** Slot 0 names the folder itself, slot 1 its parent (the root has none), and the other
      slots hold children under distinct names. */
  ghost predicate FTableOk(ts: seq<FTerm>, f: int, p: int) {
    && |ts| == FTERM_NUM
    && ts[SELF] == FTerm(true, ".", f)
    && (if f == ROOT then !ts[PARENT].used else ts[PARENT] == FTerm(true, "..", p))
    && (forall i :: SUB <= i < FTERM_NUM && ts[i].used ==> ts[i].name != "")
    && (forall i, j :: SUB <= i < j < FTERM_NUM && ts[i].name == ts[j].name ==> ts[i].name == "")
  }

  ghost predicate ITableOk(ts: seq<ITerm>) {
    && |ts| == ITERM_NUM
    && (forall i :: 0 <= i < ITERM_NUM && ts[i].used ==> ts[i].name != "")
    && (forall i, j :: 0 <= i < j < ITERM_NUM && ts[i].name == ts[j].name ==> ts[i].name == "")
  }

  ghost predicate NodeOk(n: FNode, f: int, p: int) {
    && FTableOk(n.fterms, f, p) && n.numF == CountF(n.fterms)
    && ITableOk(n.iterms) && n.numI == CountI(n.iterms)
  }

  // ----- the tree and the files in it

  ghost predicate NodesInv(v: View) {
    && Sized(v)
    && forall f {:trigger NodeOk(v.fn[f], f, v.par[f])} :: f in v.live ==> NodeOk(v.fn[f], f, v.par[f])
  }

  /** Every live folder but the root is named by one slot of its live parent, which is nearer
      the root, and every used child slot names such a folder.  `detached` are live folders
      that no slot names any more, because they are being deleted; nor are the lost ones named. */
  ghost predicate LinksInv(v: View, detached: set<int>) {
    && Sized(v)
    && ROOT in v.live && ROOT !in v.lost && v.lost <= v.live
    && (forall f {:trigger v.fn[f]} :: f in v.live ==> |v.fn[f].fterms| == FTERM_NUM)
    && (forall f {:trigger v.par[f]} :: f in v.live && f != ROOT && f !in v.lost ==>
          v.par[f] in v.live && v.depth[f] == v.depth[v.par[f]] + 1)
    && (forall f, i {:trigger NamesChild(v, detached, f, i)} ::
          f in v.live && SUB <= i < FTERM_NUM && v.fn[f].fterms[i].used ==> NamesChild(v, detached, f, i))
    && (forall c {:trigger IsNamed(v, c)} :: c in v.live && c != ROOT && c !in v.lost && c !in detached ==>
         IsNamed(v, c))
  }

  ghost predicate TreeInv(v: View, detached: set<int>) {
    NodesInv(v) && LinksInv(v, detached)
  }

  ghost predicate NamesChild(v: View, detached: set<int>, f: int, i: int)
    requires Sized(v) && f in v.live && 0 <= i < |v.fn[f].fterms|
  {
    var c := v.fn[f].fterms[i].fnode;
    c in v.live && c != ROOT && c !in v.lost && c !in detached && v.par[c] == f && v.pos[c] == i
  }

  ghost predicate IsNamed(v: View, c: int)
    requires Sized(v) && c in v.live && v.par[c] in v.live && |v.fn[v.par[c]].fterms| == FTERM_NUM
  {
    && SUB <= v.pos[c] < FTERM_NUM
    && v.fn[v.par[c]].fterms[v.pos[c]].used
    && v.fn[v.par[c]].fterms[v.pos[c]].fnode == c
  }

  /** The set bits of the inode map are the inodes that exactly one used slot of a live folder names. */
  ghost predicate FileInv(v: View) {
    && Sized(v)
    && (forall f {:trigger v.fn[f]} :: f in v.live ==> |v.fn[f].iterms| == ITERM_NUM)
    && (forall f, i {:trigger NamesFile(v, f, i)} ::
          f in v.live && 0 <= i < ITERM_NUM && v.fn[f].iterms[i].used ==> NamesFile(v, f, i))
    && (forall k {:trigger v.fo[k]} :: k in v.files ==> v.fo[k] in v.live && HasFile(v.fn[v.fo[k]], v.io[k], k))
  }

  ghost predicate NamesFile(v: View, f: int, i: int)
    requires Sized(v) && f in v.live && 0 <= i < |v.fn[f].iterms|
  {
    var k := v.fn[f].iterms[i].inode;
    k in v.files && v.fo[k] == f && v.io[k] == i
  }

  ghost predicate HasFile(n: FNode, i: int, k: int) {
    0 <= i < |n.iterms| && n.iterms[i].used && n.iterms[i].inode == k
  }

  // ----- what the operations do to one node

  function Link(n: FNode, i: int, name: string, c: int): FNode
    requires 0 <= i < |n.fterms|
  {
    n.(numF := n.numF + 1, fterms := n.fterms[i := FTerm(true, name, c)])
  }

  function Unlink(n: FNode, i: int): FNode
    requires 0 <= i < |n.fterms|
  {
    n.(numF := n.numF - 1, fterms := n.fterms[i := n.fterms[i].(used := false)])
  }

  function LinkFile(n: FNode, i: int, name: string, k: int): FNode
    requires 0 <= i < |n.iterms|
  {
    n.(numI := n.numI + 1, iterms := n.iterms[i := ITerm(true, name, k)])
  }

  function UnlinkFile(n: FNode, i: int): FNode
    requires 0 <= i < |n.iterms|
  {
    n.(numI := n.numI - 1, iterms := n.iterms[i := n.iterms[i].(used := false)])
  }

  /** gen_fnode: a folder that holds only its self and parent slots. */
  function NewNode(name: string, c: int, parent: int): FNode {
    FNode(name, 2, 0,
          [FTerm(true, ".", c), FTerm(true, "..", parent)] + seq(FTERM_NUM - 2, _ => EMPTY_FTERM),
          seq(ITERM_NUM, _ => EMPTY_ITERM))
  }

  lemma {:induction false} CountFUpdate(ts: seq<FTerm>, i: int, t: FTerm)
    requires 0 <= i < |ts|
    ensures CountF(ts[i := t]) + (if ts[i].used then 1 else 0) == CountF(ts) + (if t.used then 1 else 0)
  {
    var n := |ts| - 1;
    if i == n {
      assert ts[i := t][..n] == ts[..n];
    } else {
      assert ts[i := t][..n] == ts[..n][i := t];
      CountFUpdate(ts[..n], i, t);
    }
  }

  lemma {:induction false} CountIUpdate(ts: seq<ITerm>, i: int, t: ITerm)
    requires 0 <= i < |ts|
    ensures CountI(ts[i := t]) + (if ts[i].used then 1 else 0) == CountI(ts) + (if t.used then 1 else 0)
  {
    var n := |ts| - 1;
    if i == n {
      assert ts[i := t][..n] == ts[..n];
    } else {
      assert ts[i := t][..n] == ts[..n][i := t];
      CountIUpdate(ts[..n], i, t);
    }
  }

  /** Where a slot is not in use, fewer than all are. */
  lemma {:induction false} CountFBound(ts: seq<FTerm>)
    ensures CountF(ts) <= |ts| && ((exists i :: 0 <= i < |ts| && !ts[i].used) ==> CountF(ts) < |ts|)
  {
    if ts != [] { CountFBound(ts[..|ts| - 1]); }
    if i :| 0 <= i < |ts| && !ts[i].used && i < |ts| - 1 { assert !ts[..|ts| - 1][i].used; }
  }

  lemma {:induction false} CountIBound(ts: seq<ITerm>)
    ensures CountI(ts) <= |ts| && ((exists i :: 0 <= i < |ts| && !ts[i].used) ==> CountI(ts) < |ts|)
  {
    if ts != [] { CountIBound(ts[..|ts| - 1]); }
    if i :| 0 <= i < |ts| && !ts[i].used && i < |ts| - 1 { assert !ts[..|ts| - 1][i].used; }
  }

  lemma {:induction false} CountNone(ts: seq<FTerm>, us: seq<ITerm>)
    ensures (forall i :: 0 <= i < |ts| ==> !ts[i].used) ==> CountF(ts) == 0
    ensures (forall i :: 0 <= i < |us| ==> !us[i].used) ==> CountI(us) == 0
    decreases |ts| + |us|
  {
    if ts != [] { CountNone(ts[..|ts| - 1], []); }
    if us != [] { CountNone([], us[..|us| - 1]); }
  }

  lemma LinkKeepsNode(n: FNode, f: int, p: int, i: int, name: string, c: int)
    requires NodeOk(n, f, p) && SUB <= i < FTERM_NUM && !n.fterms[i].used && name != ""
    requires forall j :: SUB <= j < FTERM_NUM ==> n.fterms[j].name != name
    ensures NodeOk(Link(n, i, name, c), f, p)
  {
    CountFUpdate(n.fterms, i, FTerm(true, name, c));
  }

  lemma UnlinkKeepsNode(n: FNode, f: int, p: int, i: int)
    requires NodeOk(n, f, p) && SUB <= i < FTERM_NUM && n.fterms[i].used
    ensures NodeOk(Unlink(n, i), f, p)
  {
    CountFUpdate(n.fterms, i, n.fterms[i].(used := false));
  }

  lemma LinkFileKeepsNode(n: FNode, f: int, p: int, i: int, name: string, k: int)
    requires NodeOk(n, f, p) && 0 <= i < ITERM_NUM && !n.iterms[i].used && name != ""
    requires forall j :: 0 <= j < ITERM_NUM ==> n.iterms[j].name != name
    ensures NodeOk(LinkFile(n, i, name, k), f, p)
  {
    CountIUpdate(n.iterms, i, ITerm(true, name, k));
  }

  lemma UnlinkFileKeepsNode(n: FNode, f: int, p: int, i: int)
    requires NodeOk(n, f, p) && 0 <= i < ITERM_NUM && n.iterms[i].used
    ensures NodeOk(UnlinkFile(n, i), f, p)
  {
    CountIUpdate(n.iterms, i, n.iterms[i].(used := false));
  }

  lemma NewNodeOk(name: string, c: int, parent: int)
    requires c != ROOT
    ensures NodeOk(NewNode(name, c, parent), c, parent) && NewNode(name, c, parent).name == name
  {
    var n := NewNode(name, c, parent);
    var e: seq<FTerm> := seq(FTERM_NUM, _ => EMPTY_FTERM);
    CountNone(e, n.iterms);
    CountFUpdate(e, 0, n.fterms[0]);
    CountFUpdate(e[0 := n.fterms[0]], 1, n.fterms[1]);
    assert n.fterms == e[0 := n.fterms[0]][1 := n.fterms[1]];
  }
}
