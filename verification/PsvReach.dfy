/** What the invariants mean: paths of slots from the root, and subtrees. */
module PsvReach {
  import opened PsvLayout
  import opened PsvTree

  /** The folder at the end of a path of child slots that starts at `top`, or -1 where a slot is not in use. */
  ghost function Follow(v: View, top: int, path: seq<int>): int {
    if path == [] then top
    else
      var g, i := Follow(v, top, path[..|path| - 1]), path[|path| - 1];
      if 0 <= g < |v.fn| && SUB <= i < |v.fn[g].fterms| && v.fn[g].fterms[i].used then v.fn[g].fterms[i].fnode else -1
  }

  /** The folders that no slot names: the root, and those that a failed deletion left behind. */
  ghost predicate IsTop(v: View, f: int) {
    f == ROOT || f in v.lost
  }

  ghost function TopOf(v: View, f: int): int
    requires LinksInv(v, {}) && f in v.live
    decreases v.depth[f]
  {
    if IsTop(v, f) then f else TopOf(v, v.par[f])
  }

  /** The path that the ghost maps record for a live folder. */
  ghost function PathTo(v: View, f: int): seq<int>
    requires LinksInv(v, {}) && f in v.live
    decreases v.depth[f]
  {
    if IsTop(v, f) then [] else PathTo(v, v.par[f]) + [v.pos[f]]
  }

  /** The last slot of a path leads from where the rest of it ends to the folder that it names. */
  lemma FollowNamed(v: View, top: int, path: seq<int>, f: int)
    requires LinksInv(v, {}) && f in v.live && f != ROOT && f !in v.lost && Follow(v, top, path) == v.par[f]
    ensures Follow(v, top, path + [v.pos[f]]) == f
  {
    assert IsNamed(v, f);
    assert (path + [v.pos[f]])[..|path|] == path;
  }

  lemma {:induction false} PathToLeadsThere(v: View, f: int)
    requires LinksInv(v, {}) && f in v.live
    ensures IsTop(v, TopOf(v, f)) && Follow(v, TopOf(v, f), PathTo(v, f)) == f
    decreases v.depth[f]
  {
    if !IsTop(v, f) {
      hide Follow;
      PathToLeadsThere(v, v.par[f]);
      FollowNamed(v, TopOf(v, v.par[f]), PathTo(v, v.par[f]), f);
    }
  }

  lemma {:induction false} FollowIsPathTo(v: View, top: int, path: seq<int>)
    requires LinksInv(v, {}) && IsTop(v, top) && Follow(v, top, path) != -1
    ensures Follow(v, top, path) in v.live
    ensures top == TopOf(v, Follow(v, top, path)) && path == PathTo(v, Follow(v, top, path))
  {
    if path != [] {
      var init := path[..|path| - 1];
      FollowIsPathTo(v, top, init);
      assert NamesChild(v, {}, Follow(v, top, init), path[|path| - 1]);
      assert path == init + [path[|path| - 1]];
    }
  }

  ghost predicate ReachableFrom(v: View, top: int, f: int) {
    exists path :: Follow(v, top, path) == f
  }

  /** The set bits of the folder map are exactly the folders that some path of used slots reaches
      from the root, or from a folder that a failed deletion left behind. */
  lemma LiveIsReachable(v: View, f: int)
    requires LinksInv(v, {}) && f != -1
    ensures f in v.live <==> exists top :: IsTop(v, top) && ReachableFrom(v, top, f)
  {
    if f in v.live {
      PathToLeadsThere(v, f);
      assert ReachableFrom(v, TopOf(v, f), f);
    }
    if top :| IsTop(v, top) && ReachableFrom(v, top, f) {
      var path :| Follow(v, top, path) == f;
      FollowIsPathTo(v, top, path);
    }
  }

  lemma {:induction false} RootedIsTop(v: View, f: int)
    requires LinksInv(v, {}) && f in v.live
    ensures Rooted(v, f) <==> TopOf(v, f) == ROOT
    decreases v.depth[f]
  {
    if !IsTop(v, f) { RootedIsTop(v, v.par[f]); }
  }

  /** What hangs from the root is what paths from the root reach. */
  lemma RootedIsReachable(v: View, f: int)
    requires LinksInv(v, {}) && f in v.live
    ensures Rooted(v, f) <==> ReachableFrom(v, ROOT, f)
  {
    RootedIsTop(v, f);
    PathToLeadsThere(v, f);
    if ReachableFrom(v, ROOT, f) {
      var path :| Follow(v, ROOT, path) == f;
      FollowIsPathTo(v, ROOT, path);
    }
  }

  /** A step that moves no live folder keeps what hangs from the root. */
  lemma {:induction false} RootedStays(v: View, w: View, g: int)
    requires LinksInv(v, {}) && g in v.live && Sized(w) && w.lost == v.lost
    requires forall h {:trigger w.par[h]} :: h in v.live ==> w.par[h] == v.par[h]
    requires forall h {:trigger w.depth[h]} :: h in v.live ==> w.depth[h] == v.depth[h]
    ensures Rooted(w, g) <==> Rooted(v, g)
    decreases v.depth[g]
  {
    if !IsTop(v, g) { RootedStays(v, w, v.par[g]); }
  }

  /** No folder is reached in two ways. */
  lemma PathsAreUnique(v: View, t: int, p: seq<int>, u: int, q: seq<int>)
    requires LinksInv(v, {}) && IsTop(v, t) && IsTop(v, u) && Follow(v, t, p) == Follow(v, u, q) != -1
    ensures t == u && p == q
  {
    FollowIsPathTo(v, t, p);
    FollowIsPathTo(v, u, q);
  }

  /** The set bits of the inode map are exactly the inodes that a used slot of a live folder
      names, and no inode is named twice. */
  lemma FilesAreNamed(v: View)
    requires FileInv(v)
    ensures forall k :: k in v.files <==> exists f, i :: f in v.live && HasFile(v.fn[f], i, k)
    ensures forall f, i, g, j, k :: f in v.live && g in v.live && HasFile(v.fn[f], i, k) && HasFile(v.fn[g], j, k) ==>
              f == g && i == j
  {
    forall f, i, k | f in v.live && HasFile(v.fn[f], i, k)
      ensures k in v.files && v.fo[k] == f && v.io[k] == i
    {
      assert NamesFile(v, f, i);
    }
    forall k | k in v.files
      ensures v.fo[k] in v.live && HasFile(v.fn[v.fo[k]], v.io[k], k)
    {
    }
  }

  // ----- subtrees, by parent and depth alone

  /** `g` is `c` or lies below it; what was lost hangs from nothing. */
  ghost predicate Under(par: seq<int>, depth: seq<nat>, lost: set<int>, c: int, g: int)
    decreases if 0 <= g < |depth| then depth[g] else 0
  {
    || g == c
    || (&& g != ROOT && g !in lost && 0 <= g < |par| && g < |depth| && 0 <= par[g] < |depth| && depth[par[g]] < depth[g]
        && Under(par, depth, lost, c, par[g]))
  }

  /** The child of `c` on the way down to `g`. */
  ghost function Branch(par: seq<int>, depth: seq<nat>, lost: set<int>, c: int, g: int): int
    requires Under(par, depth, lost, c, g) && g != c
    decreases depth[g]
  {
    if par[g] == c then g else Branch(par, depth, lost, c, par[g])
  }

  ghost predicate Rooted(v: View, f: int) {
    Under(v.par, v.depth, v.lost, ROOT, f)
  }

  ghost function Subtree(v: View, c: int): set<int> {
    set g | g in v.live && Under(v.par, v.depth, v.lost, c, g)
  }

  /** The part of the subtree of `c` that hangs from its slots below `n`. */
  ghost function Lopped(v: View, c: int, n: int): set<int> {
    set g | g in v.live && g != c && Under(v.par, v.depth, v.lost, c, g) && HangsBelow(v, c, g, n)
  }

  ghost predicate HangsBelow(v: View, c: int, g: int, n: int)
    requires Under(v.par, v.depth, v.lost, c, g) && g != c
  {
    var d := Branch(v.par, v.depth, v.lost, c, g);
    0 <= d < |v.pos| && v.pos[d] < n
  }

  /** The files of the folders `fs`. */
  ghost function FilesOf(v: View, fs: set<int>): set<int>
    requires Sized(v)
  {
    set k | k in v.files && v.fo[k] in fs
  }

  lemma {:induction false} BranchFacts(par: seq<int>, depth: seq<nat>, lost: set<int>, c: int, g: int)
    requires Under(par, depth, lost, c, g) && g != c
    ensures var d := Branch(par, depth, lost, c, g);
      d != ROOT && d !in lost && 0 <= d < |par| && par[d] == c && Under(par, depth, lost, d, g)
    decreases depth[g]
  {
    if par[g] != c { BranchFacts(par, depth, lost, c, par[g]); }
  }

  lemma {:induction false} UnderIsDeeper(par: seq<int>, depth: seq<nat>, lost: set<int>, c: int, g: int)
    requires Under(par, depth, lost, c, g) && g != c
    ensures 0 <= c < |depth| && 0 <= g < |depth| && depth[c] < depth[g]
    decreases depth[g]
  {
    if par[g] != c { UnderIsDeeper(par, depth, lost, c, par[g]); }
  }

  ghost predicate ParentsLive(live: set<int>, par: seq<int>, lost: set<int>) {
    forall f {:trigger par[f]} :: f in live && f != ROOT && f !in lost ==> 0 <= f < |par| && par[f] in live
  }

  /** Where parents of live folders are live, everything on the way up from a live folder is live. */
  lemma {:induction false} BranchIsLive(live: set<int>, par: seq<int>, depth: seq<nat>, lost: set<int>, c: int, g: int)
    requires ParentsLive(live, par, lost)
    requires g in live && Under(par, depth, lost, c, g) && g != c
    ensures Branch(par, depth, lost, c, g) in live
    decreases depth[g]
  {
    if par[g] != c { BranchIsLive(live, par, depth, lost, c, par[g]); }
  }

  lemma {:induction false} UnderTrans(par: seq<int>, depth: seq<nat>, lost: set<int>, c: int, d: int, g: int)
    requires Under(par, depth, lost, d, g) && Under(par, depth, lost, c, d)
    ensures Under(par, depth, lost, c, g)
    decreases if 0 <= g < |depth| then depth[g] else 0
  {
    if g != d { UnderTrans(par, depth, lost, c, d, par[g]); }
  }

  /** What hangs below a child `d` of `c` is what branches off `c` at `d`. */
  lemma {:induction false} BranchOfChild(par: seq<int>, depth: seq<nat>, lost: set<int>, c: int, d: int, g: int)
    requires Under(par, depth, lost, d, g) && Under(par, depth, lost, c, d) && d != c && par[d] == c
    ensures Under(par, depth, lost, c, g) && g != c && Branch(par, depth, lost, c, g) == d
    decreases if 0 <= g < |depth| then depth[g] else 0
  {
    UnderTrans(par, depth, lost, c, d, g);
    UnderIsDeeper(par, depth, lost, c, d);
    if g != d {
      UnderIsDeeper(par, depth, lost, d, g);
      if par[g] != d { UnderIsDeeper(par, depth, lost, d, par[g]); }
      BranchOfChild(par, depth, lost, c, d, par[g]);
    }
  }

  // ----- subtrees of a well-linked tree

  /** No detached folder is deeper than `c`; in particular none is a child of `c`. */
  ghost predicate ShallowDetached(v: View, detached: set<int>, c: int)
    requires Sized(v) && c in v.live
  {
    forall d :: d in detached && d in v.live ==> v.depth[d] <= v.depth[c]
  }

  /** The folders that branch off `c` do so at children that slots of `c` name. */
  lemma BranchIsNamed(v: View, detached: set<int>, c: int, g: int)
    requires LinksInv(v, detached) && c in v.live && ShallowDetached(v, detached, c)
    requires g in v.live && g != c && Under(v.par, v.depth, v.lost, c, g)
    ensures var d := Branch(v.par, v.depth, v.lost, c, g);
      d in v.live && v.par[d] == c && SUB <= v.pos[d] < FTERM_NUM
      && v.fn[c].fterms[v.pos[d]].used && v.fn[c].fterms[v.pos[d]].fnode == d
  {
    BranchFacts(v.par, v.depth, v.lost, c, g);
    BranchIsLive(v.live, v.par, v.depth, v.lost, c, g);
    var d := Branch(v.par, v.depth, v.lost, c, g);
    assert v.depth[d] == v.depth[v.par[d]] + 1;
    assert IsNamed(v, d);
  }

  /** A folder and its child: the child's subtree is what hangs from that one slot. */
  lemma LoppedGrows(v: View, detached: set<int>, c: int, i: int)
    requires LinksInv(v, detached) && c in v.live && ShallowDetached(v, detached, c)
    requires SUB <= i < FTERM_NUM
    ensures v.fn[c].fterms[i].used ==>
              var d := v.fn[c].fterms[i].fnode;
              && Lopped(v, c, i + 1) == Lopped(v, c, i) + Subtree(v, d)
              && Lopped(v, c, i) !! Subtree(v, d)
    ensures !v.fn[c].fterms[i].used ==> Lopped(v, c, i + 1) == Lopped(v, c, i)
  {
    forall g | g in v.live && g != c && Under(v.par, v.depth, v.lost, c, g)
      ensures HangsBelow(v, c, g, i + 1) && !HangsBelow(v, c, g, i) ==>
                v.fn[c].fterms[i].used && Under(v.par, v.depth, v.lost, v.fn[c].fterms[i].fnode, g)
    {
      BranchIsNamed(v, detached, c, g);
      BranchFacts(v.par, v.depth, v.lost, c, g);
    }
    if v.fn[c].fterms[i].used {
      var d := v.fn[c].fterms[i].fnode;
      assert NamesChild(v, detached, c, i);
      assert Under(v.par, v.depth, v.lost, c, d);
      forall g | g in Subtree(v, d)
        ensures g != c && Under(v.par, v.depth, v.lost, c, g) && HangsBelow(v, c, g, i + 1) && !HangsBelow(v, c, g, i)
      {
        BranchOfChild(v.par, v.depth, v.lost, c, d, g);
      }
    }
  }

  lemma LoppedEnds(v: View, detached: set<int>, c: int)
    requires LinksInv(v, detached) && c in v.live && ShallowDetached(v, detached, c)
    ensures Lopped(v, c, SUB) == {}
    ensures Lopped(v, c, FTERM_NUM) + {c} == Subtree(v, c)
  {
    forall g | g in v.live && g != c && Under(v.par, v.depth, v.lost, c, g)
      ensures !HangsBelow(v, c, g, SUB) && HangsBelow(v, c, g, FTERM_NUM)
    {
      BranchIsNamed(v, detached, c, g);
    }
  }

  /** A folder and its parent are both in a subtree or both outside it, unless the folder is its top. */
  lemma SubtreeIsClosed(v: View, detached: set<int>, c: int, g: int)
    requires LinksInv(v, detached) && g in v.live && g != ROOT && g !in v.lost && g != c
    ensures g in Subtree(v, c) <==> v.par[g] in Subtree(v, c)
  {
  }
}
