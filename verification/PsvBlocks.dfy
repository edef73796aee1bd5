/** Inodes, the blocks they own, and the bits of the block map. */
module PsvBlocks {
  import opened PsvLayout
  import opened PsvTree

  /** get_num_db: whole blocks only. */
  function WholeBlocks(len: int): int
    requires 0 <= len
  {
    len / SECTOR_SIZE
  }

  /** The blocks that hold `len` bytes, the last one perhaps in part. */
  function NumBlocks(len: int): int
    requires 0 <= len
  {
    (len + SECTOR_SIZE - 1) / SECTOR_SIZE
  }

  ghost predicate InodeOk(n: INode) {
    && 0 <= n.len <= MAX_LEN
    && |n.blocks| == FILE_BLOCKS + 1
    && forall j :: 0 <= j < |n.blocks| ==> 0 <= n.blocks[j] < DB_NUM
  }

  /** Every live inode holds indices of data blocks, and has a sector of its own unless it is empty. */
  ghost predicate InodeInv(v: View) {
    && Sized(v)
    && forall k :: k in v.files ==>
         InodeOk(v.ino[k]) && (Own(v.fixed, FILE, k) || v.ino[k] == ZeroInode())
  }

  /** No two files share a block, and a set bit of the block map is an owned or a stranded block. */
  ghost predicate BlockInv(v: View) {
    && InodeInv(v)
    && (forall k, j {:trigger Owns(v, k, j)} :: k in v.files && 0 <= j < NumBlocks(v.ino[k].len) ==> Owns(v, k, j))
    && (forall b {:trigger OwnerOk(v, b)} :: b in v.owner ==> OwnerOk(v, b))
    && v.owner.Keys !! v.stranded
    && v.blocks == v.owner.Keys + v.stranded
    && (forall b :: b in v.blocks ==> 0 <= b < DB_NUM)
  }

  ghost predicate Owns(v: View, k: int, j: int)
    requires InodeInv(v) && k in v.files && 0 <= j < NumBlocks(v.ino[k].len)
  {
    var b := v.ino[k].blocks[j];
    b in v.owner && v.owner[b] == (k, j)
  }

  ghost predicate OwnerOk(v: View, b: int)
    requires InodeInv(v) && b in v.owner
  {
    var (k, j) := v.owner[b];
    k in v.files && 0 <= j < NumBlocks(v.ino[k].len) && v.ino[k].blocks[j] == b
  }

  /** The blocks that the files `ks` own. */
  ghost function OwnedBy(v: View, ks: set<int>): set<int> {
    set b | b in v.owner && v.owner[b].0 in ks
  }

  /** Those of them that are only partly filled: the last block of a file whose length is
      not a multiple of the block size. */
  ghost function PartialBlocks(v: View, ks: set<int>): set<int>
    requires InodeInv(v)
  {
    set b | b in v.owner && v.owner[b].0 in ks && v.owner[b].0 in v.files
            && v.owner[b].1 == WholeBlocks(v.ino[v.owner[b].0].len)
  }

  /** The blocks whose bits delete_file and write_content clear. */
  ghost function Freed(n: INode): set<int>
    requires 0 <= n.len <= MAX_LEN && |n.blocks| == FILE_BLOCKS + 1
  {
    set j | 0 <= j < WholeBlocks(n.len) :: n.blocks[j]
  }

  /** Whether one of the blocks is in the shared sector. */
  ghost predicate Shares(fixed: bool, bs: set<int>) {
    exists b :: b in bs && !Own(fixed, DB, b)
  }

  /** The data blocks and the inodes once zeros are written to the blocks `bs`. */
  ghost function Zeroed(fixed: bool, data: seq<Block>, bs: set<int>): (r: seq<Block>)
    ensures |r| == |data|
  {
    seq(|data|, b requires 0 <= b < |data| =>
      if b in bs || (!Own(fixed, DB, b) && Shares(fixed, bs)) then ZeroBlock() else data[b])
  }

  ghost function Emptied(fixed: bool, ino: seq<INode>, bs: set<int>): (r: seq<INode>)
    ensures |r| == |ino|
  {
    if Shares(fixed, bs) then ClearInodes(fixed, ino) else ino
  }

  /** The two ways that a block of file `k` is lost: its bit is cleared, or it stays set although no file owns it. */
  ghost function FreeFile(v: View, k: int): View
    requires InodeInv(v) && k in v.files
  {
    v.(blocks := v.blocks - Freed(v.ino[k]),
       data := Zeroed(v.fixed, v.data, Freed(v.ino[k])),
       ino := Emptied(v.fixed, v.ino, Freed(v.ino[k])),
       owner := v.owner - OwnedBy(v, {k}),
       stranded := v.stranded + PartialBlocks(v, {k}))
  }

  /** delete_file on slot `i` of folder `f`. */
  ghost function DropFile(v: View, f: int, i: int): View
    requires InodeInv(v) && FileInv(v) && f in v.live && 0 <= i < ITERM_NUM && v.fn[f].iterms[i].used
  {
    var k := v.fn[f].iterms[i].inode;
    assert NamesFile(v, f, i);
    FreeFile(v, k).(files := v.files - {k}, fn := v.fn[f := UnlinkFile(v.fn[f], i)])
  }

  /** create_file: slot `i` of folder `f` names the fresh inode `k`. */
  ghost function AddFile(v: View, f: int, i: int, name: string, k: int): View
    requires Sized(v) && f in v.live && 0 <= i < |v.fn[f].iterms| && 0 <= k < INODE_NUM
  {
    v.(files := v.files + {k}, fn := v.fn[f := LinkFile(v.fn[f], i, name, k)],
       ino := PutInode(v.fixed, v.ino, k, ZeroInode()), data := AfterInode(v.fixed, v.data, k),
       fo := v.fo[k := f], io := v.io[k := i])
  }

  /** The data blocks once an empty inode is stored under index `k`. */
  ghost function AfterInode(fixed: bool, data: seq<Block>, k: int): (r: seq<Block>)
    ensures |r| == |data|
    ensures forall b :: 0 <= b < |data| && Own(fixed, DB, b) ==> r[b] == data[b]
  {
    if Own(fixed, FILE, k) then data else ClearBlocks(fixed, data)
  }

  // ----- deletion of a file

  lemma FreedAreOwned(v: View, k: int)
    requires BlockInv(v) && k in v.files
    ensures Freed(v.ino[k]) + PartialBlocks(v, {k}) == OwnedBy(v, {k})
    ensures Freed(v.ino[k]) !! PartialBlocks(v, {k})
    ensures Freed(v.ino[k]) !! v.stranded
  {
    var n := v.ino[k];
    forall b | b in Freed(n)
      ensures b in v.owner && v.owner[b].0 == k && v.owner[b].1 < WholeBlocks(n.len)
    {
      var j :| 0 <= j < WholeBlocks(n.len) && n.blocks[j] == b;
      assert Owns(v, k, j);
    }
    forall b | b in OwnedBy(v, {k})
      ensures b in Freed(n) + PartialBlocks(v, {k})
    {
      assert OwnerOk(v, b);
      assert n.blocks[v.owner[b].1] == b;
    }
  }

  lemma FreeFileKeepsOthers(v: View, k: int)
    requires BlockInv(v) && k in v.files
    ensures var w := FreeFile(v, k);
      && InodeInv(w) && (forall m :: m in v.files ==> w.ino[m] == v.ino[m])
      && w.owner.Keys !! w.stranded && w.blocks == w.owner.Keys + w.stranded
      && (forall b :: b in w.owner ==> OwnerOk(v, b) && w.owner[b].0 != k)
      && (forall m, j :: m in v.files && m != k && 0 <= j < NumBlocks(v.ino[m].len) ==>
            v.ino[m].blocks[j] in w.owner && w.owner[v.ino[m].blocks[j]] == (m, j)
            && (Own(v.fixed, DB, v.ino[m].blocks[j]) ==> w.data[v.ino[m].blocks[j]] == v.data[v.ino[m].blocks[j]]))
  {
    FreedAreOwned(v, k);
    forall m, j | m in v.files && m != k && 0 <= j < NumBlocks(v.ino[m].len)
      ensures v.ino[m].blocks[j] !in OwnedBy(v, {k}) && Owns(v, m, j)
    {
      assert Owns(v, m, j);
    }
  }
}
