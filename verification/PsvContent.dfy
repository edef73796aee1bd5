/** File contents: what a file holds, what a write stores, and how the free blocks are counted. */
module PsvContent {
  import opened PsvLayout
  import opened PsvTree
  import opened PsvBlocks
  import opened PsvSteps
  import Bitmap

  /** The bytes of file `k`, through its block indices. */
  ghost function Content(v: View, k: int): (c: seq<byte>)
    requires InodeInv(v) && k in v.files
    ensures |c| == v.ino[k].len
  {
    var n := v.ino[k];
    seq(n.len, p requires 0 <= p < n.len => v.data[n.blocks[p / SECTOR_SIZE]][p % SECTOR_SIZE])
  }

  /** The source position of byte `p` of a write: the shipped code copies every block from the
      start of the buffer. */
  function Source(fixed: bool, p: nat): nat {
    if fixed then p else p % SECTOR_SIZE
  }

  /** How much of the buffer a write of `len` bytes reads. */
  function Needed(fixed: bool, len: nat): nat {
    if fixed || len < SECTOR_SIZE then len else SECTOR_SIZE
  }

  /** What a write of `len` bytes leaves in the file. */
  function Stored(fixed: bool, buf: seq<byte>, len: nat): (c: seq<byte>)
    requires Needed(fixed, len) <= |buf|
    ensures |c| == len
  {
    seq(len, p requires 0 <= p < len => buf[Source(fixed, p)])
  }

  /** Block `j` of a write, padded with zeros. */
  function Chunk(fixed: bool, buf: seq<byte>, len: nat, j: nat): Block
    requires Needed(fixed, len) <= |buf|
  {
    var c: seq<byte> := seq(SECTOR_SIZE, p requires 0 <= p < SECTOR_SIZE =>
      if j * SECTOR_SIZE + p < len then buf[Source(fixed, j * SECTOR_SIZE + p)] else 0);
    c
  }

  /** Block `i` of a write lies within what the write reads of its buffer. */
  lemma PartFits(fixed: bool, len: nat, i: nat)
    requires i * SECTOR_SIZE < len
    ensures var last, start := (len - 1) / SECTOR_SIZE, if fixed then i * SECTOR_SIZE else 0;
      && i <= last
      && (i == last ==> 0 < len - i * SECTOR_SIZE <= SECTOR_SIZE && start + len - i * SECTOR_SIZE <= Needed(fixed, len))
      && (i < last ==> (i + 1) * SECTOR_SIZE <= len && start + SECTOR_SIZE <= Needed(fixed, len))
  {
  }

  lemma WholeChunk(fixed: bool, buf: seq<byte>, len: nat, i: nat)
    requires Needed(fixed, len) <= |buf| && (i + 1) * SECTOR_SIZE <= len
    ensures var start := if fixed then i * SECTOR_SIZE else 0;
            start + SECTOR_SIZE <= |buf| && Chunk(fixed, buf, len, i) == buf[start..start + SECTOR_SIZE]
  {
    var start := if fixed then i * SECTOR_SIZE else 0;
    forall p | 0 <= p < SECTOR_SIZE
      ensures Chunk(fixed, buf, len, i)[p] == buf[start..start + SECTOR_SIZE][p]
    {
      assert i * SECTOR_SIZE + p < len && (i * SECTOR_SIZE + p) % SECTOR_SIZE == p;
      assert Source(fixed, i * SECTOR_SIZE + p) == start + p;
    }
  }

  lemma LastChunk(fixed: bool, buf: seq<byte>, len: nat, i: nat)
    requires Needed(fixed, len) <= |buf| && i * SECTOR_SIZE < len <= (i + 1) * SECTOR_SIZE
    ensures var start, n := if fixed then i * SECTOR_SIZE else 0, len - i * SECTOR_SIZE;
            && start + n <= |buf|
            && Chunk(fixed, buf, len, i) == buf[start..start + n] + seq(SECTOR_SIZE - n, _ => 0)
  {
    var start, n := if fixed then i * SECTOR_SIZE else 0, len - i * SECTOR_SIZE;
    forall p | 0 <= p < SECTOR_SIZE
      ensures Chunk(fixed, buf, len, i)[p] == (buf[start..start + n] + seq(SECTOR_SIZE - n, _ => 0))[p]
    {
      assert (i * SECTOR_SIZE + p) % SECTOR_SIZE == p;
    }
  }

  // ----- counting free blocks

  ghost function FreeBelow(bits: set<int>, n: nat): nat {
    if n == 0 then 0 else FreeBelow(bits, n - 1) + if n - 1 in bits then 0 else 1
  }

  lemma {:induction false} FreeMeansLowest(bits: set<int>, n: nat, m: nat)
    requires FreeBelow(bits, n) > 0 && n <= m
    ensures 0 <= Bitmap.Lowest(bits, 0, m) < n
  {
    if n - 1 in bits {
      FreeMeansLowest(bits, n - 1, m);
    }
  }

  lemma {:induction false} NoneFree(bits: set<int>, n: nat)
    requires forall i :: 0 <= i < n ==> i in bits
    ensures FreeBelow(bits, n) == 0
  {
    if n > 0 { NoneFree(bits, n - 1); }
  }

  lemma {:induction false} FreeAfterTaking(bits: set<int>, l: int, n: nat)
    requires l !in bits && 0 <= l
    ensures FreeBelow(bits + {l}, n) == FreeBelow(bits, n) - if l < n then 1 else 0
  {
    if n > 0 { FreeAfterTaking(bits, l, n - 1); }
  }

  // ----- writing

  /** `w` is `v` after the blocks `idxs` have been taken and filled with the start of a write, each
      of them over what was in the shared sector if it lies there. */
  ghost predicate Filled(v: View, w: View, buf: seq<byte>, len: nat, idxs: seq<int>)
    requires Needed(v.fixed, len) <= |buf|
  {
    && |v.data| == DB_NUM && |w.data| == DB_NUM
    && w == v.(blocks := w.blocks, data := w.data, ino := w.ino)
    && w.blocks == v.blocks + (set b | b in idxs)
    && (forall j :: 0 <= j < |idxs| ==>
          0 <= idxs[j] < DB_NUM && idxs[j] !in v.blocks
          && (Own(v.fixed, DB, idxs[j]) ==> w.data[idxs[j]] == Chunk(v.fixed, buf, len, j)))
    && (forall i, j :: 0 <= i < j < |idxs| ==> idxs[i] != idxs[j])
    && (forall b :: 0 <= b < DB_NUM && b !in idxs && Own(v.fixed, DB, b) ==> w.data[b] == v.data[b])
    && (forall j :: IsLastShared(v.fixed, idxs, j) ==> SharedIs(v.fixed, w.data, Chunk(v.fixed, buf, len, j)))
    && |w.ino| == |v.ino|
    && (forall k :: 0 <= k < |v.ino| && (Own(v.fixed, FILE, k) || AllOwn(v.fixed, idxs)) ==> w.ino[k] == v.ino[k])
  }

  ghost predicate AllOwn(fixed: bool, idxs: seq<int>) {
    forall j {:trigger idxs[j]} :: 0 <= j < |idxs| ==> Own(fixed, DB, idxs[j])
  }

  /** Block `j` of a write is the last that went to the shared sector. */
  ghost predicate IsLastShared(fixed: bool, idxs: seq<int>, j: int) {
    && 0 <= j < |idxs| && !Own(fixed, DB, idxs[j])
    && forall i {:trigger idxs[i]} :: j < i < |idxs| ==> Own(fixed, DB, idxs[i])
  }

  lemma SameShared(fixed: bool, data: seq<Block>, more: seq<Block>, block: Block)
    requires SharedIs(fixed, data, block) && |more| == |data|
    requires forall b {:trigger more[b]} :: 0 <= b < |data| && !Own(fixed, DB, b) ==> more[b] == data[b]
    ensures SharedIs(fixed, more, block)
  {
  }

  lemma SharedPut(fixed: bool, data: seq<Block>, l: int, block: Block)
    requires 0 <= l < |data| && !Own(fixed, DB, l)
    ensures SharedIs(fixed, PutBlock(fixed, data, l, block), block)
  {
  }

  /** What every block in the shared sector reads as. */
  ghost predicate SharedIs(fixed: bool, data: seq<Block>, block: Block) {
    forall b {:trigger data[b]} :: 0 <= b < |data| && !Own(fixed, DB, b) ==> data[b] == block
  }

  lemma FillNone(v: View, buf: seq<byte>, len: nat)
    requires Needed(v.fixed, len) <= |buf| && |v.data| == DB_NUM
    ensures Filled(v, v, buf, len, []) && AllOwn(v.fixed, [])
  {
  }

  lemma AllOwnMore(fixed: bool, idxs: seq<int>, b: int)
    ensures AllOwn(fixed, idxs + [b]) <==> AllOwn(fixed, idxs) && Own(fixed, DB, b)
  {
    var more := idxs + [b];
    assert more[|idxs|] == b && forall j :: 0 <= j < |idxs| ==> more[j] == idxs[j];
  }

  lemma FillOne(v: View, w: View, x: View, buf: seq<byte>, len: nat, idxs: seq<int>, l: int)
    requires Needed(v.fixed, len) <= |buf| && Filled(v, w, buf, len, idxs)
    requires 0 <= l < DB_NUM && l !in w.blocks
    requires var chunk := Chunk(v.fixed, buf, len, |idxs|);
             x == w.(blocks := w.blocks + {l}, data := PutBlock(v.fixed, w.data, l, chunk), ino := x.ino)
    requires |x.ino| == |w.ino|
    requires forall k :: 0 <= k < |w.ino| && (Own(v.fixed, FILE, k) || Own(v.fixed, DB, l)) ==> x.ino[k] == w.ino[k]
    ensures Filled(v, x, buf, len, idxs + [l])
  {
    hide Chunk, AllOwn, SharedIs;
    var more := idxs + [l];
    assert forall b :: b in more <==> b in idxs || b == l;
    assert more[|idxs|] == l && forall j :: 0 <= j < |idxs| ==> more[j] == idxs[j];
    forall j | IsLastShared(v.fixed, more, j)
      ensures SharedIs(v.fixed, x.data, Chunk(v.fixed, buf, len, j))
    {
      if Own(v.fixed, DB, l) {
        assert IsLastShared(v.fixed, idxs, j);
        SameShared(v.fixed, w.data, x.data, Chunk(v.fixed, buf, len, j));
      } else {
        SharedPut(v.fixed, w.data, l, Chunk(v.fixed, buf, len, j));
      }
    }
    AllOwnMore(v.fixed, idxs, l);
  }

  /** The inode that write_content stores: the new block indices, then what the old inode had there. */
  function NewInode(n: INode, len: int, idxs: seq<int>): INode
    requires |idxs| <= |n.blocks|
  {
    INode(len, idxs + n.blocks[|idxs|..])
  }

  ghost function Position(idxs: seq<int>, b: int): (j: int)
    requires b in idxs
    ensures 0 <= j < |idxs| && idxs[j] == b
  {
    var j :| 0 <= j < |idxs| && idxs[j] == b;
    j
  }

  /** The owners of the blocks of a write. */
  ghost function Owners(k: int, idxs: seq<int>): map<int, (int, int)> {
    map b | b in idxs :: (k, Position(idxs, b))
  }

  /** The end of a write: the inode of `k` names the blocks `idxs`. */
  ghost function Named(w: View, k: int, len: int, idxs: seq<int>): View
    requires InodeInv(w) && k in w.files && |idxs| <= FILE_BLOCKS
  {
    w.(ino := PutInode(w.fixed, w.ino, k, NewInode(w.ino[k], len, idxs)), data := AfterInode(w.fixed, w.data, k),
       owner := w.owner + Owners(k, idxs))
  }

  /** A write that found its blocks: file `k` of `u` has been freed, giving `v`, and its new
      blocks filled, giving `w`. */
  ghost predicate Rewritten(u: View, v: View, w: View, k: int, buf: seq<byte>, len: nat, idxs: seq<int>) {
    && InodeInv(u) && k in u.files && v == FreeFile(u, k)
    && len <= MAX_LEN && Needed(u.fixed, len) <= |buf| && |idxs| == NumBlocks(len)
    && (len == 0 || Own(u.fixed, FILE, k)) && (AllOwn(u.fixed, idxs) || NoneShared(u))
    && Filled(v, w, buf, len, idxs)
  }

  /** No live file has its inode in the shared sector. */
  ghost predicate NoneShared(v: View) {
    forall k :: k in v.files ==> Own(v.fixed, FILE, k)
  }

  /** Filling blocks leaves the live inodes, unless one of each is in the shared sector. */
  lemma FillKeepsInodes(u: View, w: View, k: int, buf: seq<byte>, len: nat, idxs: seq<int>)
    requires InodeInv(u) && k in u.files && Needed(u.fixed, len) <= |buf|
    requires Filled(FreeFile(u, k), w, buf, len, idxs) && (AllOwn(u.fixed, idxs) || NoneShared(u))
    ensures InodeInv(w) && forall m :: m in u.files ==> w.ino[m] == u.ino[m]
  {
    hide Chunk, Freed, OwnedBy, PartialBlocks, Zeroed, IsLastShared;
    forall m | m in u.files
      ensures w.ino[m] == u.ino[m]
    {
    }
  }

  lemma RewriteKeepsInodes(u: View, v: View, w: View, k: int, buf: seq<byte>, len: nat, idxs: seq<int>)
    requires Rewritten(u, v, w, k, buf, len, idxs)
    ensures InodeInv(w) && InodeInv(Named(w, k, len, idxs))
    ensures var x := Named(w, k, len, idxs);
      && x.ino[k].len == len && (forall j :: 0 <= j < |idxs| ==> x.ino[k].blocks[j] == idxs[j])
      && forall m :: m in u.files && m != k ==> x.ino[m] == u.ino[m]
  {
    hide Chunk, Freed, OwnedBy, PartialBlocks, Zeroed, Owners, IsLastShared;
    FillKeepsInodes(u, w, k, buf, len, idxs);
    forall j | 0 <= j < FILE_BLOCKS + 1
      ensures 0 <= NewInode(w.ino[k], len, idxs).blocks[j] < DB_NUM
    {
    }
    if !Own(u.fixed, FILE, k) { assert NewInode(w.ino[k], len, idxs) == ZeroInode(); }
  }

  lemma RewriteOwns(u: View, v: View, w: View, k: int, buf: seq<byte>, len: nat, idxs: seq<int>, m: int, j: int)
    requires BlockInv(u) && Rewritten(u, v, w, k, buf, len, idxs) && m in u.files
    requires InodeInv(w) && InodeInv(Named(w, k, len, idxs)) && 0 <= j < NumBlocks(Named(w, k, len, idxs).ino[m].len)
    ensures Owns(Named(w, k, len, idxs), m, j)
  {
    hide Chunk, Freed, Zeroed, PartialBlocks;
    FreeFileKeepsOthers(u, k);
    if m == k {
      assert idxs[j] in idxs;
      assert Position(idxs, idxs[j]) == j;
    }
  }

  lemma RewriteOwnerOk(u: View, v: View, w: View, k: int, buf: seq<byte>, len: nat, idxs: seq<int>, b: int)
    requires BlockInv(u) && Rewritten(u, v, w, k, buf, len, idxs)
    requires InodeInv(w) && InodeInv(Named(w, k, len, idxs)) && b in Named(w, k, len, idxs).owner
    ensures OwnerOk(Named(w, k, len, idxs), b)
  {
    hide Chunk, Freed, Zeroed, PartialBlocks;
    FreeFileKeepsOthers(u, k);
    RewriteKeepsInodes(u, v, w, k, buf, len, idxs);
    if b in v.owner { assert OwnerOk(u, b); }
  }

  lemma RewriteKeepsBlocks(u: View, v: View, w: View, k: int, buf: seq<byte>, len: nat, idxs: seq<int>)
    requires BlockInv(u) && Rewritten(u, v, w, k, buf, len, idxs)
    ensures InodeInv(w) && BlockInv(Named(w, k, len, idxs))
  {
    hide Chunk, Freed, Zeroed, PartialBlocks, Owns, OwnerOk;
    RewriteKeepsInodes(u, v, w, k, buf, len, idxs);
    var x := Named(w, k, len, idxs);
    FreeFileKeepsOthers(u, k);
    forall m, j | m in x.files && 0 <= j < NumBlocks(x.ino[m].len)
      ensures Owns(x, m, j)
    {
      RewriteOwns(u, v, w, k, buf, len, idxs, m, j);
    }
    forall b | b in x.owner
      ensures OwnerOk(x, b)
    {
      RewriteOwnerOk(u, v, w, k, buf, len, idxs, b);
    }
  }

  lemma ChunkByte(fixed: bool, buf: seq<byte>, len: nat, p: nat)
    requires Needed(fixed, len) <= |buf| && p < len
    ensures p / SECTOR_SIZE < NumBlocks(len)
    ensures Chunk(fixed, buf, len, p / SECTOR_SIZE)[p % SECTOR_SIZE] == Stored(fixed, buf, len)[p]
  {
    assert p / SECTOR_SIZE * SECTOR_SIZE + p % SECTOR_SIZE == p;
  }

  /** Whether byte `p` of file `k` is in a block that has a sector of its own. */
  ghost predicate OwnByte(v: View, k: int, p: nat)
    requires InodeInv(v) && k in v.files && p < v.ino[k].len
  {
    Own(v.fixed, DB, v.ino[k].blocks[p / SECTOR_SIZE])
  }

  /** Whether all of file `k` is. */
  ghost predicate Private(v: View, k: int)
    requires InodeInv(v) && k in v.files
  {
    forall p {:trigger OwnByte(v, k, p)} :: 0 <= p < v.ino[k].len ==> OwnByte(v, k, p)
  }

  /** File `k` holds what was stored, but for its blocks in the shared sector, which all hold what
      was last written to one of them. */
  ghost predicate HoldsStored(v: View, k: int, buf: seq<byte>, len: nat)
    requires InodeInv(v) && k in v.files && Needed(v.fixed, len) <= |buf|
  {
    && v.ino[k].len == len
    && (forall p :: 0 <= p < len && OwnByte(v, k, p) ==> Content(v, k)[p] == Stored(v.fixed, buf, len)[p])
    && forall j :: IsLastShared(v.fixed, v.ino[k].blocks[..NumBlocks(len)], j) ==>
         SharedIs(v.fixed, v.data, Chunk(v.fixed, buf, len, j))
  }

  /** After a write the file holds what was stored. */
  lemma RewriteStores(u: View, v: View, w: View, k: int, buf: seq<byte>, len: nat, idxs: seq<int>)
    requires Rewritten(u, v, w, k, buf, len, idxs)
    ensures InodeInv(w) && InodeInv(Named(w, k, len, idxs))
    ensures HoldsStored(Named(w, k, len, idxs), k, buf, len)
  {
    hide Chunk, Stored, Source;
    RewriteKeepsInodes(u, v, w, k, buf, len, idxs);
    var x := Named(w, k, len, idxs);
    assert x.ino[k].blocks[..NumBlocks(len)] == idxs;
    forall p | 0 <= p < len && OwnByte(x, k, p)
      ensures Content(x, k)[p] == Stored(u.fixed, buf, len)[p]
    {
      ChunkByte(u.fixed, buf, len, p);
      assert x.ino[k].blocks[p / SECTOR_SIZE] == idxs[p / SECTOR_SIZE];
    }
  }

  /** File `k` of `v` is unchanged in `w`: its inode, and the data of every block it owns that has
      a sector of its own. */
  ghost predicate SameFile(v: View, w: View, k: int)
    requires InodeInv(v) && InodeInv(w) && k in v.files && k in w.files
  {
    && w.ino[k] == v.ino[k]
    && forall j :: 0 <= j < NumBlocks(v.ino[k].len) && Own(v.fixed, DB, v.ino[k].blocks[j]) ==>
         w.data[v.ino[k].blocks[j]] == v.data[v.ino[k].blocks[j]]
  }

  lemma SameFileSameContent(v: View, w: View, k: int)
    requires InodeInv(v) && InodeInv(w) && k in v.files && k in w.files && SameFile(v, w, k)
    ensures forall p :: 0 <= p < v.ino[k].len && OwnByte(v, k, p) ==> Content(w, k)[p] == Content(v, k)[p]
    ensures Private(v, k) ==> Content(w, k) == Content(v, k)
  {
    if Private(v, k) {
      forall p | 0 <= p < v.ino[k].len
        ensures Content(w, k)[p] == Content(v, k)[p]
      {
        assert OwnByte(v, k, p);
      }
    }
  }

  lemma RewriteKeepsOthers(u: View, v: View, w: View, k: int, buf: seq<byte>, len: nat, idxs: seq<int>, m: int)
    requires BlockInv(u) && Rewritten(u, v, w, k, buf, len, idxs) && m in u.files && m != k
    ensures InodeInv(w) && InodeInv(Named(w, k, len, idxs)) && SameFile(u, Named(w, k, len, idxs), m)
  {
    RewriteKeepsInodes(u, v, w, k, buf, len, idxs);
    FreeFileKeepsOthers(u, k);
    forall j | 0 <= j < NumBlocks(u.ino[m].len) && Own(u.fixed, DB, u.ino[m].blocks[j])
      ensures w.data[u.ino[m].blocks[j]] == u.data[u.ino[m].blocks[j]]
    {
      assert u.ino[m].blocks[j] in v.owner;
    }
  }

  /** Deletions leave every other file as it was. */
  lemma PrunedKeepsFile(v: View, w: View, folders: set<int>, files: set<int>, touched: set<int>, k: int)
    requires Pruned(v, w, folders, files, touched) && BlockInv(v) && k in v.files && k !in files
    ensures SameFile(v, w, k)
  {
    forall j | 0 <= j < NumBlocks(v.ino[k].len)
      ensures v.ino[k].blocks[j] in w.owner
    {
      assert Owns(v, k, j);
    }
  }

  /** A read of `n` bytes at `o` from a file that a write of `len` bytes filled gives back the
      bytes written and the number of them, unless the code is the shipped one and the read
      ends beyond the first 511 bytes. */
  lemma ReadBackExactly(fixed: bool, buf: seq<byte>, len: nat, o: nat, n: nat)
    requires len <= |buf| && o < len && n > 0
    ensures var e := if o + n >= len then len else o + n;
      (Stored(fixed, buf, len)[o..e] == buf[o..e] && ReadResult(fixed, o, e) == e - o) <==> fixed || e < SECTOR_SIZE
  {
  }

  /** What read_content returns for a read from `o` up to `e`: the shipped code returns an
      offset within the last block where it means a position in the file. */
  function ReadResult(fixed: bool, o: nat, e: nat): int {
    (if fixed then e else e % SECTOR_SIZE) - o
  }

  // ----- a whole write, a whole read

  /** The bits left once a write has freed the old content of `k`. */
  ghost function AfterFree(v: View, k: int): set<int>
    requires InodeInv(v) && k in v.files
  {
    v.blocks - Freed(v.ino[k])
  }

  /** The inode of a write of `len` bytes has a sector of its own, and so have the blocks it takes,
      unless no live file's inode is in the shared one. */
  ghost predicate Addressable(v: View, k: int, len: nat)
    requires InodeInv(v) && k in v.files
  {
    len == 0 || v.fixed
    || (&& Own(v.fixed, FILE, k)
        && (NoneShared(v) || NumBlocks(len) <= FreeBelow(AfterFree(v, k), Limit(v.fixed, DB) + 1)))
  }

  /** What a successful write does: the file holds the stored bytes, the partly filled block of
      the old content is stranded, and nothing else has changed. */
  ghost predicate WriteDone(u: View, x: View, k: int, buf: seq<byte>, len: nat)
    requires InodeInv(u) && InodeInv(x) && k in u.files && Needed(u.fixed, len) <= |buf|
  {
    && x == u.(blocks := x.blocks, data := x.data, ino := x.ino, owner := x.owner, stranded := x.stranded)
    && BlockInv(x)
    && x.fixed == u.fixed && HoldsStored(x, k, buf, len)
    && x.stranded == u.stranded + PartialBlocks(u, {k})
    && forall m :: m in u.files && m != k ==> SameFile(u, x, m)
  }

  /** A write of `len` bytes to file `k` finds enough free blocks once the old content is freed. */
  ghost predicate EnoughRoom(u: View, k: int, len: nat)
    requires InodeInv(u) && k in u.files
  {
    NumBlocks(len) <= FreeBelow(AfterFree(u, k), DB_NUM)
  }

  /** What a write that runs out of blocks leaves: every bit is set, the inode is still the old
      one, and of the files only `k` may hold other bytes. */
  ghost predicate WriteFailed(u: View, x: View, k: int)
    requires InodeInv(u) && InodeInv(x) && k in u.files
  {
    && x == u.(blocks := x.blocks, data := x.data, ino := x.ino, stranded := x.stranded)
    && BlockInv(x) && (forall m :: m in u.files ==> x.ino[m] == u.ino[m])
    && (forall b :: 0 <= b < DB_NUM ==> b in x.blocks)
    && forall m :: m in u.files && m != k ==> SameFile(u, x, m)
  }

  /** The write freed the old content of `k`, giving `v`, and took every free block, giving `w`;
      as the inode is not written, the blocks it names are owned as before. */
  lemma FailureKeepsBlocks(u: View, v: View, w: View, k: int, buf: seq<byte>, len: nat, idxs: seq<int>)
    requires BlockInv(u) && k in u.files && v == FreeFile(u, k)
    requires Needed(u.fixed, len) <= |buf| && Filled(v, w, buf, len, idxs) && FreeBelow(w.blocks, DB_NUM) == 0
    requires AllOwn(u.fixed, idxs) || NoneShared(u)
    ensures var x := w.(owner := u.owner, stranded := w.blocks - u.owner.Keys);
            InodeInv(x) && WriteFailed(u, x, k)
  {
    hide Chunk, Freed, Zeroed, Emptied, PartialBlocks, IsLastShared, AllOwn;
    var x := w.(owner := u.owner, stranded := w.blocks - u.owner.Keys);
    FreeFileKeepsOthers(u, k);
    FillKeepsInodes(u, w, k, buf, len, idxs);
    forall b | 0 <= b < DB_NUM
      ensures b in w.blocks
    {
      FreeIsCounted(w.blocks, b, DB_NUM);
    }
    forall m, j | m in x.files && 0 <= j < NumBlocks(x.ino[m].len)
      ensures Owns(x, m, j)
    {
      assert Owns(u, m, j);
    }
    forall b | b in x.owner
      ensures OwnerOk(x, b)
    {
      assert OwnerOk(u, b);
    }
  }

  /** Of two sets of blocks, of which the second is full, the first is the same if it is full too. */
  lemma SameWhenFull(a: set<int>, b: set<int>, n: nat)
    requires (forall i :: i in a + b ==> 0 <= i < n) && FreeBelow(b, n) == 0
    ensures a == b <==> FreeBelow(a, n) == 0
  {
    if FreeBelow(a, n) == 0 {
      forall i | 0 <= i < n
        ensures i in a && i in b
      {
        FreeIsCounted(a, i, n);
        FreeIsCounted(b, i, n);
      }
    }
  }

  lemma {:induction false} FreeIsCounted(bits: set<int>, b: int, n: nat)
    requires 0 <= b < n && FreeBelow(bits, n) == 0
    ensures b in bits
  {
    if b < n - 1 { FreeIsCounted(bits, b, n - 1); }
  }

  lemma OnlyContentChanged(u: View, x: View, detached: set<int>)
    requires Inv(u, detached) && InodeInv(x)
    requires x == u.(blocks := x.blocks, data := x.data, ino := x.ino, owner := x.owner, stranded := x.stranded)
    ensures Inv(x, detached)
  {
    forall f | f in x.live
      ensures NodeOk(x.fn[f], f, x.par[f])
    {
      assert NodeOk(u.fn[f], f, u.par[f]);
    }
    forall f, i | f in x.live && SUB <= i < FTERM_NUM && x.fn[f].fterms[i].used
      ensures NamesChild(x, detached, f, i)
    {
      assert NamesChild(u, detached, f, i);
    }
    forall c | c in x.live && c != ROOT && c !in x.lost && c !in detached
      ensures IsNamed(x, c)
    {
      assert IsNamed(u, c);
    }
    SlotsKeepFiles(u, x) by { FilesKeepFolders(u); }
  }

  lemma WriteIsDone(u: View, v: View, w: View, k: int, buf: seq<byte>, len: nat, idxs: seq<int>)
    requires BlockInv(u) && Rewritten(u, v, w, k, buf, len, idxs)
    ensures InodeInv(w) && InodeInv(Named(w, k, len, idxs))
    ensures WriteDone(u, Named(w, k, len, idxs), k, buf, len)
  {
    RewriteKeepsBlocks(u, v, w, k, buf, len, idxs);
    RewriteStores(u, v, w, k, buf, len, idxs);
    forall m | m in u.files && m != k
      ensures SameFile(u, Named(w, k, len, idxs), m)
    {
      RewriteKeepsOthers(u, v, w, k, buf, len, idxs, m);
    }
  }

  /** A stretch of a file inside one block. */
  lemma ContentInBlock(v: View, k: int, j: nat, a: nat, b: nat)
    requires InodeInv(v) && k in v.files && j < NumBlocks(v.ino[k].len)
    requires a <= b <= SECTOR_SIZE && j * SECTOR_SIZE + b <= v.ino[k].len
    ensures Content(v, k)[j * SECTOR_SIZE + a..j * SECTOR_SIZE + b] == v.data[v.ino[k].blocks[j]][a..b]
  {
    var c, d := Content(v, k), v.data[v.ino[k].blocks[j]];
    forall i | 0 <= i < b - a
      ensures c[j * SECTOR_SIZE + a..j * SECTOR_SIZE + b][i] == d[a..b][i]
    {
      var p := j * SECTOR_SIZE + (a + i);
      assert p / SECTOR_SIZE == j && p % SECTOR_SIZE == a + i;
      assert c[p] == d[a + i];
    }
  }

  lemma SliceJoin(c: seq<byte>, a: nat, b: nat, d: nat)
    requires a <= b <= d <= |c|
    ensures c[a..b] + c[b..d] == c[a..d]
  {
  }

  lemma JoinThree(c: seq<byte>, a: nat, b: nat, d: nat, e: nat)
    requires a <= b <= d <= e <= |c|
    ensures c[a..b] + c[b..d] + c[d..e] == c[a..e]
  {
  }

  lemma BlockBounds(offset: nat, end: nat)
    requires offset <= end && offset / SECTOR_SIZE != end / SECTOR_SIZE
    ensures var i, j := offset / SECTOR_SIZE, end / SECTOR_SIZE;
      && i * SECTOR_SIZE <= offset < (i + 1) * SECTOR_SIZE && i * SECTOR_SIZE + SECTOR_SIZE == (i + 1) * SECTOR_SIZE
      && i + 1 <= j && (i + 1) * SECTOR_SIZE <= j * SECTOR_SIZE <= end
  {
  }
}
