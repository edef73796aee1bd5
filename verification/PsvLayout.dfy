/** Limits and on-disk structures of the PSV filesystem (PSV.h). */
module PsvLayout {

  const NAME_LEN := 32
  const FTERM_NUM := 8
  const ITERM_NUM := 16
  const FNODE_NUM := 32
  const INODE_NUM := 64
  const DB_NUM := 2048
  const FILE_BLOCKS := 126
  const SECTOR_SIZE := 512
  const MAX_LEN := 64512

  const START_LBA := 1000
  const FNODE_OFFS := 1
  const INODE_OFFS := 65
  const DB_OFFS := 129

  const ROOT := 0
  const SELF := 0
  const PARENT := 1
  const SUB := 2

  datatype SType = FOLDER | FILE | DB

  newtype byte = b: int | 0 <= b < 256
  type Block = bs: seq<byte> | |bs| == SECTOR_SIZE witness seq(SECTOR_SIZE, _ => 0)

  function ZeroBlock(): Block {
    seq(SECTOR_SIZE, _ => 0)
  }

  // A name is the part of a 32-byte field before its first NUL, so that equality of
  // names is a zero result of strncmp over 32 bytes.
  datatype FTerm = FTerm(used: bool, name: string, fnode: int)

  datatype ITerm = ITerm(used: bool, name: string, inode: int)

  datatype FNode = FNode(name: string, numF: int, numI: int, fterms: seq<FTerm>, iterms: seq<ITerm>)

  // `blocks` holds the 126 block indices and, last, the reserved word that follows them.
  datatype INode = INode(len: int, blocks: seq<int>)

  datatype SuperBlock = SuperBlock(usedF: int, usedI: int, usedD: int,
                                   fnodeMap: seq<bool>, inodeMap: seq<bool>, dbMap: seq<bool>)

  const EMPTY_FTERM := FTerm(false, "", 0)
  const EMPTY_ITERM := ITerm(false, "", 0)

  function ZeroFnode(): FNode {
    FNode("", 0, 0, seq(FTERM_NUM, _ => EMPTY_FTERM), seq(ITERM_NUM, _ => EMPTY_ITERM))
  }

  /** gen_inode. */
  function ZeroInode(): INode {
    INode(0, seq(FILE_BLOCKS + 1, _ => 0))
  }

  /** How many structures of each type the superblock counts. */
  function Total(t: SType): int {
    match t
    case FOLDER => FNODE_NUM
    case FILE => INODE_NUM
    case DB => DB_NUM
  }

  /** The bound that idx2LBA compares an index with: the shipped code uses FNODE_NUM_LIM
      for every type, the repaired code the last index of the type. */
  function Limit(fixed: bool, t: SType): int {
    if fixed then Total(t) - 1 else FNODE_NUM
  }

  /** idx2LBA. */
  function Idx2Lba(fixed: bool, t: SType, idx: int): int {
    if idx < 0 || idx > Limit(fixed, t) then START_LBA - 1
    else match t
      case FOLDER => idx * 2 + START_LBA + FNODE_OFFS
      case FILE => idx + START_LBA + INODE_OFFS
      case DB => idx + START_LBA + DB_OFFS
  }

  /** Whether an index of the type has a sector of its own: all inodes and data blocks beyond the
      bound are one sector. */
  predicate Own(fixed: bool, t: SType, i: int) {
    i <= Limit(fixed, t)
  }

  /** The inodes once one is stored. */
  function PutInode(fixed: bool, ino: seq<INode>, k: int, n: INode): (r: seq<INode>)
    requires 0 <= k < |ino|
    ensures |r| == |ino| && r[k] == n
    ensures forall i :: 0 <= i < |ino| && i != k && (Own(fixed, FILE, i) || Own(fixed, FILE, k)) ==> r[i] == ino[i]
  {
    if Own(fixed, FILE, k) then ino[k := n]
    else seq(|ino|, i requires 0 <= i < |ino| => if Own(fixed, FILE, i) then ino[i] else n)
  }

  /** The data blocks once one is stored. */
  function PutBlock(fixed: bool, data: seq<Block>, b: int, block: Block): (r: seq<Block>)
    requires 0 <= b < |data|
    ensures |r| == |data| && r[b] == block
    ensures forall i :: 0 <= i < |data| && i != b && (Own(fixed, DB, i) || Own(fixed, DB, b)) ==> r[i] == data[i]
  {
    if Own(fixed, DB, b) then data[b := block]
    else seq(|data|, i requires 0 <= i < |data| => if Own(fixed, DB, i) then data[i] else block)
  }

  /** What zeros in the shared sector are to the inodes, and to the data blocks. */
  function ClearInodes(fixed: bool, ino: seq<INode>): (r: seq<INode>)
    ensures |r| == |ino|
    ensures forall i :: 0 <= i < |ino| ==> r[i] == if Own(fixed, FILE, i) then ino[i] else ZeroInode()
  {
    seq(|ino|, i requires 0 <= i < |ino| => if Own(fixed, FILE, i) then ino[i] else ZeroInode())
  }

  function ClearBlocks(fixed: bool, data: seq<Block>): (r: seq<Block>)
    ensures |r| == |data|
    ensures forall i :: 0 <= i < |data| ==> r[i] == if Own(fixed, DB, i) then data[i] else ZeroBlock()
  {
    seq(|data|, i requires 0 <= i < |data| => if Own(fixed, DB, i) then data[i] else ZeroBlock())
  }

  /** The sectors that one structure occupies. */
  function Sectors(fixed: bool, t: SType, idx: int): set<int> {
    var lba := Idx2Lba(fixed, t, idx);
    if t.FOLDER? then {lba, lba + 1} else {lba}
  }

  /** Which structures overlap on disk: with the shipped bound, exactly the inodes and data
      blocks of index above 32, which all live in the one sector before the superblock; with
      a bound for each type, none.  No structure overlaps the superblock. */
  lemma SectorCollision(fixed: bool, t: SType, i: int, u: SType, j: int)
    requires 0 <= i < Total(t) && 0 <= j < Total(u) && (t, i) != (u, j)
    ensures Sectors(fixed, t, i) !! Sectors(fixed, u, j) <==> fixed || i <= FNODE_NUM || j <= FNODE_NUM
    ensures START_LBA !in Sectors(fixed, t, i)
  {
  }
}

/** The disk: one sector an LBA, with typed contents, behind the read_ and write_ functions
    of helper.c.  The ghost fields are the structures that the sectors hold. */
module PsvDisk {
  import opened PsvLayout

  datatype Sector =
    | SuperSector(sb: SuperBlock)
    | FnodeSector(node: FNode, half: int)
    | InodeSector(inode: INode)
    | DataSector(bytes: Block)
    | SharedSector(inode: INode, bytes: Block)

  // What a sector holds that inodes and data blocks share, read as the one and as the other.
  datatype Stray = Stray(inode: INode, bytes: Block)

  /** The sector at `lba` once PSV_setup has cleared the area and written the superblock and the
      root.  The sector before the area is not cleared. */
  function Blank(sb: SuperBlock, root: FNode, stray: Stray, lba: int): Sector {
    if lba < START_LBA then SharedSector(stray.inode, stray.bytes)
    else if lba == START_LBA then SuperSector(sb)
    else if lba < START_LBA + INODE_OFFS then
      FnodeSector(if lba < START_LBA + FNODE_OFFS + 2 then root else ZeroFnode(), (lba - START_LBA - FNODE_OFFS) % 2)
    else if lba < START_LBA + DB_OFFS then InodeSector(ZeroInode())
    else DataSector(ZeroBlock())
  }

  function BlankInodes(fixed: bool, stray: Stray): seq<INode> {
    seq(INODE_NUM, i => if Own(fixed, FILE, i) then ZeroInode() else stray.inode)
  }

  function BlankBlocks(fixed: bool, stray: Stray): seq<Block> {
    seq(DB_NUM, i => if Own(fixed, DB, i) then ZeroBlock() else stray.bytes)
  }

  class Disk {
    const fixed: bool
    var sectors: map<int, Sector>
    ghost var super: SuperBlock
    ghost var fn: seq<FNode>
    ghost var ino: seq<INode>
    ghost var data: seq<Block>

    ghost predicate Valid()
      reads this
    {
      && |fn| == FNODE_NUM && |ino| == INODE_NUM && |data| == DB_NUM
      && START_LBA in sectors && sectors[START_LBA] == SuperSector(super)
      && HoldsFnodes() && HoldsInodes() && HoldsData()
    }

    ghost predicate HoldsFnodes()
      reads this
      requires |fn| == FNODE_NUM
    {
      forall i :: 0 <= i < FNODE_NUM ==>
        var lba := Idx2Lba(fixed, FOLDER, i);
        && lba in sectors && sectors[lba] == FnodeSector(fn[i], 0)
        && lba + 1 in sectors && sectors[lba + 1] == FnodeSector(fn[i], 1)
    }

    ghost predicate HoldsInodes()
      reads this
      requires |ino| == INODE_NUM
    {
      forall i :: 0 <= i < INODE_NUM ==>
        var lba := Idx2Lba(fixed, FILE, i);
        lba in sectors && if Own(fixed, FILE, i) then sectors[lba] == InodeSector(ino[i])
                          else sectors[lba].SharedSector? && sectors[lba].inode == ino[i]
    }

    ghost predicate HoldsData()
      reads this
      requires |data| == DB_NUM
    {
      forall i :: 0 <= i < DB_NUM ==>
        var lba := Idx2Lba(fixed, DB, i);
        lba in sectors && if Own(fixed, DB, i) then sectors[lba] == DataSector(data[i])
                          else sectors[lba].SharedSector? && sectors[lba].bytes == data[i]
    }

    /** A blank area with the given superblock and root folder, the image PSV_setup leaves. */
    constructor (fixed: bool, sb: SuperBlock, root: FNode, stray: Stray)
      ensures Valid() && this.fixed == fixed
      ensures super == sb && fn == seq(FNODE_NUM, i => if i == ROOT then root else ZeroFnode())
      ensures ino == BlankInodes(fixed, stray) && data == BlankBlocks(fixed, stray)
    {
      this.fixed := fixed;
      sectors := map lba | START_LBA - 1 <= lba < START_LBA + DB_OFFS + DB_NUM :: Blank(sb, root, stray, lba);
      super := sb;
      fn := seq(FNODE_NUM, i => if i == ROOT then root else ZeroFnode());
      ino := BlankInodes(fixed, stray);
      data := BlankBlocks(fixed, stray);
    }

    method ReadSuper() returns (sb: SuperBlock)
      requires Valid()
      ensures sb == super
    {
      sb := sectors[START_LBA].sb;
    }

    method WriteSuper(sb: SuperBlock)
      requires Valid()
      modifies this
      ensures Valid() && super == sb
      ensures fn == old(fn) && ino == old(ino) && data == old(data)
    {
      sectors := sectors[START_LBA := SuperSector(sb)];
      super := sb;
    }

    method ReadFnode(idx: int) returns (n: FNode)
      requires Valid() && 0 <= idx < FNODE_NUM
      ensures n == fn[idx]
    {
      n := sectors[Idx2Lba(fixed, FOLDER, idx)].node;
    }

    method WriteFnode(n: FNode, idx: int)
      requires Valid() && 0 <= idx < FNODE_NUM
      modifies this
      ensures Valid() && fn == old(fn)[idx := n]
      ensures super == old(super) && ino == old(ino) && data == old(data)
    {
      var lba := Idx2Lba(fixed, FOLDER, idx);
      sectors := sectors[lba := FnodeSector(n, 0)][lba + 1 := FnodeSector(n, 1)];
      fn := fn[idx := n];
      assert HoldsInodes() && HoldsData();
    }

    method ReadInode(idx: int) returns (n: INode)
      requires Valid() && 0 <= idx < INODE_NUM
      ensures n == ino[idx]
    {
      n := sectors[Idx2Lba(fixed, FILE, idx)].inode;
    }

    /** What the bytes of an inode are as a block of data is left open, but for zeros. */
    method WriteInode(n: INode, idx: int)
      requires Valid() && 0 <= idx < INODE_NUM
      modifies this
      ensures Valid() && ino == PutInode(fixed, old(ino), idx, n)
      ensures super == old(super) && fn == old(fn)
      ensures Own(fixed, FILE, idx) ==> data == old(data)
      ensures n == ZeroInode() && !Own(fixed, FILE, idx) ==> data == ClearBlocks(fixed, old(data))
    {
      var lba := Idx2Lba(fixed, FILE, idx);
      if Own(fixed, FILE, idx) {
        sectors := sectors[lba := InodeSector(n)];
      } else {
        var bytes: Block := *;
        if n == ZeroInode() { bytes := ZeroBlock(); }
        sectors := sectors[lba := SharedSector(n, bytes)];
        data := PutBlock(fixed, data, DB_NUM - 1, bytes);
      }
      ino := PutInode(fixed, ino, idx, n);
    }

    method ReadDb(idx: int) returns (b: Block)
      requires Valid() && 0 <= idx < DB_NUM
      ensures b == data[idx]
    {
      b := sectors[Idx2Lba(fixed, DB, idx)].bytes;
    }

    /** And what a block of data is as an inode. */
    method WriteDb(b: Block, idx: int)
      requires Valid() && 0 <= idx < DB_NUM
      modifies this
      ensures Valid() && data == PutBlock(fixed, old(data), idx, b)
      ensures super == old(super) && fn == old(fn)
      ensures forall i :: 0 <= i < INODE_NUM && (Own(fixed, FILE, i) || Own(fixed, DB, idx)) ==> ino[i] == old(ino)[i]
      ensures b == ZeroBlock() && !Own(fixed, DB, idx) ==> ino == ClearInodes(fixed, old(ino))
    {
      var lba := Idx2Lba(fixed, DB, idx);
      if Own(fixed, DB, idx) {
        sectors := sectors[lba := DataSector(b)];
      } else {
        var inode: INode := *;
        if b == ZeroBlock() { inode := ZeroInode(); }
        sectors := sectors[lba := SharedSector(inode, b)];
        ino := PutInode(fixed, ino, INODE_NUM - 1, inode);
      }
      data := PutBlock(fixed, data, idx, b);
    }
  }
}
