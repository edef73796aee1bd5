/**
  Reading the read-only filesystem image: a file is a length and a table of block numbers, and a
  read copies a slice of its bytes block by block.
 */
module FileRead {

  const BLOCK_SIZE := 4096
  const MAX_FILES := 63
  const MAX_INODES_PER_FILE := 1023
  const WORD := 0x1_0000_0000

  datatype Inode = Inode(length: int, blocks: seq<int>)

  datatype Image = Image(inodes: seq<Inode>, data: seq<seq<int>>)

  ghost predicate ImageOk(img: Image) {
    && |img.inodes| >= MAX_FILES
    && (forall i {:trigger img.inodes[i]} :: 0 <= i < |img.inodes| ==>
          && 0 <= img.inodes[i].length < WORD && |img.inodes[i].blocks| == MAX_INODES_PER_FILE
          && forall k {:trigger img.inodes[i].blocks[k]} :: 0 <= k < MAX_INODES_PER_FILE ==>
               0 <= img.inodes[i].blocks[k] < WORD)
    && forall b {:trigger img.data[b]} :: 0 <= b < |img.data| ==> |img.data[b]| == BLOCK_SIZE
  }

  /** Entries `a` to `b` of the file's table name blocks that exist. */
  ghost predicate InRange(img: Image, ino: Inode, a: int, b: int) {
    && 0 <= a && b < |ino.blocks|
    && forall k {:trigger ino.blocks[k]} :: a <= k <= b ==> 0 <= ino.blocks[k] < |img.data|
  }

  /** The end of a read, in 32-bit arithmetic. */
  function End(length: int, offset: int, n: int): int {
    if (offset + n) % WORD >= length then length else (offset + n) % WORD
  }

  /** A read ends where it should exactly when offset and length do not wrap around short of the
      end of the file. */
  lemma EndExactly(length: int, offset: int, n: int)
    requires 0 <= offset < length < WORD && 0 <= n < WORD
    ensures End(length, offset, n) == (if offset + n >= length then length else offset + n)
            <==> (offset + n < WORD || offset + n - WORD >= length)
    ensures !(offset + n < WORD || offset + n - WORD >= length) ==> End(length, offset, n) < offset
  {
  }

  function ByteAt(img: Image, ino: Inode, i: int): int
    requires 0 <= i / BLOCK_SIZE < |ino.blocks| && 0 <= ino.blocks[i / BLOCK_SIZE] < |img.data|
    requires |img.data[ino.blocks[i / BLOCK_SIZE]]| == BLOCK_SIZE
  {
    img.data[ino.blocks[i / BLOCK_SIZE]][i % BLOCK_SIZE]
  }

  /** The bytes of the file from `a` up to `b`. */
  ghost function Slice(img: Image, ino: Inode, a: nat, b: nat): (s: seq<int>)
    requires ImageOk(img) && a <= b && (a < b ==> InRange(img, ino, a / BLOCK_SIZE, (b - 1) / BLOCK_SIZE))
    ensures |s| == b - a
  {
    seq(b - a, i requires 0 <= i < b - a => ByteAt(img, ino, a + i))
  }

  /** A slice followed by the next one is a slice. */
  lemma SliceMore(img: Image, ino: Inode, a: nat, b: nat, c: nat)
    requires ImageOk(img) && a <= b <= c && (a < c ==> InRange(img, ino, a / BLOCK_SIZE, (c - 1) / BLOCK_SIZE))
    ensures Slice(img, ino, a, b) + Slice(img, ino, b, c) == Slice(img, ino, a, c)
  {
  }

  /** Part of one block is a slice. */
  lemma BlockSlice(img: Image, ino: Inode, a: nat, b: nat)
    requires ImageOk(img) && a <= b <= (a / BLOCK_SIZE + 1) * BLOCK_SIZE
    requires InRange(img, ino, a / BLOCK_SIZE, a / BLOCK_SIZE)
    ensures a < b ==> (b - 1) / BLOCK_SIZE == a / BLOCK_SIZE
    ensures var from := a - a / BLOCK_SIZE * BLOCK_SIZE;
            Slice(img, ino, a, b) == img.data[ino.blocks[a / BLOCK_SIZE]][from..from + (b - a)]
  {
    var q, from := a / BLOCK_SIZE, a - a / BLOCK_SIZE * BLOCK_SIZE;
    var part := img.data[ino.blocks[q]][from..from + (b - a)];
    forall i | 0 <= i < b - a
      ensures Slice(img, ino, a, b)[i] == part[i]
    {
      assert a + i == q * BLOCK_SIZE + (from + i);
      assert (a + i) / BLOCK_SIZE == q && (a + i) % BLOCK_SIZE == from + i;
      assert Slice(img, ino, a, b)[i] == ByteAt(img, ino, a + i) == img.data[ino.blocks[q]][from + i] == part[i];
    }
  }

  /** memcpy into the buffer at `at`. */
  method MemCpy(buf: array<int>, at: int, src: seq<int>)
    requires 0 <= at && at + |src| <= buf.Length
    modifies buf
    ensures buf[..at + |src|] == old(buf[..at]) + src
    ensures forall k :: at + |src| <= k < buf.Length ==> buf[k] == old(buf[k])
  {
    for i := 0 to |src|
      invariant forall k :: 0 <= k < buf.Length ==> buf[k] == if at <= k < at + i then src[k - at] else old(buf[k])
    {
      buf[at + i] := src[i];
    }
  }

  /** Whether a read fails: a block number out of range in the entries up to the one for the end,
      which is looked at even when no byte of its block is wanted. */
  ghost predicate Bad(img: Image, ino: Inode, offset: int, end: int)
    requires |ino.blocks| > end / BLOCK_SIZE
  {
    exists j :: 0 <= offset / BLOCK_SIZE <= j <= end / BLOCK_SIZE && ino.blocks[j] >= |img.data|
  }

  method ReadData(img: Image, inode: int, offset: int, buf: array<int>, length: int) returns (r: int)
    requires ImageOk(img) && 0 <= inode && 0 <= offset < WORD && 0 <= length < WORD
    requires inode < MAX_FILES && offset < img.inodes[inode].length ==>
               var ino := img.inodes[inode];
               var end := End(ino.length, offset, length);
               && (offset + length < WORD || offset + length - WORD >= ino.length)
               && end / BLOCK_SIZE < MAX_INODES_PER_FILE && end - offset <= buf.Length
    modifies buf
    ensures inode >= MAX_FILES ==> r == -1
    ensures inode < MAX_FILES && offset >= img.inodes[inode].length ==> r == 0
    ensures inode < MAX_FILES && offset < img.inodes[inode].length ==>
              var ino := img.inodes[inode];
              var end := End(ino.length, offset, length);
              if Bad(img, ino, offset, end) then r == -1
              else r == end - offset && InRange(img, ino, offset / BLOCK_SIZE, end / BLOCK_SIZE)
                   && buf[..r] == Slice(img, ino, offset, end)
    ensures forall k :: 0 <= k < buf.Length && r <= k ==> buf[k] == old(buf[k])
  {
    if inode >= MAX_FILES {
      return -1;
    }
    var ino := img.inodes[inode];
    if ino.length <= offset {
      return 0;
    }
    var end := if (offset + length) % WORD >= ino.length then ino.length else (offset + length) % WORD;
    EndExactly(ino.length, offset, length);
    for j := offset / BLOCK_SIZE to end / BLOCK_SIZE + 1
      invariant InRange(img, ino, offset / BLOCK_SIZE, j - 1)
    {
      if ino.blocks[j] >= |img.data| {
        return -1;
      }
    }
    CopyBlocks(img, ino, offset, end, buf);
    return end - offset;
  }

  /** The copying of read_data: part of the first block, the blocks between, part of the last. */
  method CopyBlocks(img: Image, ino: Inode, offset: int, end: int, buf: array<int>)
    requires ImageOk(img) && 0 <= offset <= end && end - offset <= buf.Length
    requires InRange(img, ino, offset / BLOCK_SIZE, end / BLOCK_SIZE)
    modifies buf
    ensures buf[..end - offset] == Slice(img, ino, offset, end)
    ensures forall k :: end - offset <= k < buf.Length ==> buf[k] == old(buf[k])
  {
    var startBlk, endBlk := offset / BLOCK_SIZE, end / BLOCK_SIZE;
    var startOff, endOff := offset - offset / BLOCK_SIZE * BLOCK_SIZE, end - end / BLOCK_SIZE * BLOCK_SIZE;
    var block := img.data[ino.blocks[startBlk]];
    if startBlk == endBlk {
      BlockSlice(img, ino, offset, end);
      MemCpy(buf, 0, block[startOff..endOff]);
      return;
    }
    var p := BLOCK_SIZE - startOff;
    BlockSlice(img, ino, offset, (startBlk + 1) * BLOCK_SIZE);
    MemCpy(buf, 0, block[startOff..]);
    CopyRest(img, ino, offset, end, p, buf);
  }

  method CopyRest(img: Image, ino: Inode, offset: int, end: int, start: int, buf: array<int>)
    requires ImageOk(img) && 0 <= offset <= end && end - offset <= buf.Length && offset / BLOCK_SIZE < end / BLOCK_SIZE
    requires InRange(img, ino, offset / BLOCK_SIZE, end / BLOCK_SIZE)
    requires start == (offset / BLOCK_SIZE + 1) * BLOCK_SIZE - offset
    requires buf[..start] == Slice(img, ino, offset, start + offset)
    modifies buf
    ensures buf[..end - offset] == Slice(img, ino, offset, end)
    ensures forall k :: end - offset <= k < buf.Length ==> buf[k] == old(buf[k])
  {
    var startBlk, endBlk := offset / BLOCK_SIZE, end / BLOCK_SIZE;
    var endOff := end - end / BLOCK_SIZE * BLOCK_SIZE;
    var p := start;
    for i := startBlk + 1 to endBlk
      invariant p == i * BLOCK_SIZE - offset <= buf.Length
      invariant buf[..p] == Slice(img, ino, offset, i * BLOCK_SIZE)
      invariant forall k :: p <= k < buf.Length ==> buf[k] == old(buf[k])
    {
      p := CopyBlock(img, ino, offset, i, BLOCK_SIZE, p, buf);
    }
    p := CopyBlock(img, ino, offset, endBlk, endOff, p, buf);
  }

  /** The first `n` bytes of block `i` of the file, after what has been copied so far. */
  method CopyBlock(img: Image, ino: Inode, ghost offset: nat, i: nat, n: nat, p: nat, buf: array<int>) returns (q: nat)
    requires ImageOk(img) && n <= BLOCK_SIZE && offset <= i * BLOCK_SIZE
    requires p == i * BLOCK_SIZE - offset && p + n <= buf.Length
    requires InRange(img, ino, offset / BLOCK_SIZE, i) && buf[..p] == Slice(img, ino, offset, i * BLOCK_SIZE)
    modifies buf
    ensures q == p + n && buf[..q] == Slice(img, ino, offset, i * BLOCK_SIZE + n)
    ensures forall k :: q <= k < buf.Length ==> buf[k] == old(buf[k])
  {
    BlockSlice(img, ino, i * BLOCK_SIZE, i * BLOCK_SIZE + n);
    SliceMore(img, ino, offset, i * BLOCK_SIZE, i * BLOCK_SIZE + n);
    var src := img.data[ino.blocks[i]][..n];
    MemCpy(buf, p, src);
    q := p + n;
    assert buf[..q] == old(buf[..p]) + src;
  }

  /** A file descriptor on a regular file. */
  class OpenFile {
    const img: Image
    const inode: int
    var filePos: int
    ghost var got: seq<int>     // what its reads delivered, one after the other

    ghost predicate Sound() {
      && ImageOk(img) && 0 <= inode < MAX_FILES
      && InRange(img, img.inodes[inode], 0, img.inodes[inode].length / BLOCK_SIZE)
    }

    /** Whatever lengths were read, together they delivered the file up to its position. */
    ghost predicate Valid()
      reads this
    {
      && Sound() && 0 <= filePos <= img.inodes[inode].length
      && got == Slice(img, img.inodes[inode], 0, filePos)
    }

    /** The entry file_open makes. */
    constructor (img: Image, inode: int)
      requires ImageOk(img) && 0 <= inode < MAX_FILES
      requires InRange(img, img.inodes[inode], 0, img.inodes[inode].length / BLOCK_SIZE)
      ensures Valid() && got == [] && this.img == img && this.inode == inode
    {
      this.img, this.inode, filePos, got := img, inode, 0, [];
    }

    /** file_read: the next bytes of the file, as many as are asked for and left, and 0 exactly at
        the end. */
    method Read(buf: array<int>, length: int) returns (r: int)
      requires Valid() && 0 < length < WORD && filePos + length < WORD && length <= buf.Length
      modifies this, buf
      ensures Valid() && filePos == old(filePos) + r
      ensures var size := img.inodes[inode].length;
              r == if old(filePos) + length >= size then size - old(filePos) else length
      ensures got == old(got) + buf[..r]
      ensures r == 0 <==> old(filePos) == img.inodes[inode].length
    {
      ghost var ino := img.inodes[inode];
      r := ReadData(img, inode, filePos, buf, length);
      if r != -1 {
        filePos := filePos + r;
        SliceMore(img, ino, 0, filePos - r, filePos);
        got := got + buf[..r];
      }
    }
  }
}
