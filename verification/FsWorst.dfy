/** A file system on which the log budget of kernel/file.c is used up to the last block.

  Blocks 100 up to 33472 hold data, described by five bitmap blocks. Five of them are free,
  each one described by another bitmap block. Between two free blocks lie 31 files of 268
  blocks and an indirect block; the 12 blocks after the last one are a file without an
  indirect block.
 */
module FsWorst {
  import opened Common
  import opened Arith
  import opened FsBlock
  import opened FsRefs
  import opened Fs
  import opened File

  const SB := Sb(33473, 128, 2, 10, 100)
  const FILES := 124               // the full files are inodes 1 up to FILES
  const LAST := 125                // the file without an indirect block
  const TAIL := 33461              // its first block

  predicate IsFree(b: int) { 100 <= b < TAIL && (b - 100) % 8340 == 0 }

  /** The first block of full file i; its blocks lie in the order of their slots. */
  function First(i: int): int { 101 + (i - 1) / 31 * 8340 + (i - 1) % 31 * 269 }

  function OwnerAt(b: int): (int, int) {
    if b >= TAIL then (LAST, b - TAIL)
    else ((b - 100) / 8340 * 31 + ((b - 100) % 8340 - 1) / 269 + 1, ((b - 100) % 8340 - 1) % 269)
  }

  /** Places and slots are inverse. */
  lemma PlaceOf(i: int, s: int)
    requires 1 <= i <= FILES && 0 <= s <= INDIRECT
    ensures 100 < First(i) + s < TAIL && !IsFree(First(i) + s) && OwnerAt(First(i) + s) == (i, s)
  {
    var q, t := (i - 1) / 31, (i - 1) % 31;
    var p := t * 269 + s;
    assert 0 <= q <= 3 && 0 <= p < 8339 && First(i) + s - 100 == q * 8340 + (p + 1);
    DivUnique(q * 8340 + (p + 1), 8340, q, p + 1);
    DivUnique(t * 269 + s, 269, t, s);
  }

  lemma SlotOf(b: int)
    requires 100 <= b < TAIL && !IsFree(b)
    ensures var (i, s) := OwnerAt(b); 1 <= i <= FILES && 0 <= s <= INDIRECT && First(i) + s == b
  {
    var q, p := (b - 100) / 8340, (b - 100) % 8340 - 1;
    assert 0 <= q <= 3 && 0 <= p < 8339;
    var t := p / 269;
    assert 0 <= t <= 30;
    DivUnique(q * 31 + t, 31, q, t);
  }

  function Full(i: int): (ip: Inode)
    ensures |ip.addrs| == NDIRECT + 1
  {
    Inode(2, 1, MAXFILE * BSIZE, seq(NDIRECT + 1, s => if s < NDIRECT then First(i) + s else First(i) + INDIRECT))
  }

  function Short(): (ip: Inode)
    ensures |ip.addrs| == NDIRECT + 1
  {
    Inode(2, 1, NDIRECT * BSIZE, seq(NDIRECT + 1, s => if s < NDIRECT then TAIL + s else 0))
  }

  function InodeAt(i: int): (ip: Inode)
    ensures |ip.addrs| == NDIRECT + 1
  {
    if i == LAST then Short() else Full(i)
  }

  /** Word w of inode block b. */
  function InodeWord(b: int, w: int): (x: int)
    ensures 0 <= x < 0x1_0000_0000
  {
    var n := (b - 2) * 16 + w / 16;
    if 1 <= n <= LAST then WordRange(n, w % 16); DiskWord(InodeAt(n), w % 16) else 0
  }

  lemma WordRange(i: int, w: int)
    requires 1 <= i <= LAST && 0 <= w < 16
    ensures 0 <= DiskWord(InodeAt(i), w) < 0x1_0000_0000
  {
    if i < LAST {
      PlaceOf(i, 0);
    }
  }

  predicate InUse(b: int) { b < 100 || !IsFree(b) }

  /** Word k of the indirect block b of a full file. */
  function IndirectWord(b: int, k: int): (x: int)
    ensures 0 <= x < 0x1_0000_0000
  {
    if 0 <= k < NINDIRECT && 256 <= b < TAIL then b - 256 + k else 0
  }

  predicate IsIndirect(b: int) { 100 <= b < TAIL && !IsFree(b) && OwnerAt(b).1 == INDIRECT }

  function BlockAt(b: int): (d: Block)
    ensures |d| == BSIZE
  {
    if 2 <= b < 10 then FromWords(w => InodeWord(b, w))
    else if 10 <= b < 15 then FromBits(bi => InUse((b - 10) * BPB + bi))
    else if IsIndirect(b) then FromWords(k => IndirectWord(b, k))
    else Zeroed()
  }

  function WorstDisk(): Disk { map b | 0 <= b < SB.size :: BlockAt(b) }

  function WorstInodes(): map<int, Inode> { map i | 1 <= i <= LAST :: InodeAt(i) }

  ghost function WorstOwner(): map<int, (int, int)> { map b | 100 <= b < SB.size && !IsFree(b) :: OwnerAt(b) }

  // ---------------------------------------------------------------- it is in order

  lemma WorstShape()
    ensures Layout(SB) && DiskOk(SB, WorstDisk()) && InodesOk(SB, WorstInodes())
  {
  }

  lemma WorstBit(b: int)
    requires 0 <= b < SB.size && Layout(SB) && DiskOk(SB, WorstDisk())
    ensures Used(SB, WorstDisk(), b) <==> InUse(b)
  {
    hide BitOf, FromBits;
    var bb := BBlock(SB, b);
    assert 10 <= bb < 15 && (bb - 10) * BPB + b % BPB == b;
    BitOfBits(bi => InUse((bb - 10) * BPB + bi), b % BPB);
  }

  lemma WorstBits()
    requires Layout(SB) && DiskOk(SB, WorstDisk())
    ensures BitsOk(SB, WorstDisk(), WorstOwner().Keys)
  {
    hide Used, WorstDisk;
    forall b | 0 <= b < SB.size
      ensures Used(SB, WorstDisk(), b) <==> b < SB.nmeta || b in WorstOwner().Keys
    {
      WorstBit(b);
    }
  }

  lemma WorstRef(i: int, s: int)
    requires 1 <= i <= LAST && 0 <= s <= INDIRECT
    ensures Ref(WorstDisk(), InodeAt(i), s) == if i < LAST then First(i) + s else if s < NDIRECT then TAIL + s else 0
  {
    hide Word, FromWords, FromBits, InodeWord;
    if i < LAST && NDIRECT <= s < INDIRECT {
      PlaceOf(i, INDIRECT);
      var x := First(i) + INDIRECT;
      assert IsIndirect(x) && x >= 256 && BlockAt(x) == FromWords(k => IndirectWord(x, k));
      WordOfWords(k => IndirectWord(x, k), s - NDIRECT);
    }
  }

  lemma WorstRefs()
    ensures RefsOk(SB, WorstDisk(), WorstInodes(), WorstOwner())
  {
    hide Ref, WorstDisk, InodeAt, OwnerAt, First, IsFree;
    forall i, s | i in WorstInodes() && 0 <= s <= INDIRECT
      ensures SlotOk(SB, WorstDisk(), WorstInodes()[i], WorstOwner(), i, s)
    {
      WorstRef(i, s);
      WorstSlot(i, s);
    }
    forall b | b in WorstOwner()
      ensures OwnerOk(SB, WorstDisk(), WorstInodes(), WorstOwner(), b)
    {
      WorstPlace(b);
      WorstRef(OwnerAt(b).0, OwnerAt(b).1);
    }
  }

  lemma WorstSlot(i: int, s: int)
    requires 1 <= i <= LAST && 0 <= s <= INDIRECT
    ensures var r := if i < LAST then First(i) + s else if s < NDIRECT then TAIL + s else 0;
            r == 0 || (100 <= r < SB.size && !IsFree(r) && OwnerAt(r) == (i, s))
  {
    if i < LAST {
      PlaceOf(i, s);
    }
  }

  lemma WorstPlace(b: int)
    requires 100 <= b < SB.size && !IsFree(b)
    ensures var (i, s) := OwnerAt(b);
            && 1 <= i <= LAST && 0 <= s <= INDIRECT
               && (if i < LAST then First(i) + s == b else s < NDIRECT && TAIL + s == b)
  {
    if b < TAIL {
      SlotOf(b);
    }
  }

  lemma WorstFile(i: int)
    requires 1 <= i <= LAST
    ensures FileOk(SB, WorstDisk(), InodeAt(i), i)
  {
    hide Ref, Word, FromWords, FromBits, DiskWord;
    forall s | 0 <= s < (InodeAt(i).size + BSIZE - 1) / BSIZE
      ensures Mapped(WorstDisk(), InodeAt(i), s)
    {
      WorstRef(i, s);
      WorstSlot(i, s);
    }
    var b := IBlock(SB, i);
    assert 2 <= b < 10;
    forall w | 0 <= w < 16
      ensures Word(WorstDisk()[b], i % IPB * 16 + w) == DiskWord(InodeAt(i), w)
    {
      DivUnique(i % IPB * 16 + w, 16, i % IPB, w);
      WordOfWords(v => InodeWord(b, v), i % IPB * 16 + w);
    }
  }

  /** A file system of this shape is in order. */
  method WorstFileSystem() returns (fs: FileSystem)
    ensures fresh(fs) && fs.Valid() && fs.sb == SB && fs.disk == WorstDisk() && fs.ino == WorstInodes()
    ensures fs.alloc == WorstOwner().Keys && fs.owner == WorstOwner() && fs.logged == {}
  {
    hide BitsOk, RefsOk, FileOk, WorstDisk, WorstInodes;
    WorstShape();
    WorstBits();
    WorstRefs();
    forall i | i in WorstInodes()
      ensures FileOk(SB, WorstDisk(), WorstInodes()[i], i)
    {
      WorstInode(i);
      WorstFile(i);
    }
    fs := new FileSystem(SB, WorstDisk(), WorstInodes(), WorstOwner());
  }

  lemma WorstInode(i: int)
    requires i in WorstInodes()
    ensures 1 <= i <= LAST && WorstInodes()[i] == InodeAt(i)
  {
  }

  // ---------------------------------------------------------------- one byte more than a chunk

  lemma FreeBlocks(b: int)
    ensures IsFree(b) <==> b in {100, 8440, 16780, 25120, 33460}
  {
    if IsFree(b) {
      assert b - 100 == (b - 100) / 8340 * 8340 && 0 <= (b - 100) / 8340 <= 4;
    }
  }

  lemma OwnedOrFree(b: int)
    ensures (b in WorstOwner() <==> SB.nmeta <= b < SB.size && !IsFree(b)) && (IsFree(b) ==> SB.nmeta <= b < SB.size)
  {
  }

  /** The blocks left are those of the data area without an owner. */
  lemma LeftIs(sb: Sb, owned: set<int>, free: set<int>)
    requires sb.nmeta <= sb.size && owned !! free
    requires forall b :: b in owned + free <==> sb.nmeta <= b < sb.size
    ensures Left(sb, owned) == |free|
  {
    assert DataBlocks(sb.nmeta, sb.size) == owned + free;
  }

  lemma LeftFive(free: set<int>)
    requires |free| == 5 && forall b :: b in free <==> IsFree(b)
    ensures Left(SB, WorstOwner().Keys) == 5
  {
    hide WorstOwner, IsFree, Left;
    var owned := WorstOwner().Keys;
    forall b
      ensures b in owned + free <==> SB.nmeta <= b < SB.size
      ensures b in free ==> b !in owned
    {
      OwnedOrFree(b);
    }
    LeftIs(SB, owned, free);
  }

  /** Five blocks are left, and the write needs them all. */
  lemma WorstNeed()
    ensures Left(SB, WorstOwner().Keys) == 5
    ensures InodeOk(Short()) && WriteNeed(WorstDisk(), Short(), NDIRECT, NDIRECT + 4) == 5
  {
    hide WorstDisk, Ref, WorstOwner, Left, IsFree;
    var free := {100, 8440, 16780, 25120, 33460};
    forall b ensures b in free <==> IsFree(b) { FreeBlocks(b); }
    LeftFive(free);
    forall s | NDIRECT <= s < NDIRECT + 4 ensures !Mapped(WorstDisk(), Short(), s) { WorstRef(LAST, s); }
    assert Holes(WorstDisk(), Short(), NDIRECT, NDIRECT + 4) == {12, 13, 14, 15};
  }

  /** What writei promises for CHUNK + 1 bytes of value 9 at the end of the last file. */
  ghost predicate After(disk: Disk, ino: map<int, Inode>, alloc: set<int>, owner: map<int, (int, int)>,
                        logged: set<int>) {
    && Layout(SB) && DiskOk(SB, disk) && InodesOk(SB, ino)
    && BitsOk(SB, disk, alloc) && RefsOk(SB, disk, ino, owner) && owner.Keys == alloc && Left(SB, alloc) == 0
    && LAST in ino && FileOk(SB, disk, ino[LAST], LAST) && ino[LAST].size == NDIRECT * BSIZE + CHUNK + 1
    && (forall k :: NDIRECT * BSIZE <= k < NDIRECT * BSIZE + CHUNK + 1 ==> FileByte(disk, ino[LAST], k) == 9)
    && Stay(WorstDisk(), Short(), disk, ino[LAST]) && Bystanders(WorstDisk(), WorstOwner(), disk, owner, LAST)
    && Noted(SB, WorstDisk(), {}, disk, logged)
  }

  lemma BitmapLogged(disk: Disk, ino: map<int, Inode>, alloc: set<int>, owner: map<int, (int, int)>, logged: set<int>,
                     f: int)
    requires After(disk, ino, alloc, owner, logged) && IsFree(f)
    ensures BBlock(SB, f) in logged
  {
    hide BitOf, Ref, WorstDisk, RefsOk, FileOk, FileByte, Stay, Bystanders;
    WorstShape();
    WorstBit(f);
    LeftInRange(SB, disk, alloc);
    assert Used(SB, disk, f) && !Used(SB, WorstDisk(), f);
  }

  lemma InodeLogged(disk: Disk, ino: map<int, Inode>, alloc: set<int>, owner: map<int, (int, int)>, logged: set<int>)
    requires After(disk, ino, alloc, owner, logged)
    ensures LAST in ino && IBlock(SB, LAST) in logged
  {
    hide Word, Ref, WorstDisk, RefsOk, BitsOk, FileByte, Stay, Bystanders, MappedTo;
    WorstShape();
    WorstFile(LAST);
    var b, w := IBlock(SB, LAST), LAST % IPB * 16 + 2;
    assert Word(disk[b], w) == DiskWord(ino[LAST], 2) && Word(WorstDisk()[b], w) == DiskWord(Short(), 2);
  }

  /** No block changes hands. */
  lemma OwnersKept(disk: Disk, ino: map<int, Inode>, alloc: set<int>, owner: map<int, (int, int)>, logged: set<int>,
                   b: int)
    requires After(disk, ino, alloc, owner, logged) && b in WorstOwner()
    ensures b in owner && owner[b] == WorstOwner()[b]
  {
    hide Ref, WorstDisk, BitOf, FileOk, FileByte, Noted, OwnerAt, IsFree;
    WorstPlace(b);
    var (j, s) := OwnerAt(b);
    if j == LAST {
      WorstRef(LAST, s);
      assert Mapped(WorstDisk(), Short(), s) && Ref(disk, ino[LAST], s) == b;
      assert SlotOk(SB, disk, ino[LAST], owner, LAST, s);
    }
  }

  /** The blocks the write adds to the file were free. */
  lemma NewBlock(disk: Disk, ino: map<int, Inode>, alloc: set<int>, owner: map<int, (int, int)>, logged: set<int>,
                 u: int)
    requires After(disk, ino, alloc, owner, logged) && (NDIRECT <= u < NDIRECT + 4 || u == INDIRECT)
    requires Mapped(disk, ino[LAST], u)
    ensures var r := Ref(disk, ino[LAST], u); IsFree(r) && r in owner && owner[r] == (LAST, u)
  {
    hide Ref, WorstDisk, BitOf, FileOk, FileByte, Noted, OwnerAt, IsFree, Stay, Bystanders;
    var r := Ref(disk, ino[LAST], u);
    assert SlotOk(SB, disk, ino[LAST], owner, LAST, u);
    assert OwnerOk(SB, disk, ino, owner, r);
    if !IsFree(r) {
      WorstPlace(r);
      OwnersKept(disk, ino, alloc, owner, logged, r);
      assert false;
    }
  }

  lemma FreeIsZero(f: int)
    requires IsFree(f)
    ensures SB.nmeta <= f < SB.size && f in WorstDisk() && WorstDisk()[f] == Zeroed()
  {
  }

  lemma DataLogged(disk: Disk, ino: map<int, Inode>, alloc: set<int>, owner: map<int, (int, int)>, logged: set<int>,
                   u: int)
    requires After(disk, ino, alloc, owner, logged) && NDIRECT <= u < NDIRECT + 4
    ensures Mapped(disk, ino[LAST], u) && Ref(disk, ino[LAST], u) in logged
  {
    hide WorstDisk, BitOf, RefsOk, BitsOk, Saved, Stay, Bystanders, Ref, IsFree;
    assert Mapped(disk, ino[LAST], u);
    NewBlock(disk, ino, alloc, owner, logged, u);
    var r := Ref(disk, ino[LAST], u);
    FreeIsZero(r);
    assert FileByte(disk, ino[LAST], u * BSIZE) == 9;
  }

  lemma IndirectLogged(disk: Disk, ino: map<int, Inode>, alloc: set<int>, owner: map<int, (int, int)>, logged: set<int>)
    requires After(disk, ino, alloc, owner, logged)
    ensures Mapped(disk, ino[LAST], INDIRECT) && Ref(disk, ino[LAST], INDIRECT) in logged
  {
    hide WorstDisk, BitOf, RefsOk, BitsOk, Saved, Stay, Bystanders, FileByte, Word, IsFree;
    assert Mapped(disk, ino[LAST], NDIRECT) && Mapped(disk, ino[LAST], INDIRECT);
    NewBlock(disk, ino, alloc, owner, logged, INDIRECT);
    FreeIsZero(Ref(disk, ino[LAST], INDIRECT));
    ZeroWord(0);
  }

  /** The 11 blocks, all different. */
  lemma Eleven(logged: set<int>, a: int, b: int, c: int, d: int, x: int)
    requires {9, 10, 11, 12, 13, 14} <= logged && {a, b, c, d, x} <= logged
    requires a >= 100 && b >= 100 && c >= 100 && d >= 100 && x >= 100
    requires a != b && a != c && a != d && a != x && b != c && b != d && b != x && c != d && c != x && d != x
    ensures |logged| >= 11
  {
    var meta, data := {9, 10, 11, 12, 13, 14}, {a, b, c, d, x};
    assert |meta| == 6 && |data| == 5 && meta !! data;
    SubsetCard(meta + data, logged);
  }

  lemma AllLogged(disk: Disk, ino: map<int, Inode>, alloc: set<int>, owner: map<int, (int, int)>, logged: set<int>)
    requires After(disk, ino, alloc, owner, logged)
    ensures |logged| > MAXOPBLOCKS
  {
    hide After, Ref;
    InodeLogged(disk, ino, alloc, owner, logged);
    forall f | f in {100, 8440, 16780, 25120, 33460}
      ensures BBlock(SB, f) in logged
    {
      FreeBlocks(f);
      BitmapLogged(disk, ino, alloc, owner, logged, f);
    }
    assert BBlock(SB, 100) == 10 && BBlock(SB, 8440) == 11 && BBlock(SB, 16780) == 12 && BBlock(SB, 25120) == 13
           && BBlock(SB, 33460) == 14;
    IndirectLogged(disk, ino, alloc, owner, logged);
    NewBlock(disk, ino, alloc, owner, logged, INDIRECT);
    forall u | NDIRECT <= u < NDIRECT + 4
      ensures Mapped(disk, ino[LAST], u) && Ref(disk, ino[LAST], u) in logged && IsFree(Ref(disk, ino[LAST], u))
      ensures Ref(disk, ino[LAST], u) in owner && owner[Ref(disk, ino[LAST], u)] == (LAST, u)
    {
      DataLogged(disk, ino, alloc, owner, logged, u);
      NewBlock(disk, ino, alloc, owner, logged, u);
    }
    Eleven(logged, Ref(disk, ino[LAST], 12), Ref(disk, ino[LAST], 13), Ref(disk, ino[LAST], 14),
           Ref(disk, ino[LAST], 15),
           Ref(disk, ino[LAST], INDIRECT));
  }

  /** A chunk could not be one byte longer: this write logs more than MAXOPBLOCKS blocks. */
  method OneByteMore() returns (fs: FileSystem, r: Option<int>)
    ensures fresh(fs) && r == Some(CHUNK + 1) && fs.Valid() && |fs.logged| > MAXOPBLOCKS
  {
    hide WorstDisk, WorstOwner, BitsOk, RefsOk, FileOk, WriteNeed, Left, Overwrite, Content, Stay, Bystanders, Noted;
    fs := WorstFileSystem();
    WorstNeed();
    var src: seq<Byte> := seq(CHUNK + 1, k => 9);
    ghost var c0 := Content(fs.disk, fs.ino[LAST]);
    r := fs.Writei(LAST, NDIRECT * BSIZE, src);
    Written(fs.disk, fs.ino[LAST], c0, src);
    AllLogged(fs.disk, fs.ino, fs.alloc, fs.owner, fs.logged);
  }

  lemma Written(disk: Disk, ip: Inode, c0: seq<int>, src: seq<Byte>)
    requires 0 <= ip.size && |c0| == NDIRECT * BSIZE && |src| == CHUNK + 1 && forall k :: 0 <= k < |src| ==> src[k] == 9
    requires Content(disk, ip) == Overwrite(c0, NDIRECT * BSIZE, src)
    ensures ip.size == NDIRECT * BSIZE + CHUNK + 1
    ensures forall k :: NDIRECT * BSIZE <= k < NDIRECT * BSIZE + CHUNK + 1 ==> FileByte(disk, ip, k) == 9
  {
    hide FileByte;
    forall k | NDIRECT * BSIZE <= k < NDIRECT * BSIZE + CHUNK + 1
      ensures FileByte(disk, ip, k) == 9
    {
      assert Content(disk, ip)[k] == FileByte(disk, ip, k);
    }
  }
}
