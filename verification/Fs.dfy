/** Inode content and the block bitmap (kernel/fs.c), and the chunked write of kernel/file.c.

  `disk` is what bread returns: the cached contents of every block. `logged` records
  the blocks passed to log_write. `alloc` and `owner` are the sets the bitmap and the
  inodes describe.
 */
module Fs {
  import opened Common
  import opened FsBlock
  import opened FsRefs

  /** The byte at position k of a file's blocks; 0 where there is no block. */
  ghost function FileByte(disk: Disk, ip: Inode, k: int): int
    requires 0 <= k
  {
    var r := Ref(disk, ip, k / BSIZE);
    if r != 0 && r in disk && |disk[r]| == BSIZE then disk[r][k % BSIZE] else 0
  }

  ghost predicate Mapped(disk: Disk, ip: Inode, s: int) {
    Ref(disk, ip, s) != 0
  }

  /** Every block that holds one of the first n bytes is there. */
  ghost predicate MappedTo(disk: Disk, ip: Inode, n: int) {
    forall s :: 0 <= s < (n + BSIZE - 1) / BSIZE ==> Mapped(disk, ip, s)
  }

  ghost predicate Same(disk: Disk, disk': Disk, x: int) {
    x in disk && x in disk' && disk'[x] == disk[x]
  }

  /** Nothing has changed for inodes other than i and their blocks. */
  ghost predicate Others(sb: Sb, disk: Disk, ino: map<int, Inode>, owner: map<int, (int, int)>,
                         disk': Disk, ino': map<int, Inode>, owner': map<int, (int, int)>, i: int) {
    && ino'.Keys == ino.Keys && (forall j :: j in ino && j != i ==> ino'[j] == ino[j])
    && (forall x :: x in owner && owner[x].0 != i ==> x in owner' && owner'[x] == owner[x] && Same(disk, disk', x))
    && (forall x :: 0 <= x < sb.bmapstart ==> Same(disk, disk', x))
  }

  /** The blocks of a file stay where they are, and only block s may change contents. */
  ghost predicate Stays(disk: Disk, ip: Inode, disk': Disk, ip': Inode, s: int) {
    && ip'.size == ip.size && ip'.kind == ip.kind && ip'.links == ip.links
    && forall u :: 0 <= u < MAXFILE && Mapped(disk, ip, u) ==>
         Ref(disk', ip', u) == Ref(disk, ip, u) && (u != s ==> Same(disk, disk', Ref(disk, ip, u)))
  }

  /** b is the first data block that is not in use. */
  ghost predicate FirstFree(sb: Sb, alloc: set<int>, b: int) {
    sb.nmeta <= b < sb.size && b !in alloc && forall x :: sb.nmeta <= x < b ==> x in alloc
  }

  /** Every block that has changed has been handed to log_write. */
  ghost predicate Noted(sb: Sb, disk: Disk, logged: set<int>, disk': Disk, logged': set<int>) {
    logged <= logged' && forall x :: 0 <= x < sb.size && x !in logged' ==> Same(disk, disk', x)
  }

  lemma NotedTrans(sb: Sb, disk: Disk, logged: set<int>, disk1: Disk, logged1: set<int>, disk2: Disk, logged2: set<int>)
    requires Noted(sb, disk, logged, disk1, logged1) && Noted(sb, disk1, logged1, disk2, logged2)
    ensures Noted(sb, disk, logged, disk2, logged2)
  {
    forall x | 0 <= x < sb.size && x !in logged2
      ensures Same(disk, disk2, x)
    {
      assert Same(disk, disk1, x) && Same(disk1, disk2, x);
    }
  }

  lemma NotedSelf(sb: Sb, disk: Disk, logged: set<int>)
    requires DiskOk(sb, disk)
    ensures Noted(sb, disk, logged, disk, logged)
  {
  }

  lemma SameTrans(sb: Sb, xs: set<int>, disk: Disk, disk1: Disk, disk2: Disk)
    requires forall x :: x in xs || 0 <= x < sb.bmapstart ==> Same(disk, disk1, x)
    requires forall x :: x in xs || 0 <= x < sb.bmapstart ==> Same(disk1, disk2, x)
    ensures forall x :: x in xs || 0 <= x < sb.bmapstart ==> Same(disk, disk2, x)
  {
  }

  lemma OthersKeys(sb: Sb, disk: Disk, ino: map<int, Inode>, owner: map<int, (int, int)>,
                   disk': Disk, ino': map<int, Inode>, owner': map<int, (int, int)>, i: int)
    requires Others(sb, disk, ino, owner, disk', ino', owner', i)
    ensures ino'.Keys == ino.Keys
  {
  }

  lemma OthersTrans(sb: Sb, disk: Disk, ino: map<int, Inode>, owner: map<int, (int, int)>,
                    disk1: Disk, ino1: map<int, Inode>, owner1: map<int, (int, int)>,
                    disk2: Disk, ino2: map<int, Inode>, owner2: map<int, (int, int)>, i: int)
    requires Others(sb, disk, ino, owner, disk1, ino1, owner1, i)
             && Others(sb, disk1, ino1, owner1, disk2, ino2, owner2, i)
    ensures Others(sb, disk, ino, owner, disk2, ino2, owner2, i)
  {
    forall x | x in owner && owner[x].0 != i
      ensures x in owner2 && owner2[x] == owner[x] && Same(disk, disk2, x)
    {
      assert Same(disk, disk1, x) && owner1[x] == owner[x] && Same(disk1, disk2, x);
    }
    forall x | 0 <= x < sb.bmapstart
      ensures Same(disk, disk2, x)
    {
      assert Same(disk, disk1, x) && Same(disk1, disk2, x);
    }
  }

  lemma StaysTrans(disk: Disk, ip: Inode, disk1: Disk, ip1: Inode, disk2: Disk, ip2: Inode, s: int)
    requires Stays(disk, ip, disk1, ip1, -1) && Stays(disk1, ip1, disk2, ip2, s)
    ensures Stays(disk, ip, disk2, ip2, s)
  {
  }

  /** Block off / BSIZE is there and holds `chunk` at off, and what it held before elsewhere. */
  ghost predicate Wrote(disk: Disk, ip: Inode, disk': Disk, ip': Inode, off: int, chunk: seq<Byte>)
    requires 0 <= off
  {
    && Mapped(disk', ip', off / BSIZE)
    && forall k :: 0 <= k && k / BSIZE == off / BSIZE ==>
         FileByte(disk', ip', k) == if off <= k < off + |chunk| then chunk[k - off] else FileByte(disk, ip, k)
  }

  lemma WroteBlock(disk: Disk, ip: Inode, disk1: Disk, disk': Disk, ip': Inode, off: int, chunk: seq<Byte>)
    requires 0 <= off && off % BSIZE + |chunk| <= BSIZE
    requires var r := Ref(disk', ip', off / BSIZE);
             && r != 0 && r in disk1 && |disk1[r]| == BSIZE && r in disk'
                && disk'[r] == Splice(disk1[r], off % BSIZE, chunk)
             && (if Mapped(disk, ip, off / BSIZE) then Ref(disk, ip, off / BSIZE) == r && Same(disk, disk1, r)
                 else disk1[r] == Zeroed())
    ensures Wrote(disk, ip, disk', ip', off, chunk)
  {
    hide Ref;
  }

  // ---------------------------------------------------------------- many blocks

  function Max(a: int, b: int): int { if a < b then b else a }

  /** How many blocks the bytes off..off+n lie in. */
  function Touched(off: int, n: int): int {
    if n <= 0 then 0 else (off + n - 1) / BSIZE - off / BSIZE + 1
  }

  /** The first `tot` bytes of src have replaced those at off; the blocks up to there are mapped. */
  ghost predicate Progress(disk: Disk, ip: Inode, disk': Disk, ip': Inode, off: int, src: seq<Byte>, tot: int)
    requires 0 <= off && 0 <= tot <= |src|
  {
    && ip'.size == ip.size && ip'.kind == ip.kind && ip'.links == ip.links
    && MappedTo(disk', ip', Max(ip.size, off + tot))
    && forall k :: 0 <= k < MAXFILE * BSIZE ==>
         FileByte(disk', ip', k) == if off <= k < off + tot then src[k - off] else FileByte(disk, ip, k)
  }

  lemma ProgressStep(disk: Disk, ip: Inode, disk1: Disk, ip1: Inode, disk2: Disk, ip2: Inode, off: int, src: seq<Byte>,
                     tot: int, m: int)
    requires 0 <= off <= ip.size && 0 <= tot && 0 < m && tot + m <= |src| && (off + tot) % BSIZE + m <= BSIZE
    requires tot == 0 || (off + tot) % BSIZE == 0
    requires off + tot + m <= MAXFILE * BSIZE && ip.size <= MAXFILE * BSIZE
    requires Progress(disk, ip, disk1, ip1, off, src, tot) && Stays(disk1, ip1, disk2, ip2, (off + tot) / BSIZE)
    requires Wrote(disk1, ip1, disk2, ip2, off + tot, src[tot..tot + m])
    requires forall u :: 0 <= u < MAXFILE && u != (off + tot) / BSIZE ==> Ref(disk2, ip2, u) == Ref(disk1, ip1, u)
    ensures Progress(disk, ip, disk2, ip2, off, src, tot + m)
  {
    hide Ref;
    var s := (off + tot) / BSIZE;
    forall u | 0 <= u < (Max(ip.size, off + tot + m) + BSIZE - 1) / BSIZE
      ensures Mapped(disk2, ip2, u)
    {
      if u != s {
        assert Mapped(disk1, ip1, u);
      }
    }
    forall k | 0 <= k < MAXFILE * BSIZE
      ensures FileByte(disk2, ip2, k) == if off <= k < off + tot + m then src[k - off] else FileByte(disk, ip, k)
    {
      ProgressByte(disk, ip, disk1, ip1, disk2, ip2, off, src, tot, m, k);
    }
  }

  lemma ProgressByte(disk: Disk, ip: Inode, disk1: Disk, ip1: Inode, disk2: Disk, ip2: Inode, off: int, src: seq<Byte>,
                     tot: int, m: int, k: int)
    requires 0 <= off <= ip.size && 0 <= tot && 0 < m && tot + m <= |src| && (off + tot) % BSIZE + m <= BSIZE
    requires tot == 0 || (off + tot) % BSIZE == 0
    requires off + tot + m <= MAXFILE * BSIZE && ip.size <= MAXFILE * BSIZE
    requires Progress(disk, ip, disk1, ip1, off, src, tot) && Stays(disk1, ip1, disk2, ip2, (off + tot) / BSIZE)
    requires Wrote(disk1, ip1, disk2, ip2, off + tot, src[tot..tot + m])
    requires forall u :: 0 <= u < MAXFILE && u != (off + tot) / BSIZE ==> Ref(disk2, ip2, u) == Ref(disk1, ip1, u)
    requires 0 <= k < MAXFILE * BSIZE
    ensures FileByte(disk2, ip2, k) == if off <= k < off + tot + m then src[k - off] else FileByte(disk, ip, k)
  {
    hide Ref;
    var s := (off + tot) / BSIZE;
    if off + tot <= k < off + tot + m {
      assert k / BSIZE == s;
      assert src[tot..tot + m][k - (off + tot)] == src[k - off];
    } else {
      assert 0 <= k / BSIZE < MAXFILE;
      assert FileByte(disk2, ip2, k) == FileByte(disk1, ip1, k);
    }
  }

  // ---------------------------------------------------------------- how many blocks a write needs

  /** How many data blocks are free. */
  ghost function Left(sb: Sb, alloc: set<int>): int {
    sb.size - sb.nmeta - |alloc|
  }

  ghost function DataBlocks(lo: int, hi: int): (s: set<int>)
    ensures forall x :: x in s <==> lo <= x < hi
    ensures |s| == Max(hi - lo, 0)
    decreases hi - lo
  {
    if lo >= hi then {} else DataBlocks(lo, hi - 1) + {hi - 1}
  }

  lemma LeftNone(sb: Sb, alloc: set<int>)
    requires sb.nmeta <= sb.size && forall b :: b in alloc ==> sb.nmeta <= b < sb.size
    ensures Left(sb, alloc) >= 0
    ensures Left(sb, alloc) == 0 <==> forall x :: sb.nmeta <= x < sb.size ==> x in alloc
  {
    var all := DataBlocks(sb.nmeta, sb.size);
    assert all == alloc + (all - alloc);
    assert |all - alloc| == Left(sb, alloc);
    if Left(sb, alloc) == 0 {
      assert all - alloc == {};
      assert forall x :: sb.nmeta <= x < sb.size ==> x in all;
    } else {
      var x := Pick(all - alloc);
      assert sb.nmeta <= x < sb.size && x !in alloc;
    }
  }

  lemma LeftInRange(sb: Sb, disk: Disk, alloc: set<int>)
    requires Layout(sb) && DiskOk(sb, disk) && BitsOk(sb, disk, alloc)
    ensures Left(sb, alloc) >= 0
    ensures Left(sb, alloc) == 0 <==> forall x :: sb.nmeta <= x < sb.size ==> x in alloc
  {
    hide Used;
    LeftNone(sb, alloc);
  }

  /** What bmap has to allocate for slot s. */
  ghost function SlotNeed(disk: Disk, ip: Inode, s: int): int
    requires |ip.addrs| == NDIRECT + 1
  {
    if Mapped(disk, ip, s) then 0 else if s >= NDIRECT && ip.addrs[NDIRECT] == 0 then 2 else 1
  }

  ghost function Holes(disk: Disk, ip: Inode, lo: int, hi: int): set<int> {
    set s | lo <= s < hi && !Mapped(disk, ip, s)
  }

  /** What writei has to allocate: the missing blocks of the range, and the indirect block. */
  ghost function WriteNeed(disk: Disk, ip: Inode, lo: int, hi: int): int
    requires |ip.addrs| == NDIRECT + 1
  {
    |Holes(disk, ip, lo, hi)| + if lo < hi && hi > NDIRECT && ip.addrs[NDIRECT] == 0 then 1 else 0
  }

  /** Slots lo up to mid are supplied, the ones after them are as they were. */
  ghost predicate SuppliedTo(disk: Disk, ip: Inode, disk': Disk, ip': Inode, lo: int, mid: int)
    requires |ip.addrs| == NDIRECT + 1 && |ip'.addrs| == NDIRECT + 1
  {
    && (forall s :: mid <= s < MAXFILE ==> (Mapped(disk', ip', s) <==> Mapped(disk, ip, s)))
    && (ip'.addrs[NDIRECT] == 0 <==> ip.addrs[NDIRECT] == 0 && (mid <= lo || mid <= NDIRECT))
  }

  lemma HolesStep(disk: Disk, ip: Inode, lo: int, mid: int)
    requires lo <= mid
    ensures |Holes(disk, ip, lo, mid + 1)| == |Holes(disk, ip, lo, mid)| + if Mapped(disk, ip, mid) then 0 else 1
  {
    var a, b := Holes(disk, ip, lo, mid), Holes(disk, ip, lo, mid + 1);
    assert b == if Mapped(disk, ip, mid) then a else a + {mid};
  }

  lemma NeedStep(disk: Disk, ip: Inode, disk': Disk, ip': Inode, lo: int, mid: int)
    requires 0 <= lo <= mid < MAXFILE && |ip.addrs| == NDIRECT + 1 && |ip'.addrs| == NDIRECT + 1
    requires SuppliedTo(disk, ip, disk', ip', lo, mid)
    ensures WriteNeed(disk, ip, lo, mid + 1) == WriteNeed(disk, ip, lo, mid) + SlotNeed(disk', ip', mid)
  {
    HolesStep(disk, ip, lo, mid);
    if ip.addrs[NDIRECT] == 0 && mid >= NDIRECT {
      NoEntry(disk, ip, mid);
    }
  }

  lemma SupplyStep(disk: Disk, ip: Inode, disk1: Disk, ip1: Inode, disk2: Disk, ip2: Inode, lo: int, mid: int)
    requires 0 <= lo <= mid < MAXFILE && |ip.addrs| == NDIRECT + 1 && |ip1.addrs| == NDIRECT + 1
             && |ip2.addrs| == NDIRECT + 1
    requires SuppliedTo(disk, ip, disk1, ip1, lo, mid)
    requires forall u :: 0 <= u < MAXFILE && u != mid ==> Ref(disk2, ip2, u) == Ref(disk1, ip1, u)
    requires ip2.addrs[NDIRECT] == 0 <==> ip1.addrs[NDIRECT] == 0 && mid < NDIRECT
    ensures SuppliedTo(disk, ip, disk2, ip2, lo, mid + 1)
  {
    hide Ref;
  }

  /** Blocks that are there stay where they are. */
  ghost predicate Stay(disk: Disk, ip: Inode, disk': Disk, ip': Inode) {
    forall u :: 0 <= u < MAXFILE && Mapped(disk, ip, u) ==> Ref(disk', ip', u) == Ref(disk, ip, u)
  }

  /** The blocks for slots lo up to mid have been taken, out of left0 free ones. */
  ghost predicate Covered(disk0: Disk, ip0: Inode, left0: int, disk: Disk, ip: Inode, left: int, lo: int, mid: int) {
    && InodeOk(ip0) && InodeOk(ip) && 0 <= lo <= mid && Stay(disk0, ip0, disk, ip)
    && SuppliedTo(disk0, ip0, disk, ip, lo, mid) && left == left0 - WriteNeed(disk0, ip0, lo, mid)
  }

  lemma CoveredLeft(disk0: Disk, ip0: Inode, left0: int, disk: Disk, ip: Inode, left: int, lo: int, mid: int)
    requires Covered(disk0, ip0, left0, disk, ip, left, lo, mid)
    ensures InodeOk(ip0) && left == left0 - WriteNeed(disk0, ip0, lo, mid) && Stay(disk0, ip0, disk, ip)
  {
  }

  lemma CoveredKept(disk0: Disk, ip0: Inode, left0: int, disk: Disk, ip: Inode, left: int, lo: int, mid: int,
                    disk2: Disk, ip2: Inode)
    requires Covered(disk0, ip0, left0, disk, ip, left, lo, mid) && KeepsFile(disk, ip, disk2, ip2)
    requires InodeOk(ip2) && ip2.addrs == ip.addrs
    ensures Covered(disk0, ip0, left0, disk2, ip2, left, lo, mid)
  {
    hide Ref;
  }

  /** Two writes in a row, the second of which starts in or right after the last block of the first. */
  lemma CoveredMore(disk0: Disk, ip0: Inode, left0: int, disk1: Disk, ip1: Inode, left1: int, lo: int, mid: int,
                    disk2: Disk, ip2: Inode, left2: int, lo2: int, hi: int)
    requires Covered(disk0, ip0, left0, disk1, ip1, left1, lo, mid)
             && Covered(disk1, ip1, left1, disk2, ip2, left2, lo2, hi)
    requires lo <= lo2 <= mid <= hi <= MAXFILE && lo2 < hi && forall s :: lo2 <= s < mid ==> Mapped(disk1, ip1, s)
    ensures Covered(disk0, ip0, left0, disk2, ip2, left2, lo, hi)
  {
    hide Ref;
    NeedMore(disk0, ip0, disk1, ip1, lo, mid, lo2, hi);
  }

  lemma NeedMore(disk0: Disk, ip0: Inode, disk1: Disk, ip1: Inode, lo: int, mid: int, lo2: int, hi: int)
    requires |ip0.addrs| == NDIRECT + 1 && |ip1.addrs| == NDIRECT + 1 && SuppliedTo(disk0, ip0, disk1, ip1, lo, mid)
    requires 0 <= lo <= lo2 <= mid <= hi <= MAXFILE && lo2 < hi && forall s :: lo2 <= s < mid ==> Mapped(disk1, ip1, s)
    ensures WriteNeed(disk0, ip0, lo, hi) == WriteNeed(disk0, ip0, lo, mid) + WriteNeed(disk1, ip1, lo2, hi)
  {
    hide Ref;
    var a, b, d := Holes(disk0, ip0, lo, mid), Holes(disk1, ip1, lo2, hi), Holes(disk0, ip0, lo, hi);
    assert d == a + b && a !! b;
  }

  lemma CoveredNone(disk: Disk, ip: Inode, left: int, lo: int)
    requires InodeOk(ip) && 0 <= lo
    ensures Covered(disk, ip, left, disk, ip, left, lo, lo)
  {
    assert Holes(disk, ip, lo, lo) == {};
  }

  /** Running out on the way means there was not enough for the whole. */
  lemma CoveredShort(disk0: Disk, ip0: Inode, left0: int, disk: Disk, ip: Inode, left: int, lo: int, mid: int, hi: int)
    requires Covered(disk0, ip0, left0, disk, ip, left, lo, mid) && mid < hi <= MAXFILE
             && left < SlotNeed(disk, ip, mid)
    ensures left0 < WriteNeed(disk0, ip0, lo, hi)
  {
    NeedStep(disk0, ip0, disk, ip, lo, mid);
    NeedMonotone(disk0, ip0, lo, mid + 1, hi);
  }

  lemma CoveredStep(disk0: Disk, ip0: Inode, left0: int, disk: Disk, ip: Inode, left: int, lo: int, mid: int,
                    disk2: Disk, ip2: Inode, left2: int)
    requires Covered(disk0, ip0, left0, disk, ip, left, lo, mid) && mid < MAXFILE && InodeOk(ip2)
    requires left2 == left - SlotNeed(disk, ip, mid) && Stays(disk, ip, disk2, ip2, mid)
    requires forall u :: 0 <= u < MAXFILE && u != mid ==> Ref(disk2, ip2, u) == Ref(disk, ip, u)
    requires ip2.addrs[NDIRECT] == 0 <==> ip.addrs[NDIRECT] == 0 && mid < NDIRECT
    ensures Covered(disk0, ip0, left0, disk2, ip2, left2, lo, mid + 1)
  {
    hide Ref;
    NeedStep(disk0, ip0, disk, ip, lo, mid);
    SupplyStep(disk0, ip0, disk, ip, disk2, ip2, lo, mid);
  }

  lemma NeedMonotone(disk: Disk, ip: Inode, lo: int, mid: int, hi: int)
    requires |ip.addrs| == NDIRECT + 1 && mid <= hi
    ensures WriteNeed(disk, ip, lo, mid) <= WriteNeed(disk, ip, lo, hi)
  {
    SubsetCard(Holes(disk, ip, lo, mid), Holes(disk, ip, lo, hi));
  }

  /** Only inode blocks, bitmap blocks and data blocks: none of the log. */
  ghost predicate InArea(sb: Sb, logged: set<int>) {
    forall b :: b in logged ==> sb.inodestart <= b < sb.size
  }

  // ---------------------------------------------------------------- what freeing logs

  /** The bitmap blocks that describe these blocks. */
  ghost function MapsOf(sb: Sb, bs: set<int>): set<int> {
    set b | b in bs :: BBlock(sb, b)
  }

  /** Blocks have been freed, and exactly the bitmap blocks that describe them logged. */
  ghost predicate Released(sb: Sb, alloc: set<int>, logged: set<int>, alloc': set<int>, logged': set<int>) {
    alloc' <= alloc && logged' == logged + MapsOf(sb, alloc - alloc')
  }

  lemma ReleasedNone(sb: Sb, alloc: set<int>, logged: set<int>)
    ensures Released(sb, alloc, logged, alloc, logged)
  {
  }

  lemma ReleasedTrans(sb: Sb, a0: set<int>, l0: set<int>, a1: set<int>, l1: set<int>, a2: set<int>, l2: set<int>)
    requires Released(sb, a0, l0, a1, l1) && Released(sb, a1, l1, a2, l2)
    ensures Released(sb, a0, l0, a2, l2)
  {
    assert a0 - a2 == (a0 - a1) + (a1 - a2);
    assert MapsOf(sb, a0 - a2) == MapsOf(sb, a0 - a1) + MapsOf(sb, a1 - a2);
  }

  /** The blocks of one file, the indirect block among them. */
  ghost function BlocksOf(owner: map<int, (int, int)>, i: int): set<int> {
    set b | b in owner && owner[b].0 == i
  }

  lemma ReleasedFile(sb: Sb, owner: map<int, (int, int)>, owner': map<int, (int, int)>, i: int, logged: set<int>,
                     logged': set<int>)
    requires Released(sb, owner.Keys, logged, owner'.Keys, logged')
    requires forall b :: b in owner' <==> b in owner && owner[b].0 != i
    ensures logged' == logged + MapsOf(sb, BlocksOf(owner, i))
  {
    var gone, mine := owner.Keys - owner'.Keys, BlocksOf(owner, i);
    forall b
      ensures b in gone <==> b in mine
    {
      assert b in owner' <==> b in owner && owner[b].0 != i;
    }
    assert gone == mine;
  }

  /** Truncating a file logs one block for each bitmap block that describes some of its blocks,
      and the inode block; so at most one more than there are bitmap blocks. */
  lemma TruncCount(sb: Sb, owner: map<int, (int, int)>, i: int)
    requires Layout(sb) && 0 <= i < sb.ninodes && forall b :: b in owner ==> sb.nmeta <= b < sb.size
    ensures |MapsOf(sb, BlocksOf(owner, i)) + {IBlock(sb, i)}| == |MapsOf(sb, BlocksOf(owner, i))| + 1
    ensures |MapsOf(sb, BlocksOf(owner, i))| <= (sb.size - 1) / BPB + 1
  {
    var maps := MapsOf(sb, BlocksOf(owner, i));
    InodeBlock(sb, i);
    var all := DataBlocks(sb.bmapstart, sb.bmapstart + (sb.size - 1) / BPB + 1);
    forall x | x in maps
      ensures x in all && x >= sb.bmapstart
    {
      var b :| b in BlocksOf(owner, i) && BBlock(sb, b) == x;
      assert 0 <= b / BPB <= (sb.size - 1) / BPB;
    }
    SubsetCard(maps, all);
  }

  lemma ReleasedOne(sb: Sb, alloc: set<int>, logged: set<int>, b: int)
    requires b in alloc
    ensures Released(sb, alloc, logged, alloc - {b}, logged + {BBlock(sb, b)})
  {
    assert alloc - (alloc - {b}) == {b};
    assert MapsOf(sb, {b}) == {BBlock(sb, b)};
  }

  // ---------------------------------------------------------------- what a write logs

  /** What bmap adds to the log when it has to allocate block r for slot s; x is the
      indirect block now and x0 what it was. */
  ghost function BmapLog(sb: Sb, r: int, s: int, x: int, x0: int): set<int> {
    {BBlock(sb, r), r} + (if s < NDIRECT then {} else if x0 != 0 then {x} else {x, BBlock(sb, x)})
  }

  /** The log so far, split into what is due to data blocks and what is due to the indirect block. */
  datatype Spent = Spent(data: set<int>, indirect: set<int>, bitmap: int)

  /** Data blocks and their bitmap blocks are within n; the indirect block adds itself and one bitmap block. */
  ghost predicate Within(logged: set<int>, e: Spent, x: int, n: int) {
    Split(logged, e, x) && |e.data| <= n
  }

  ghost predicate Split(logged: set<int>, e: Spent, x: int) {
    && logged == e.data + e.indirect
    && e.indirect <= (if x == 0 then {} else {x, e.bitmap})
  }

  lemma WithinMore(logged: set<int>, e: Spent, x: int, n: int, n': int)
    requires Within(logged, e, x, n) && n <= n'
    ensures Within(logged, e, x, n')
  {
  }

  lemma WroteHasIndirect(disk: Disk, ip: Inode, disk': Disk, ip': Inode, off: int, chunk: seq<Byte>)
    requires 0 <= off && off / BSIZE < MAXFILE && |ip'.addrs| == NDIRECT + 1 && Wrote(disk, ip, disk', ip', off, chunk)
    ensures off / BSIZE >= NDIRECT ==> ip'.addrs[NDIRECT] != 0
  {
  }

  lemma UnionCard(a: set<int>, b: set<int>)
    ensures |a + b| <= |a| + |b|
  {
  }

  ghost function Spend(sb: Sb, e: Spent, r: int, s: int, mapped: bool, x: int, x0: int): Spent {
    if mapped then e.(data := e.data + {r})
    else if s < NDIRECT then e.(data := e.data + {r, BBlock(sb, r)})
    else if x0 != 0 then e.(data := e.data + {r, BBlock(sb, r)}, indirect := e.indirect + {x})
    else Spent(e.data + {r, BBlock(sb, r)}, {x, BBlock(sb, x)}, BBlock(sb, x))
  }

  lemma SpendStep(sb: Sb, logged: set<int>, e: Spent, r: int, s: int, mapped: bool, x: int, x0: int, n: int,
                  logged': set<int>)
    requires Within(logged, e, x0, n) && (x0 != 0 ==> x == x0) && (!mapped && s >= NDIRECT ==> x != 0)
    requires logged' == logged + (if mapped then {} else BmapLog(sb, r, s, x, x0)) + {r}
    ensures Within(logged', Spend(sb, e, r, s, mapped, x, x0), x, n + if mapped then 1 else 2)
  {
    hide Spend, Split, BmapLog;
    SpendCount(sb, e, r, s, mapped, x, x0);
    if mapped {
      SpendMapped(sb, logged, e, r, s, x, x0);
    } else {
      SpendNew(sb, logged, e, r, s, x, x0, BmapLog(sb, r, s, x, x0));
      assert logged' == logged + BmapLog(sb, r, s, x, x0) + {r};
    }
  }

  lemma SpendMapped(sb: Sb, logged: set<int>, e: Spent, r: int, s: int, x: int, x0: int)
    requires Split(logged, e, x0) && (x0 != 0 ==> x == x0)
    ensures Split(logged + {} + {r}, Spend(sb, e, r, s, true, x, x0), x)
  {
  }

  lemma SpendNew(sb: Sb, logged: set<int>, e: Spent, r: int, s: int, x: int, x0: int, more: set<int>)
    requires Split(logged, e, x0) && (x0 != 0 ==> x == x0) && (s >= NDIRECT ==> x != 0)
             && more == BmapLog(sb, r, s, x, x0)
    ensures Split(logged + more + {r}, Spend(sb, e, r, s, false, x, x0), x)
  {
  }

  lemma SpendCount(sb: Sb, e: Spent, r: int, s: int, mapped: bool, x: int, x0: int)
    ensures |Spend(sb, e, r, s, mapped, x, x0).data| <= |e.data| + if mapped then 1 else 2
  {
  }

  lemma Two(a: int, b: int)
    ensures |{a}| == 1 && |{a, b}| <= 2
  {
  }

  /** Data blocks, their bitmap blocks, the indirect block and its bitmap block. */
  lemma WithinTotal(logged: set<int>, e: Spent, x: int, n: int)
    requires Within(logged, e, x, n)
    ensures |logged| <= n + if e.indirect == {} then 0 else 2
  {
    UnionCard(e.data, e.indirect);
    Two(x, e.bitmap);
    SubsetCard(e.indirect, {x, e.bitmap});
  }

  /** Two per block, one for a first block that must be there already. */
  function LoopCost(off: int, n: int): int {
    2 * Touched(off, n) - if n > 0 && off % BSIZE != 0 then 1 else 0
  }

  lemma CostStep(disk: Disk, ip: Inode, size: int, off: int, tot: int, m: int)
    requires 0 <= off <= size && 0 <= tot && 0 < m && (off + tot) % BSIZE + m <= BSIZE
    requires tot == 0 || (off + tot) % BSIZE == 0
    requires MappedTo(disk, ip, Max(size, off + tot))
    ensures LoopCost(off, tot) + (if Mapped(disk, ip, (off + tot) / BSIZE) then 1 else 2) <= LoopCost(off, tot + m)
  {
  }

  lemma Turn(off: int, tot: int, n: int, m: int)
    requires 0 <= off && 0 <= tot < n && m == Min(n - tot, BSIZE - (off + tot) % BSIZE)
    ensures 0 < m && (off + tot) % BSIZE + m <= BSIZE && tot + m <= n
    ensures tot + m == n || (off + tot + m) % BSIZE == 0
    ensures (off + tot + m - 1) / BSIZE == (off + tot) / BSIZE
    ensures tot + m < n ==> (off + tot + m) / BSIZE == (off + tot) / BSIZE + 1
  {
  }

  function Min(a: int, b: int): int { if a < b then a else b }

  // ---------------------------------------------------------------- whole files

  /** The bytes of a file. */
  ghost function Content(disk: Disk, ip: Inode): (c: seq<int>)
    requires 0 <= ip.size
    ensures |c| == ip.size && forall k :: 0 <= k < ip.size ==> c[k] == FileByte(disk, ip, k)
  {
    seq(ip.size, k requires 0 <= k < ip.size => FileByte(disk, ip, k))
  }

  /** c with the bytes at off replaced by those of src, longer if need be. */
  ghost function Overwrite(c: seq<int>, off: int, src: seq<Byte>): (c': seq<int>)
    requires 0 <= off <= |c|
  {
    c[..off] + src + if off + |src| <= |c| then c[off + |src|..] else []
  }

  /** Word w of the disk form of an inode. */
  function DiskWord(ip: Inode, w: int): int
    requires |ip.addrs| == NDIRECT + 1 && 0 <= w < 16
  {
    if w == 0 then ip.kind else if w == 1 then ip.links else if w == 2 then ip.size else ip.addrs[w - 3]
  }

  /** The inode block holds this inode. */
  ghost predicate Saved(sb: Sb, disk: Disk, ip: Inode, i: int) {
    && 0 <= i && |ip.addrs| == NDIRECT + 1 && IBlock(sb, i) in disk && |disk[IBlock(sb, i)]| == BSIZE
    && forall w :: 0 <= w < 16 ==> Word(disk[IBlock(sb, i)], i % IPB * 16 + w) == DiskWord(ip, w)
  }

  ghost predicate FileOk(sb: Sb, disk: Disk, ip: Inode, i: int) {
    MappedTo(disk, ip, ip.size) && Saved(sb, disk, ip, i)
  }

  /** The same blocks with the same contents. */
  ghost predicate KeepsFile(disk: Disk, ip: Inode, disk': Disk, ip': Inode) {
    forall u :: 0 <= u < MAXFILE ==>
      Ref(disk', ip', u) == Ref(disk, ip, u) && (Mapped(disk, ip, u) ==> Same(disk, disk', Ref(disk, ip, u)))
  }

  lemma KeepsBytes(disk: Disk, ip: Inode, disk': Disk, ip': Inode, n: int)
    requires KeepsFile(disk, ip, disk', ip') && MappedTo(disk, ip, n) && n <= MAXFILE * BSIZE
    ensures MappedTo(disk', ip', n)
    ensures forall k :: 0 <= k < MAXFILE * BSIZE ==> FileByte(disk', ip', k) == FileByte(disk, ip, k)
  {
    hide Ref;
    forall k | 0 <= k < MAXFILE * BSIZE
      ensures FileByte(disk', ip', k) == FileByte(disk, ip, k)
    {
      assert 0 <= k / BSIZE < MAXFILE;
    }
  }

  /** In all the blocks of a file, also beyond its end, the bytes at off are those of src and the
      others are what they were. */
  ghost predicate Patched(disk: Disk, ip: Inode, disk': Disk, ip': Inode, off: int, src: seq<Byte>)
    requires 0 <= off
  {
    forall k :: 0 <= k < MAXFILE * BSIZE ==>
      FileByte(disk', ip', k) == if off <= k < off + |src| then src[k - off] else FileByte(disk, ip, k)
  }

  /** What happens to inode i does not touch file j. */
  lemma OthersKeep(sb: Sb, disk: Disk, ino: map<int, Inode>, owner: map<int, (int, int)>,
                   disk': Disk, ino': map<int, Inode>, owner': map<int, (int, int)>, i: int, j: int)
    requires Layout(sb) && DiskOk(sb, disk) && InodesOk(sb, ino) && RefsOk(sb, disk, ino, owner)
    requires Others(sb, disk, ino, owner, disk', ino', owner', i) && j in ino && j != i
    ensures KeepsFile(disk, ino[j], disk', ino'[j])
    ensures Saved(sb, disk, ino[j], j) ==> Saved(sb, disk', ino'[j], j)
  {
    hide Ref, RefsOk, Word;
    IndirectRef(disk, ino[j]);
    RefOk(sb, disk, ino, owner, j, INDIRECT);
    forall u | 0 <= u < MAXFILE
      ensures Ref(disk', ino[j], u) == Ref(disk, ino[j], u)
              && (Mapped(disk, ino[j], u) ==> Same(disk, disk', Ref(disk, ino[j], u)))
    {
      RefFrame(disk, disk', ino[j], u);
      RefOk(sb, disk, ino, owner, j, u);
    }
    assert 0 <= IBlock(sb, j) < sb.bmapstart;
    assert Same(disk, disk', IBlock(sb, j));
  }

  lemma InodeBlock(sb: Sb, i: int)
    requires Layout(sb) && 0 <= i < sb.ninodes
    ensures sb.inodestart <= IBlock(sb, i) < sb.bmapstart && 0 <= i % IPB * 16 && i % IPB * 16 + 16 <= NWORDS
  {
  }

  lemma SizeRef(disk: Disk, ip: Inode, size: int, s: int)
    ensures Ref(disk, ip.(size := size), s) == Ref(disk, ip, s)
  {
  }

  /** References do not depend on the size field. */
  lemma SizeChange(sb: Sb, disk: Disk, ino: map<int, Inode>, owner: map<int, (int, int)>, i: int, size: int)
    requires RefsOk(sb, disk, ino, owner) && i in ino
    ensures RefsOk(sb, disk, ino[i := ino[i].(size := size)], owner)
  {
    hide Ref;
    var ino' := ino[i := ino[i].(size := size)];
    forall j, s | j in ino' && 0 <= s <= INDIRECT
      ensures SlotOk(sb, disk, ino'[j], owner, j, s)
    {
      SizeRef(disk, ino[i], size, s);
      assert SlotOk(sb, disk, ino[j], owner, j, s);
    }
    forall b | b in owner
      ensures OwnerOk(sb, disk, ino', owner, b)
    {
      SizeRef(disk, ino[i], size, owner[b].1);
      assert OwnerOk(sb, disk, ino, owner, b);
    }
  }

  /** The indirect block and its bitmap block, for a write that goes past the direct blocks. */
  function IndirectCost(off: int, n: int): int {
    if off + n > NDIRECT * BSIZE then 2 else 0
  }

  /** A bound on the blocks writei logs: the loop's, those for the indirect block, and the inode block. */
  function WriteCost(off: int, n: int): int {
    LoopCost(off, n) + if n > 0 then IndirectCost(off, n) + 1 else 0
  }

  lemma Nothing(disk: Disk, ip: Inode)
    ensures MappedTo(disk, ip, 0)
  {
  }

  lemma OverwriteNone(c: seq<int>, off: int, src: seq<Byte>)
    requires 0 <= off <= |c| && src == []
    ensures Overwrite(c, off, src) == c
  {
  }

  lemma FinishedMine(disk0: Disk, ip0: Inode, disk1: Disk, ip1: Inode, disk: Disk, ip: Inode, off: int, src: seq<Byte>)
    requires 0 <= off <= ip0.size && ip0.size <= MAXFILE * BSIZE && off + |src| <= MAXFILE * BSIZE
    requires Progress(disk0, ip0, disk1, ip1, off, src, |src|)
    requires ip.size == Max(ip1.size, off + |src|) && KeepsFile(disk1, ip1, disk, ip)
    ensures MappedTo(disk, ip, ip.size) && Patched(disk0, ip0, disk, ip, off, src)
    ensures Content(disk, ip) == Overwrite(Content(disk0, ip0), off, src)
  {
    hide Ref, KeepsFile, FileByte, MappedTo;
    KeepsBytes(disk1, ip1, disk, ip, ip.size);
    var c := Overwrite(Content(disk0, ip0), off, src);
    assert |c| == ip.size;
    forall k | 0 <= k < ip.size
      ensures Content(disk, ip)[k] == c[k]
    {
      assert FileByte(disk, ip, k) == FileByte(disk1, ip1, k);
    }
  }

  lemma FinishedOther(sb: Sb, disk0: Disk, ino0: map<int, Inode>, owner0: map<int, (int, int)>,
                      disk1: Disk, ino1: map<int, Inode>, owner1: map<int, (int, int)>, disk: Disk,
                          ino: map<int, Inode>, i: int, j: int)
    requires Layout(sb) && DiskOk(sb, disk0) && InodesOk(sb, ino0) && RefsOk(sb, disk0, ino0, owner0)
    requires Others(sb, disk0, ino0, owner0, disk1, ino1, owner1, i) && j in ino0 && j in ino && j != i
    requires FileOk(sb, disk0, ino0[j], j) && j in ino1 && ino[j] == ino1[j]
    requires KeepsFile(disk1, ino1[j], disk, ino[j]) && (Saved(sb, disk1, ino[j], j) ==> Saved(sb, disk, ino[j], j))
    ensures ino[j] == ino0[j] && Content(disk, ino[j]) == Content(disk0, ino0[j]) && FileOk(sb, disk, ino[j], j)
  {
    hide Ref, RefsOk, KeepsFile, FileByte, Saved, MappedTo;
    OthersKeep(sb, disk0, ino0, owner0, disk1, ino1, owner1, i, j);
    assert InodeOk(ino0[j]);
    KeepsBytes(disk0, ino0[j], disk1, ino1[j], ino0[j].size);
    KeepsBytes(disk1, ino1[j], disk, ino[j], ino0[j].size);
  }

  /** Blocks of other files stay what and whose they are. */
  ghost predicate Bystanders(disk: Disk, owner: map<int, (int, int)>, disk': Disk, owner': map<int, (int, int)>,
                             i: int) {
    forall x :: x in owner && owner[x].0 != i ==> x in owner' && owner'[x] == owner[x] && Same(disk, disk', x)
  }

  lemma Finished(sb: Sb, disk0: Disk, ino0: map<int, Inode>, owner0: map<int, (int, int)>,
                 disk1: Disk, ino1: map<int, Inode>, owner1: map<int, (int, int)>, disk: Disk, ip: Inode, i: int)
    requires Others(sb, disk0, ino0, owner0, disk1, ino1, owner1, i) && i in ino0 && i in ino1
    requires Stay(disk0, ino0[i], disk1, ino1[i]) && KeepsFile(disk1, ino1[i], disk, ip)
    requires forall x :: x in owner1 ==> Same(disk1, disk, x)
    ensures Stay(disk0, ino0[i], disk, ip) && Bystanders(disk0, owner0, disk, owner1, i)
  {
    hide Ref;
    forall x | x in owner0 && owner0[x].0 != i
      ensures x in owner1 && owner1[x] == owner0[x] && Same(disk0, disk, x)
    {
      assert Same(disk0, disk1, x) && Same(disk1, disk, x);
    }
  }

  /** The part of a file that lies in one block. */
  lemma Piece(disk: Disk, ip: Inode, off: int, m: int)
    requires 0 <= off && 0 <= m && off + m <= ip.size && off % BSIZE + m <= BSIZE
    requires var r := Ref(disk, ip, off / BSIZE); r != 0 && r in disk && |disk[r]| == BSIZE
    ensures disk[Ref(disk, ip, off / BSIZE)][off % BSIZE..off % BSIZE + m] == Content(disk, ip)[off..off + m]
  {
    hide Ref;
    var part := disk[Ref(disk, ip, off / BSIZE)][off % BSIZE..off % BSIZE + m];
    var whole := Content(disk, ip)[off..off + m];
    forall k | 0 <= k < m
      ensures part[k] == whole[k]
    {
      assert (off + k) / BSIZE == off / BSIZE && (off + k) % BSIZE == off % BSIZE + k;
      assert Content(disk, ip)[off + k] == FileByte(disk, ip, off + k);
    }
  }

  class FileSystem {
    const sb: Sb
    var disk: Disk
    var ino: map<int, Inode>
    ghost var alloc: set<int>
    ghost var owner: map<int, (int, int)>
    ghost var logged: set<int>

    ghost predicate Shape()
      reads this
    {
      Layout(sb) && DiskOk(sb, disk) && InodesOk(sb, ino)
    }

    /** Bitmap and references agree. */
    ghost predicate Agree()
      reads this
    {
      Shape() && BitsOk(sb, disk, alloc) && RefsOk(sb, disk, ino, owner) && owner.Keys == alloc
    }

    /** Bitmap and references agree, no file has a hole, and the inode blocks are up to date. */
    ghost predicate Valid()
      reads this
    {
      Agree() && forall i :: i in ino ==> FileOk(sb, disk, ino[i], i)
    }

    /** The state after a boot: a disk whose bitmap marks the blocks its inodes refer to. */
    constructor (sb: Sb, disk: Disk, ino: map<int, Inode>, ghost owner: map<int, (int, int)>)
      requires Layout(sb) && DiskOk(sb, disk) && InodesOk(sb, ino)
      requires BitsOk(sb, disk, owner.Keys) && RefsOk(sb, disk, ino, owner)
      requires forall i :: i in ino ==> FileOk(sb, disk, ino[i], i)
      ensures Valid() && this.sb == sb && this.disk == disk && this.ino == ino
      ensures alloc == owner.Keys && this.owner == owner && logged == {}
    {
      this.sb, this.disk, this.ino, this.owner := sb, disk, ino, owner;
      alloc, logged := owner.Keys, {};
    }

    // -------------------------------------------------------------- balloc and bfree

    method Bzero(b: int)
      requires Layout(sb) && DiskOk(sb, disk) && sb.nmeta <= b < sb.size && BitsOk(sb, disk, alloc)
      modifies this`disk, this`logged
      ensures disk == old(disk)[b := Zeroed()] && logged == old(logged) + {b}
      ensures DiskOk(sb, disk) && BitsOk(sb, disk, alloc)
    {
      hide BitsOk, Zeroed;
      disk := disk[b := Zeroed()];
      BitsFrame(sb, old(disk), disk, alloc);
      logged := logged + {b};
    }

    /** balloc: the first free block, marked and zeroed; None is the panic, and then no block is free. */
    method Balloc() returns (r: Option<int>)
      requires Layout(sb) && DiskOk(sb, disk) && BitsOk(sb, disk, alloc)
      modifies this`disk, this`alloc, this`logged
      ensures DiskOk(sb, disk) && BitsOk(sb, disk, alloc)
      ensures r.None? <==> Left(sb, old(alloc)) == 0
      ensures Left(sb, alloc) == Left(sb, old(alloc)) - (if r.Some? then 1 else 0) >= 0
      ensures r.None? ==> disk == old(disk) && alloc == old(alloc) && logged == old(logged)
                          && forall x :: 0 <= x < sb.size ==> x < sb.nmeta || x in alloc
      ensures r.Some? ==> var b := r.value;
                          && FirstFree(sb, old(alloc), b) && alloc == old(alloc) + {b}
                          && b in disk && disk[b] == Zeroed()
                          && (forall x :: 0 <= x < sb.size && x != b && x != BBlock(sb, b) ==> Same(old(disk), disk, x))
                          && logged == old(logged) + {BBlock(sb, b), b}
    {
      hide BitsOk, Zeroed;
      LeftInRange(sb, disk, alloc);
      r := FindFree();
      if r.Some? {
        MarkAndZero(r.value);
      }
    }

    /** balloc's search of the bitmap. */
    method FindFree() returns (r: Option<int>)
      requires Layout(sb) && DiskOk(sb, disk) && BitsOk(sb, disk, alloc)
      ensures r.None? ==> forall x :: 0 <= x < sb.size ==> x < sb.nmeta || x in alloc
      ensures r.Some? ==> && 0 <= r.value < sb.size && !Used(sb, disk, r.value)
                          && forall x :: sb.nmeta <= x < r.value ==> x in alloc
    {
      hide BitOf, Used, BBlock, Layout, DiskOk;
      Positive();
      var b := 0;
      while b < sb.size
        invariant 0 <= b && b % BPB == 0
        invariant forall x :: 0 <= x < b && x < sb.size ==> x < sb.nmeta || x in alloc
      {
        BitAt(sb, disk, b, 0);
        var bp := disk[BBlock(sb, b)];
        var bi := 0;
        while bi < BPB && b + bi < sb.size
          invariant 0 <= bi <= BPB && (bi == 0 || b + bi <= sb.size)
          invariant forall x :: 0 <= x < b + bi && x < sb.size ==> x < sb.nmeta || x in alloc
        {
          BitAt(sb, disk, b, bi);
          if !BitOf(bp, bi) {
            return Some(b + bi);
          }
          bi := bi + 1;
        }
        b := b + BPB;
      }
      r := None;
    }

    method MarkAndZero(b: int)
      requires Layout(sb) && DiskOk(sb, disk) && BitsOk(sb, disk, alloc) && 0 <= b < sb.size && !Used(sb, disk, b)
      modifies this`disk, this`alloc, this`logged
      ensures DiskOk(sb, disk) && BitsOk(sb, disk, alloc)
      ensures sb.nmeta <= b && b !in old(alloc) && alloc == old(alloc) + {b} && disk[b] == Zeroed()
      ensures forall x :: 0 <= x < sb.size && x != b && x != BBlock(sb, b) ==> Same(old(disk), disk, x)
      ensures logged == old(logged) + {BBlock(sb, b), b}
    {
      hide BitOf, Zeroed;
      BitmapBelow(sb, b);
      var d := SetBit(disk[BBlock(sb, b)], b % BPB);
      MarkOk(sb, disk, alloc, b, d);
      disk := disk[BBlock(sb, b) := d];
      alloc := alloc + {b};
      logged := logged + {BBlock(sb, b)};
      Bzero(b);
    }

    /** bfree: the panic on a free block cannot happen for an allocated one. */
    method Bfree(b: int)
      requires Layout(sb) && DiskOk(sb, disk) && BitsOk(sb, disk, alloc) && b in alloc
      modifies this`disk, this`alloc, this`logged
      ensures DiskOk(sb, disk) && BitsOk(sb, disk, alloc) && alloc == old(alloc) - {b}
      ensures logged == old(logged) + {BBlock(sb, b)} && Released(sb, old(alloc), old(logged), alloc, logged)
      ensures forall x :: 0 <= x < sb.size && x != BBlock(sb, b) ==> Same(old(disk), disk, x)
    {
      hide BitOf, MapsOf;
      ReleasedOne(sb, alloc, logged, b);
      BitmapBelow(sb, b);
      var bp := disk[BBlock(sb, b)];
      assert Used(sb, disk, b);  // panic("freeing free block")
      var d := ClearBit(bp, b % BPB);
      UnmarkOk(sb, disk, alloc, b, d);
      disk := disk[BBlock(sb, b) := d];
      alloc := alloc - {b};
      logged := logged + {BBlock(sb, b)};
    }

    // -------------------------------------------------------------- bmap

    /** No data block is left: balloc has called panic. */
    ghost predicate Full()
      reads this
    {
      forall x :: sb.nmeta <= x < sb.size ==> x in alloc
    }

    /** A newly allocated block belongs to nobody. */
    lemma Unowned(b: int, disk0: Disk, alloc0: set<int>)
      requires Layout(sb) && DiskOk(sb, disk0) && DiskOk(sb, disk) && InodesOk(sb, ino) && BitsOk(sb, disk0, alloc0)
      requires RefsOk(sb, disk0, ino, owner) && owner.Keys == alloc0 && b !in alloc0 && sb.nmeta <= b < sb.size
      requires forall x :: 0 <= x < sb.size && x != b && x != BBlock(sb, b) ==> Same(disk0, disk, x)
      ensures RefsOk(sb, disk, ino, owner)
      ensures forall j, s :: j in ino && 0 <= s <= INDIRECT ==> Ref(disk, ino[j], s) == Ref(disk0, ino[j], s)
      ensures forall x :: x in owner ==> Same(disk0, disk, x)
      ensures forall x :: 0 <= x < sb.bmapstart ==> Same(disk0, disk, x)
    {
      hide RefsOk, Ref, Used;
      BitmapBelow(sb, b);
      forall x | x in owner
        ensures Same(disk0, disk, x)
      {
        assert x in alloc0;
      }
      RefsFrame(sb, disk0, disk, ino, owner);
    }

    /** The block in a slot of the inode itself, allocated if there is none. */
    method Slot(i: int, s: int) returns (r: Option<int>)
      requires Agree() && i in ino && (0 <= s < NDIRECT || s == INDIRECT)
      modifies this
      ensures r.None? <==> !Mapped(old(disk), old(ino)[i], s) && Left(sb, old(alloc)) == 0
      ensures r.Some? ==> Left(sb, alloc) == Left(sb, old(alloc)) - (if Mapped(old(disk), old(ino)[i], s) then 0 else 1)
      ensures r.None? ==> Full() && !Mapped(old(disk), old(ino)[i], s)
      ensures r.Some? ==> && Agree() && i in ino && r.value == Ref(disk, ino[i], s) != 0
                          && Others(sb, old(disk), old(ino), old(owner), disk, ino, owner, i)
                          && ino[i].size == old(ino)[i].size && ino[i].kind == old(ino)[i].kind
                             && ino[i].links == old(ino)[i].links
                          && (forall u :: 0 <= u <= INDIRECT && u != s ==>
                                            Ref(disk, ino[i], u) == Ref(old(disk), old(ino)[i], u))
                          && (forall x :: x in old(owner) ==> x in owner && Same(old(disk), disk, x))
                          && Noted(sb, old(disk), old(logged), disk, logged)
                          && if Mapped(old(disk), old(ino)[i], s)
                             then disk == old(disk) && ino == old(ino) && alloc == old(alloc) && owner == old(owner)
                                 && logged == old(logged)
                             else r.value in disk && disk[r.value] == Zeroed() && FirstFree(sb, old(alloc), r.value)
                                  && alloc == old(alloc) + {r.value} && r.value !in old(owner)
                                  && logged == old(logged) + {BBlock(sb, r.value), r.value}
    {
      hide RefsOk, BitsOk, Ref, Zeroed, Layout;
      if s == INDIRECT {
        IndirectRef(disk, ino[i]);
      } else {
        DirectRef(disk, ino[i], s);
      }
      SameSelf();
      Positive();
      NotedSelf(sb, disk, logged);
      var addr := ino[i].addrs[if s == INDIRECT then NDIRECT else s];
      if addr != 0 {
        return Some(addr);
      }
      r := Balloc();
      if r.None? {
        return;
      }
      Unowned(r.value, old(disk), old(alloc));
      GiveDirect(sb, disk, ino, owner, i, s, r.value);
      ino := ino[i := Given(ino[i], s, r.value)];
      owner := owner[r.value := (i, s)];
    }

    /** The block in an entry of the indirect block x, allocated if there is none. */
    method Entry(i: int, s: int, x: int) returns (r: Option<int>)
      requires Agree() && i in ino && NDIRECT <= s < MAXFILE && x == ino[i].addrs[NDIRECT] != 0
      modifies this
      ensures r.None? <==> !Mapped(old(disk), old(ino)[i], s) && Left(sb, old(alloc)) == 0
      ensures r.Some? ==> Left(sb, alloc) == Left(sb, old(alloc)) - (if Mapped(old(disk), old(ino)[i], s) then 0 else 1)
      ensures r.None? ==> Full() && !Mapped(old(disk), old(ino)[i], s)
      ensures r.Some? ==> && Agree() && ino == old(ino) && r.value == Ref(disk, ino[i], s) != 0
                          && Others(sb, old(disk), old(ino), old(owner), disk, ino, owner, i)
                          && (forall u :: 0 <= u <= INDIRECT && u != s ==>
                                            Ref(disk, ino[i], u) == Ref(old(disk), ino[i], u))
                          && (forall y :: y in old(owner) && y != x ==> Same(old(disk), disk, y))
                          && Noted(sb, old(disk), old(logged), disk, logged)
                          && if Mapped(old(disk), old(ino)[i], s)
                             then disk == old(disk) && alloc == old(alloc) && owner == old(owner)
                                 && logged == old(logged)
                             else r.value in disk && disk[r.value] == Zeroed() && FirstFree(sb, old(alloc), r.value)
                                  && alloc == old(alloc) + {r.value}
                                  && logged == old(logged) + {BBlock(sb, r.value), r.value} + {x}
    {
      hide RefsOk, BitsOk, Ref, Zeroed, Layout, Word, SetWord;
      IndirectRef(disk, ino[i]);
      RefOk(sb, disk, ino, owner, i, INDIRECT);
      SameSelf();
      Positive();
      EntryOf(disk, ino[i], s);
      NotedSelf(sb, disk, logged);
      var addr := Word(disk[x], s - NDIRECT);
      if addr != 0 {
        return Some(addr);
      }
      r := Balloc();
      if r.None? {
        return;
      }
      Unowned(r.value, old(disk), old(alloc));
      ghost var disk1, logged1 := disk, logged;
      Link(i, s, x, r.value);
      NotedTrans(sb, old(disk), old(logged), disk1, logged1, disk, logged);
      forall y | Same(old(disk), disk1, y) && Same(disk1, disk, y)
        ensures Same(old(disk), disk, y)
      {
      }
      assert forall y :: 0 <= y < sb.bmapstart ==> Same(old(disk), disk1, y) && Same(disk1, disk, y);
      assert forall y :: y in old(owner) && y != x ==> Same(old(disk), disk1, y) && Same(disk1, disk, y);
    }

    /** Store a fresh block b in entry s of the indirect block x. */
    method Link(i: int, s: int, x: int, b: int)
      requires Shape() && BitsOk(sb, disk, alloc) && RefsOk(sb, disk, ino, owner) && b !in owner
               && owner.Keys + {b} == alloc
      requires i in ino && NDIRECT <= s < MAXFILE && x == ino[i].addrs[NDIRECT] != 0 && Ref(disk, ino[i], s) == 0
      modifies this`disk, this`owner, this`logged
      ensures Agree() && owner == old(owner)[b := (i, s)] && logged == old(logged) + {x}
      ensures x in old(owner) && old(owner)[x] == (i, INDIRECT) && x != b
      ensures forall u :: 0 <= u <= INDIRECT ==> Ref(disk, ino[i], u) == if u == s then b else Ref(old(disk), ino[i], u)
      ensures forall y :: y in old(owner) && y != x ==> Same(old(disk), disk, y)
      ensures forall y :: 0 <= y < sb.bmapstart ==> Same(old(disk), disk, y)
      ensures Same(old(disk), disk, b) && Noted(sb, old(disk), old(logged), disk, logged)
    {
      hide RefsOk, Ref, SetWord, Used;
      assert b in alloc && forall y :: y in owner ==> y in alloc;
      IndirectRef(disk, ino[i]);
      RefOk(sb, disk, ino, owner, i, INDIRECT);
      GiveIndirect(sb, disk, ino, owner, i, s, b, x);
      disk := disk[x := SetWord(disk[x], s - NDIRECT, b)];
      owner := owner[b := (i, s)];
      BitsFrame(sb, old(disk), disk, alloc);
      logged := logged + {x};
    }

    /** bmap: the s-th block of the file, allocated if there is none. No block of any file
        moves or changes contents, apart from the indirect block. */
    method Bmap(i: int, s: int) returns (r: Option<int>)
      requires Agree() && i in ino && 0 <= s < MAXFILE  // panic("bmap: out of range")
      modifies this
      ensures InodeOk(old(ino)[i]) && (r.None? <==> Left(sb, old(alloc)) < SlotNeed(old(disk), old(ino)[i], s))
      ensures r.Some? ==> && i in ino && InodeOk(ino[i])
                          && Left(sb, alloc) == Left(sb, old(alloc)) - SlotNeed(old(disk), old(ino)[i], s)
                          && (ino[i].addrs[NDIRECT] == 0 <==> old(ino)[i].addrs[NDIRECT] == 0 && s < NDIRECT)
      ensures r.None? ==> Full() && !Mapped(old(disk), old(ino)[i], s)
      ensures r.Some? ==> && Agree() && i in ino && r.value == Ref(disk, ino[i], s) != 0
                          && Others(sb, old(disk), old(ino), old(owner), disk, ino, owner, i)
                          && Stays(old(disk), old(ino)[i], disk, ino[i], -1)
                             && Noted(sb, old(disk), old(logged), disk, logged)
                          && (forall u :: 0 <= u < MAXFILE && u != s ==>
                                            Ref(disk, ino[i], u) == Ref(old(disk), old(ino)[i], u))
                          && (old(ino)[i].addrs[NDIRECT] != 0 ==> ino[i].addrs[NDIRECT] == old(ino)[i].addrs[NDIRECT])
                          && if Mapped(old(disk), old(ino)[i], s)
                             then disk == old(disk) && ino == old(ino) && alloc == old(alloc) && owner == old(owner)
                                 && logged == old(logged)
                             else logged == old(logged) +
                                            BmapLog(sb, r.value, s, ino[i].addrs[NDIRECT], old(ino)[i].addrs[NDIRECT])
      ensures r.Some? && !Mapped(old(disk), old(ino)[i], s) ==>
                && r.value in disk && disk[r.value] == Zeroed()
                && var x := ino[i].addrs[NDIRECT];
                   if s < NDIRECT || old(ino)[i].addrs[NDIRECT] != 0 then
                     FirstFree(sb, old(alloc), r.value) && alloc == old(alloc) + {r.value}
                   else
                     && FirstFree(sb, old(alloc), x) && FirstFree(sb, old(alloc) + {x}, r.value)
                     && alloc == old(alloc) + {x} + {r.value}
    {
      hide RefsOk, BitsOk, Ref, Zeroed, Layout, FirstFree, Others, Noted, Left, BBlock, Stays;
      LeftInRange(sb, disk, alloc);
      IndirectRef(disk, ino[i]);
      if s < NDIRECT {
        r := Slot(i, s);
        if r.Some? {
          IndirectRef(disk, ino[i]);
          KeepsData(old(disk), old(ino), old(owner), i, s);
        }
        return;
      }
      if ino[i].addrs[NDIRECT] == 0 {
        NoEntry(disk, ino[i], s);
      }
      r := Slot(i, INDIRECT);
      if r.None? {
        return;
      }
      ghost var disk1, ino1, owner1, logged1 := disk, ino, owner, logged;
      IndirectRef(disk, ino[i]);
      ghost var x := r.value;
      r := Entry(i, s, r.value);
      if r.Some? {
        OthersTrans(sb, old(disk), old(ino), old(owner), disk1, ino1, owner1, disk, ino, owner, i);
        NotedTrans(sb, old(disk), old(logged), disk1, logged1, disk, logged);
        KeepsData(old(disk), old(ino), old(owner), i, s);
        assert {BBlock(sb, x), x} + ({BBlock(sb, r.value), r.value} + {x}) == {BBlock(sb, r.value), r.value}
               + {x, BBlock(sb, x)};
      }
    }

    /** If the old blocks other than the indirect block are the same, the file's data are. */
    lemma KeepsData(disk0: Disk, ino0: map<int, Inode>, owner0: map<int, (int, int)>, i: int, s: int)
      requires Layout(sb) && RefsOk(sb, disk0, ino0, owner0) && i in ino0 && i in ino && |ino0[i].addrs| == NDIRECT + 1
      requires ino[i].size == ino0[i].size && ino[i].kind == ino0[i].kind && ino[i].links == ino0[i].links
      requires forall y :: y in owner0 && y != ino0[i].addrs[NDIRECT] ==> Same(disk0, disk, y)
      requires forall u :: 0 <= u < MAXFILE && u != s ==> Ref(disk, ino[i], u) == Ref(disk0, ino0[i], u)
      requires Mapped(disk0, ino0[i], s) ==> Ref(disk, ino[i], s) == Ref(disk0, ino0[i], s)
      ensures Stays(disk0, ino0[i], disk, ino[i], -1)
    {
      hide RefsOk, Ref;
      IndirectRef(disk0, ino0[i]);
      forall u | 0 <= u < MAXFILE && Mapped(disk0, ino0[i], u)
        ensures Ref(disk, ino[i], u) == Ref(disk0, ino0[i], u) && Same(disk0, disk, Ref(disk0, ino0[i], u))
      {
        RefOk(sb, disk0, ino0, owner0, i, u);
        RefOk(sb, disk0, ino0, owner0, i, INDIRECT);
      }
    }

    // -------------------------------------------------------------- file contents

    /** A change to the contents of block s of file i, handed to log_write. */
    method StoreBlock(ghost i: int, ghost s: int, addr: int, d: Block)
      requires Agree() && i in ino && 0 <= s < MAXFILE && addr == Ref(disk, ino[i], s) != 0 && |d| == BSIZE
      modifies this`disk, this`logged
      ensures Agree() && disk == old(disk)[addr := d] && logged == old(logged) + {addr} && addr in old(disk)
      ensures Noted(sb, old(disk), old(logged), disk, logged)
      ensures forall u :: 0 <= u <= INDIRECT ==> Ref(disk, ino[i], u) == Ref(old(disk), ino[i], u)
      ensures Others(sb, old(disk), ino, owner, disk, ino, owner, i) && Stays(old(disk), ino[i], disk, ino[i], s)
    {
      hide RefsOk, Ref, Used;
      RefOk(sb, disk, ino, owner, i, s);
      disk := disk[addr := d];
      logged := logged + {addr};
      BitsFrame(sb, old(disk), disk, alloc);
      RefsFrame(sb, old(disk), disk, ino, owner);
      forall u | 0 <= u < MAXFILE && Mapped(old(disk), ino[i], u) && u != s
        ensures Same(old(disk), disk, Ref(old(disk), ino[i], u))
      {
        RefOk(sb, old(disk), ino, owner, i, u);
      }
    }

    /** One turn of writei's loop: the bytes go into one block. */
    method WriteOne(i: int, off: int, chunk: seq<Byte>) returns (ok: bool)
      requires Agree() && i in ino && 0 <= off && off / BSIZE < MAXFILE && off % BSIZE + |chunk| <= BSIZE
      modifies this
      ensures InodeOk(old(ino)[i]) && (ok <==> Left(sb, old(alloc)) >= SlotNeed(old(disk), old(ino)[i], off / BSIZE))
      ensures ok ==> && i in ino && InodeOk(ino[i])
                     && Left(sb, alloc) == Left(sb, old(alloc)) - SlotNeed(old(disk), old(ino)[i], off / BSIZE)
                     && (ino[i].addrs[NDIRECT] == 0 <==> old(ino)[i].addrs[NDIRECT] == 0 && off / BSIZE < NDIRECT)
                     && forall u :: 0 <= u < MAXFILE && u != off / BSIZE ==>
                                      Ref(disk, ino[i], u) == Ref(old(disk), old(ino)[i], u)
      ensures !ok ==> Full()
      ensures ok ==> && Agree() && i in ino
                     && Others(sb, old(disk), old(ino), old(owner), disk, ino, owner, i)
                     && Stays(old(disk), old(ino)[i], disk, ino[i], off / BSIZE)
                     && Noted(sb, old(disk), old(logged), disk, logged)
                     && Wrote(old(disk), old(ino)[i], disk, ino[i], off, chunk) && Mapped(disk, ino[i], off / BSIZE)
                     && (old(ino)[i].addrs[NDIRECT] != 0 ==> ino[i].addrs[NDIRECT] == old(ino)[i].addrs[NDIRECT])
                     && var r := Ref(disk, ino[i], off / BSIZE);
                        logged == old(logged) + (if Mapped(old(disk), old(ino)[i], off / BSIZE) then {}
                                                 else BmapLog(sb, r, off / BSIZE, ino[i].addrs[NDIRECT],
                                                              old(ino)[i].addrs[NDIRECT])) + {r}
    {
      hide RefsOk, BitsOk, Ref, BmapLog;
      ghost var s := off / BSIZE;
      var r := Bmap(i, off / BSIZE);
      if r.None? {
        return false;
      }
      ghost var disk1, ino1, owner1, logged1 := disk, ino, owner, logged;
      RefOk(sb, disk, ino, owner, i, s);
      StoreBlock(i, s, r.value, Splice(disk[r.value], off % BSIZE, chunk));
      OthersTrans(sb, old(disk), old(ino), old(owner), disk1, ino1, owner1, disk, ino, owner, i);
      NotedTrans(sb, old(disk), old(logged), disk1, logged1, disk, logged);
      StaysTrans(old(disk), old(ino)[i], disk1, ino1[i], disk, ino[i], s);
      WroteBlock(old(disk), old(ino)[i], disk1, disk, ino[i], off, chunk);
      ok := true;
    }

    /** writei's loop. */
    method WriteLoop(i: int, off0: int, src: seq<Byte>) returns (ok: bool)
      requires Agree() && i in ino && 0 <= off0 <= ino[i].size && off0 + |src| <= MAXFILE * BSIZE
      requires MappedTo(disk, ino[i], ino[i].size)
      modifies this
      ensures InodeOk(old(ino)[i])
      ensures src != [] ==>
                (ok <==> Left(sb, old(alloc)) >= WriteNeed(old(disk), old(ino)[i], off0 / BSIZE,
                                                           (off0 + |src| - 1) / BSIZE + 1))
      ensures ok && src != [] ==>
                Left(sb, alloc) == Left(sb, old(alloc)) - WriteNeed(old(disk), old(ino)[i], off0 / BSIZE,
                                                                    (off0 + |src| - 1) / BSIZE + 1)
      ensures ok && src != [] ==> i in ino && Covered(old(disk), old(ino)[i], Left(sb, old(alloc)), disk, ino[i],
                                                     Left(sb, alloc), off0 / BSIZE, (off0 + |src| - 1) / BSIZE + 1)
      ensures !ok ==> Full()
      ensures ok ==> && Agree() && i in ino
                     && Others(sb, old(disk), old(ino), old(owner), disk, ino, owner, i)
                     && Progress(old(disk), old(ino)[i], disk, ino[i], off0, src, |src|)
                     && Stay(old(disk), old(ino)[i], disk, ino[i]) && Noted(sb, old(disk), old(logged), disk, logged)
                     && |logged| <= |old(logged)| + LoopCost(off0, |src|) + IndirectCost(off0, |src|)
                     && (InArea(sb, old(logged)) ==> InArea(sb, logged))
      ensures src == [] ==>
              ok && disk == old(disk) && ino == old(ino) && alloc == old(alloc) && owner == old(owner)
                  && logged == old(logged)
    {
      hide RefsOk, BitsOk, Ref, Others, BmapLog, Within, Progress, Stays, Wrote, MappedTo, Noted, WriteNeed, SlotNeed,
           Covered, LoopCost, Left, BBlock, Stay, InArea;
      ghost var lo, mid, left0 := off0 / BSIZE, off0 / BSIZE, Left(sb, alloc);
      CoveredNone(disk, ino[i], left0, lo);
      SelfFrames(i, off0, src);
      NotedSelf(sb, disk, logged);
      ghost var e := Spent(logged, {}, 0);
      StartSpent(off0, ino[i].addrs[NDIRECT]);
      var off, tot := off0, 0;
      while tot < |src|
        invariant 0 <= tot <= |src| && off == off0 + tot && (tot == 0 || tot == |src| || off % BSIZE == 0)
        invariant Agree() && i in ino && |ino[i].addrs| == NDIRECT + 1
        invariant Others(sb, old(disk), old(ino), old(owner), disk, ino, owner, i)
        invariant Progress(old(disk), old(ino)[i], disk, ino[i], off0, src, tot)
        invariant Noted(sb, old(disk), old(logged), disk, logged)
        invariant Within(logged, e, ino[i].addrs[NDIRECT], |old(logged)| + LoopCost(off0, tot))
        invariant off0 + tot <= NDIRECT * BSIZE ==> e.indirect == {}
        invariant InArea(sb, old(logged)) ==> InArea(sb, logged)
        invariant lo <= mid && (tot < |src| ==> mid == off / BSIZE) && (tot > 0 ==> mid == (off0 + tot - 1) / BSIZE + 1)
        invariant Covered(old(disk), old(ino)[i], left0, disk, ino[i], Left(sb, alloc), lo, mid)
        invariant tot == 0 ==>
                  disk == old(disk) && ino == old(ino) && alloc == old(alloc) && owner == old(owner)
                      && logged == old(logged)
      {
        var m := Min(|src| - tot, BSIZE - off % BSIZE);
        Turn(off0, tot, |src|, m);
        ghost var disk1, ino1, owner1, logged1 := disk, ino, owner, logged;
        ghost var left1 := Left(sb, alloc);
        ok := WriteOne(i, off, src[tot..tot + m]);
        if !ok {
          CoveredShort(old(disk), old(ino)[i], left0, disk1, ino1[i], left1, lo, mid, (off0 + |src| - 1) / BSIZE + 1);
          return;
        }
        CoveredStep(old(disk), old(ino)[i], left0, disk1, ino1[i], left1, lo, mid, disk, ino[i], Left(sb, alloc));
        NotedTrans(sb, old(disk), old(logged), disk1, logged1, disk, logged);
        StaysInArea(i, mid, disk1, ino1, logged1);
        AfterTurn(old(disk), old(ino), old(owner), |old(logged)|, disk1, ino1, owner1, logged1, e, i, off0, src, tot,
                  m);
        e := Spend(sb, e, Ref(disk, ino[i], mid), mid, Mapped(disk1, ino1[i], mid), ino[i].addrs[NDIRECT],
                   ino1[i].addrs[NDIRECT]);
        tot, off, mid := tot + m, off + m, mid + 1;
      }
      WithinTotal(logged, e, ino[i].addrs[NDIRECT], |old(logged)| + LoopCost(off0, |src|));
      LeftInRange(sb, disk, alloc);
      CoveredLeft(old(disk), old(ino)[i], left0, disk, ino[i], Left(sb, alloc), lo, mid);
      ok := true;
    }

    lemma SelfFrames(i: int, off: int, src: seq<Byte>)
      requires Agree() && i in ino && 0 <= off <= ino[i].size && MappedTo(disk, ino[i], ino[i].size)
      ensures Others(sb, disk, ino, owner, disk, ino, owner, i) && Progress(disk, ino[i], disk, ino[i], off, src, 0)
      ensures |ino[i].addrs| == NDIRECT + 1
    {
      hide Ref, BitsOk;
      SameSelf();
    }

    lemma StartSpent(off: int, x: int)
      ensures Within(logged, Spent(logged, {}, 0), x, |logged| + LoopCost(off, 0))
    {
    }

    lemma StaysInArea(i: int, s: int, disk1: Disk, ino1: map<int, Inode>, logged1: set<int>)
      requires Agree() && i in ino && i in ino1 && InodeOk(ino[i]) && InodeOk(ino1[i]) && 0 <= s < MAXFILE
      requires Mapped(disk, ino[i], s)
      requires var r := Ref(disk, ino[i], s);
               logged == logged1 + (if Mapped(disk1, ino1[i], s) then {}
                                    else BmapLog(sb, r, s, ino[i].addrs[NDIRECT], ino1[i].addrs[NDIRECT])) + {r}
      ensures InArea(sb, logged1) ==> InArea(sb, logged)
    {
      hide RefsOk, BitsOk, Ref;
      var r, x := Ref(disk, ino[i], s), ino[i].addrs[NDIRECT];
      RefOk(sb, disk, ino, owner, i, s);
      OwnedAreData();
      IndirectRef(disk, ino[i]);
      if s >= NDIRECT {
        MappedHasIndirect(disk, ino[i], s);
        RefOk(sb, disk, ino, owner, i, INDIRECT);
        BitmapBelow(sb, x);
      }
      BitmapBelow(sb, r);
    }

    lemma MappedHasIndirect(disk: Disk, ip: Inode, s: int)
      requires |ip.addrs| == NDIRECT + 1 && NDIRECT <= s < MAXFILE && Mapped(disk, ip, s)
      ensures ip.addrs[NDIRECT] != 0
    {
    }

    /** What one turn of the loop does to the whole. */
    lemma AfterTurn(disk0: Disk, ino0: map<int, Inode>, owner0: map<int, (int, int)>, n0: int,
                    disk1: Disk, ino1: map<int, Inode>, owner1: map<int, (int, int)>, logged1: set<int>, e: Spent,
                    i: int, off: int, src: seq<Byte>, tot: int, m: int)
      requires i in ino0 && i in ino1 && i in ino && InodesOk(sb, ino0) && InodesOk(sb, ino1) && InodesOk(sb, ino)
      requires 0 <= off <= ino0[i].size && 0 <= tot && 0 < m && tot + m <= |src| && (off + tot) % BSIZE + m <= BSIZE
      requires (tot == 0 || (off + tot) % BSIZE == 0) && off + |src| <= MAXFILE * BSIZE
      requires Others(sb, disk0, ino0, owner0, disk1, ino1, owner1, i)
               && Others(sb, disk1, ino1, owner1, disk, ino, owner, i)
      requires Progress(disk0, ino0[i], disk1, ino1[i], off, src, tot)
      requires Stays(disk1, ino1[i], disk, ino[i], (off + tot) / BSIZE)
               && Wrote(disk1, ino1[i], disk, ino[i], off + tot, src[tot..tot + m])
      requires Within(logged1, e, ino1[i].addrs[NDIRECT], n0 + LoopCost(off, tot))
      requires ino1[i].addrs[NDIRECT] != 0 ==> ino[i].addrs[NDIRECT] == ino1[i].addrs[NDIRECT]
      requires forall u :: 0 <= u < MAXFILE && u != (off + tot) / BSIZE ==>
                             Ref(disk, ino[i], u) == Ref(disk1, ino1[i], u)
      requires var r := Ref(disk, ino[i], (off + tot) / BSIZE);
               logged == logged1 + (if Mapped(disk1, ino1[i], (off + tot) / BSIZE) then {}
                                    else BmapLog(sb, r, (off + tot) / BSIZE, ino[i].addrs[NDIRECT],
                                                 ino1[i].addrs[NDIRECT])) + {r}
      ensures Others(sb, disk0, ino0, owner0, disk, ino, owner, i)
      ensures Progress(disk0, ino0[i], disk, ino[i], off, src, tot + m)
      ensures var s := (off + tot) / BSIZE;
              Within(logged, Spend(sb, e, Ref(disk, ino[i], s), s, Mapped(disk1, ino1[i], s), ino[i].addrs[NDIRECT],
                                   ino1[i].addrs[NDIRECT]),
                     ino[i].addrs[NDIRECT], n0 + LoopCost(off, tot + m))
    {
      hide Ref, Others, BmapLog, Within, Wrote, Stays, LoopCost, Spend;
      OthersTrans(sb, disk0, ino0, owner0, disk1, ino1, owner1, disk, ino, owner, i);
      ProgressStep(disk0, ino0[i], disk1, ino1[i], disk, ino[i], off, src, tot, m);
      var s := (off + tot) / BSIZE;
      var r, mapped := Ref(disk, ino[i], s), Mapped(disk1, ino1[i], s);
      CostStep(disk1, ino1[i], ino0[i].size, off, tot, m);
      WroteHasIndirect(disk1, ino1[i], disk, ino[i], off + tot, src[tot..tot + m]);
      var e' := Spend(sb, e, r, s, mapped, ino[i].addrs[NDIRECT], ino1[i].addrs[NDIRECT]);
      SpendStep(sb, logged1, e, r, s, mapped, ino[i].addrs[NDIRECT], ino1[i].addrs[NDIRECT], n0 + LoopCost(off, tot),
                logged);
      WithinMore(logged, e', ino[i].addrs[NDIRECT], n0 + LoopCost(off, tot) + (if mapped then 1 else 2),
                 n0 + LoopCost(off, tot + m));
    }

    // -------------------------------------------------------------- inodes on disk

    lemma Addrs(i: int)
      requires Agree() && i in ino
      ensures forall w :: 0 <= w < 16 ==> 0 <= DiskWord(ino[i], w) < 0x1_0000_0000
    {
      hide RefsOk, Ref, BitsOk;
      IndirectRef(disk, ino[i]);
      RefOk(sb, disk, ino, owner, i, INDIRECT);
      forall s | 0 <= s < NDIRECT
        ensures 0 <= ino[i].addrs[s] < 0x1_0000_0000
      {
        DirectRef(disk, ino[i], s);
        RefOk(sb, disk, ino, owner, i, s);
      }
    }

    /** iupdate: the inode goes to its place in its inode block; nothing else changes. */
    method Iupdate(i: int)
      requires Agree() && i in ino
      modifies this`disk, this`logged
      ensures Agree() && logged == old(logged) + {IBlock(sb, i)} && Saved(sb, disk, ino[i], i)
      ensures forall x :: 0 <= x < sb.size && x != IBlock(sb, i) ==> Same(old(disk), disk, x)
      ensures forall j :: j in ino ==> KeepsFile(old(disk), ino[j], disk, ino[j])
      ensures forall j :: j in ino && j != i && Saved(sb, old(disk), ino[j], j) ==> Saved(sb, disk, ino[j], j)
    {
      hide RefsOk, BitsOk, Ref, Word, SetWord, DiskWord;
      Addrs(i);
      InodeBlock(sb, i);
      var b, base := IBlock(sb, i), i % IPB * 16;
      var d := disk[b];
      var w := 0;
      while w < 16
        invariant 0 <= w <= 16 && |d| == BSIZE
        invariant forall v :: 0 <= v < NWORDS ==>
                    Word(d, v) == if base <= v < base + w then DiskWord(ino[i], v - base) else Word(disk[b], v)
      {
        ghost var d0 := d;
        d := SetWord(d, base + w, DiskWord(ino[i], w));
        forall v | 0 <= v < NWORDS
          ensures Word(d, v) == if v == base + w then DiskWord(ino[i], w) else Word(d0, v)
        {
          WordOfSet(d0, base + w, DiskWord(ino[i], w), v);
        }
        w := w + 1;
      }
      InstallInode(i, d);
    }

    method InstallInode(i: int, d: Block)
      requires Agree() && i in ino && |d| == BSIZE && IBlock(sb, i) in disk && |disk[IBlock(sb, i)]| == BSIZE && 0 <= i
      requires forall v :: 0 <= v < NWORDS ==>
                 Word(d, v) == if i % IPB * 16 <= v < i % IPB * 16 + 16 then DiskWord(ino[i], v - i % IPB * 16)
                     else Word(disk[IBlock(sb, i)], v)
      modifies this`disk, this`logged
      ensures Agree() && logged == old(logged) + {IBlock(sb, i)} && Saved(sb, disk, ino[i], i)
      ensures forall x :: 0 <= x < sb.size && x != IBlock(sb, i) ==> Same(old(disk), disk, x)
      ensures forall j :: j in ino ==> KeepsFile(old(disk), ino[j], disk, ino[j])
      ensures forall j :: j in ino && j != i && Saved(sb, old(disk), ino[j], j) ==> Saved(sb, disk, ino[j], j)
    {
      hide RefsOk, Ref, Used, Word, DiskWord;
      InodeBlock(sb, i);
      disk := disk[IBlock(sb, i) := d];
      logged := logged + {IBlock(sb, i)};
      BitsFrame(sb, old(disk), disk, alloc);
      RefsFrame(sb, old(disk), disk, ino, owner);
      forall j | j in ino
        ensures KeepsFile(old(disk), ino[j], disk, ino[j])
        ensures j != i && Saved(sb, old(disk), ino[j], j) ==> Saved(sb, disk, ino[j], j)
      {
        InodeBlock(sb, j);
        forall u | 0 <= u < MAXFILE && Mapped(old(disk), ino[j], u)
          ensures Same(old(disk), disk, Ref(old(disk), ino[j], u))
        {
          RefOk(sb, old(disk), ino, owner, j, u);
        }
        if j != i && IBlock(sb, j) == IBlock(sb, i) {
          assert i % IPB != j % IPB;
        }
      }
    }

    /** ilock's load of an inode from its inode block: what iupdate stored. */
    method LoadInode(i: int) returns (ip: Inode)
      requires Agree() && i in ino && Saved(sb, disk, ino[i], i)
      ensures ip == ino[i]
    {
      hide RefsOk, BitsOk, Word;
      InodeBlock(sb, i);
      var d, base := disk[IBlock(sb, i)], i % IPB * 16;
      assert forall w :: 0 <= w < 16 ==> Word(d, base + w) == DiskWord(ino[i], w);
      assert Word(d, base + 0) == DiskWord(ino[i], 0) && Word(d, base + 1) == DiskWord(ino[i], 1)
             && Word(d, base + 2) == DiskWord(ino[i], 2);
      var addrs: seq<int> := [];
      while |addrs| < NDIRECT + 1
        invariant |addrs| <= NDIRECT + 1 && addrs == ino[i].addrs[..|addrs|]
        decreases NDIRECT + 1 - |addrs|
      {
        assert Word(d, base + (3 + |addrs|)) == DiskWord(ino[i], 3 + |addrs|);
        addrs := addrs + [Word(d, base + (3 + |addrs|))];
      }
      ip := Inode(Word(d, base), Word(d, base + 1), Word(d, base + 2), addrs);
    }

    /** The end of writei and itrunc: a new size, written back with the rest of the inode. */
    method SetSize(i: int, size: int)
      requires Agree() && i in ino && 0 <= size <= MAXFILE * BSIZE
      modifies this`disk, this`ino, this`logged
      ensures Agree() && ino == old(ino)[i := old(ino)[i].(size := size)]
      ensures logged == old(logged) + {IBlock(sb, i)} && Saved(sb, disk, ino[i], i)
              && Noted(sb, old(disk), old(logged), disk, logged)
      ensures forall j :: j in ino ==> KeepsFile(old(disk), old(ino)[j], disk, ino[j])
      ensures forall j :: j in ino && j != i && Saved(sb, old(disk), ino[j], j) ==> Saved(sb, disk, ino[j], j)
      ensures forall x :: sb.nmeta <= x < sb.size ==> Same(old(disk), disk, x)
    {
      hide RefsOk, BitsOk, Ref, Saved;
      InodeBlock(sb, i);
      SizeChange(sb, disk, ino, owner, i, size);
      ino := ino[i := ino[i].(size := size)];
      Iupdate(i);
      forall u
        ensures Ref(old(disk), ino[i], u) == Ref(old(disk), old(ino)[i], u)
      {
        SizeRef(old(disk), old(ino)[i], size, u);
      }
    }

    /** writei: the bytes at off become those of src and nothing else changes; None is balloc's
        panic, exactly if more blocks are missing than are free. */
    method Writei(i: int, off: int, src: seq<Byte>) returns (r: Option<int>)
      requires Valid() && i in ino && 0 <= off < UINT32 && |src| < UINT32
      modifies this
      ensures r.None? ==> Full()
      ensures InodeOk(old(ino)[i])
      ensures src != [] && off <= old(ino)[i].size && off + |src| <= MAXFILE * BSIZE ==>
                var need := WriteNeed(old(disk), old(ino)[i], off / BSIZE, (off + |src| - 1) / BSIZE + 1);
                (r.None? <==> Left(sb, old(alloc)) < need)
                    && (r.Some? ==> Left(sb, alloc) == Left(sb, old(alloc)) - need)
      ensures r.Some? ==> && i in ino && Stay(old(disk), old(ino)[i], disk, ino[i])
                          && Bystanders(old(disk), old(owner), disk, owner, i)
      ensures r.Some? && src != [] && off <= old(ino)[i].size && off + |src| <= MAXFILE * BSIZE ==>
                Covered(old(disk), old(ino)[i], Left(sb, old(alloc)), disk, ino[i], Left(sb, alloc), off / BSIZE,
                        (off + |src| - 1) / BSIZE + 1)
      ensures off > old(ino)[i].size || off + |src| > MAXFILE * BSIZE ==>
                r == Some(-1) && disk == old(disk) && ino == old(ino) && alloc == old(alloc) && owner == old(owner)
                    && logged == old(logged)
      ensures r.Some? ==> Valid() && ino.Keys == old(ino).Keys
      ensures r.Some? ==> ino[i].kind == old(ino)[i].kind && ino[i].links == old(ino)[i].links
      ensures r.Some? && off <= old(ino)[i].size && off + |src| <= MAXFILE * BSIZE ==>
                && r.value == |src| && ino[i].size == Max(old(ino)[i].size, off + |src|)
                && Patched(old(disk), old(ino)[i], disk, ino[i], off, src)
                && Content(disk, ino[i]) == Overwrite(Content(old(disk), old(ino)[i]), off, src)
                && (forall j :: j in ino && j != i ==>
                                  ino[j] == old(ino)[j] && Content(disk, ino[j]) == Content(old(disk), old(ino)[j]))
                && Noted(sb, old(disk), old(logged), disk, logged) && |logged| <= |old(logged)| + WriteCost(off, |src|)
      ensures r.Some? && InArea(sb, old(logged)) ==> InArea(sb, logged)
    {
      hide RefsOk, BitsOk, Ref, Content, Overwrite, Saved, Progress, MappedTo, Others, KeepsFile, Noted, Stay,
           Bystanders, WriteNeed, Left, Covered, Patched;
      Untouched(i);
      var n := |src|;
      if off > ino[i].size || (off + n) % UINT32 < off {
        return Some(-1);
      }
      if off + n > MAXFILE * BSIZE {
        return Some(-1);
      }
      var ok := WriteLoop(i, off, src);
      if !ok {
        return None;
      }
      r := Some(n);
      OthersKeys(sb, old(disk), old(ino), old(owner), disk, ino, owner, i);
      OldSize(old(disk), old(ino)[i], disk, ino[i], off, src);
      if n > 0 {
        ghost var disk1, ino1, owner1, logged1 := disk, ino, owner, logged;
        InodeBlock(sb, i);
        SetSize(i, Max(ino[i].size, off + n));
        NotedTrans(sb, old(disk), old(logged), disk1, logged1, disk, logged);
        OwnedAreData();
        Finished(sb, old(disk), old(ino), old(owner), disk1, ino1, owner1, disk, ino[i], i);
        UnionCard(logged1, {IBlock(sb, i)});
        CoveredKept(old(disk), old(ino)[i], Left(sb, old(alloc)), disk1, ino1[i], Left(sb, alloc), off / BSIZE,
                    (off + n - 1) / BSIZE + 1, disk, ino[i]);
        FinishedMine(old(disk), old(ino)[i], disk1, ino1[i], disk, ino[i], off, src);
        forall j | j in ino && j != i
          ensures ino[j] == old(ino)[j] && Content(disk, ino[j]) == Content(old(disk), old(ino)[j])
                  && FileOk(sb, disk, ino[j], j)
        {
          FinishedOther(sb, old(disk), old(ino), old(owner), disk1, ino1, owner1, disk, ino, i, j);
        }
      } else {
        OverwriteNone(Content(disk, ino[i]), off, src);
        PatchedNone(disk, ino[i], off, src);
      }
    }

    lemma PatchedNone(disk: Disk, ip: Inode, off: int, src: seq<Byte>)
      requires 0 <= off && src == []
      ensures Patched(disk, ip, disk, ip, off, src)
    {
    }

    lemma Untouched(i: int)
      requires Agree() && i in ino
      ensures Stay(disk, ino[i], disk, ino[i]) && Bystanders(disk, owner, disk, owner, i) && InodeOk(ino[i])
    {
      hide Ref, BitsOk;
      SameSelf();
    }

    lemma OwnedAreData()
      requires Agree()
      ensures forall x :: x in owner ==> sb.nmeta <= x < sb.size
    {
      hide RefsOk, Used;
    }

    lemma OldSize(disk0: Disk, ip0: Inode, disk1: Disk, ip1: Inode, off: int, src: seq<Byte>)
      requires 0 <= off && Progress(disk0, ip0, disk1, ip1, off, src, |src|)
      ensures ip1.size == ip0.size && ip1.kind == ip0.kind && ip1.links == ip0.links
    {
    }

    // -------------------------------------------------------------- readi

    /** readi: exactly the bytes that are there; nothing changes, so in particular bmap never allocates. */
    method Readi(i: int, off0: int, n0: int) returns (r: int, out: seq<int>)
      requires Valid() && i in ino && 0 <= off0 < UINT32 && 0 <= n0 < UINT32
      modifies this
      ensures disk == old(disk) && ino == old(ino) && alloc == old(alloc) && owner == old(owner)
              && logged == old(logged)
      ensures off0 > ino[i].size || off0 + n0 >= UINT32 ==> r == -1 && out == []
      ensures off0 <= ino[i].size && off0 + n0 < UINT32 ==>
                r == Min(n0, ino[i].size - off0) && out == Content(disk, ino[i])[off0..off0 + r]
    {
      hide RefsOk, BitsOk, Content, FileOk;
      SizesOk(i);
      out := [];
      if off0 > ino[i].size || (off0 + n0) % UINT32 < off0 {
        return -1, [];
      }
      var n := if off0 + n0 > ino[i].size then ino[i].size - off0 else n0;
      ghost var c := Content(disk, ino[i]);
      var off, tot := off0, 0;
      while tot < n
        invariant 0 <= tot <= n && off == off0 + tot && out == c[off0..off]
        invariant Valid() && disk == old(disk) && ino == old(ino) && alloc == old(alloc) && owner == old(owner)
                  && logged == old(logged)
      {
        var m := Min(n - tot, BSIZE - off % BSIZE);
        var piece := ReadOne(i, off, m);
        out := out + piece;
        Adjoin(c, off0, off, off + m);
        tot, off := tot + m, off + m;
      }
      r := n;
    }

    lemma SizesOk(i: int)
      requires Agree() && i in ino
      ensures 0 <= ino[i].size <= MAXFILE * BSIZE
    {
      hide RefsOk, BitsOk;
    }

    /** One turn of readi's loop: the bytes are in one block. */
    method ReadOne(i: int, off: int, m: int) returns (piece: seq<int>)
      requires Valid() && i in ino && 0 <= off && 0 < m && off + m <= ino[i].size && off % BSIZE + m <= BSIZE
      modifies this
      ensures disk == old(disk) && ino == old(ino) && alloc == old(alloc) && owner == old(owner)
              && logged == old(logged)
      ensures piece == Content(disk, ino[i])[off..off + m]
    {
      hide RefsOk, BitsOk, Ref, Content, Saved, Others, Stays, BmapLog;
      assert Mapped(disk, ino[i], off / BSIZE) by { assert FileOk(sb, disk, ino[i], i); }
      var addr := Bmap(i, off / BSIZE);
      RefOk(sb, disk, ino, owner, i, off / BSIZE);
      Piece(disk, ino[i], off, m);
      piece := disk[addr.value][off % BSIZE..off % BSIZE + m];
    }

    lemma Adjoin(c: seq<int>, lo: int, mid: int, hi: int)
      requires 0 <= lo <= mid <= hi <= |c|
      ensures c[lo..mid] + c[mid..hi] == c[lo..hi]
    {
    }

    // -------------------------------------------------------------- itrunc

    /** One turn of itrunc's first loop. */
    method FreeDirect(i: int, s: int)
      requires Agree() && i in ino && 0 <= s < NDIRECT
      modifies this
      ensures Agree() && ino == old(ino)[i := Given(old(ino)[i], s, 0)]
      ensures forall x :: x in owner <==> x in old(owner) && old(owner)[x] != (i, s)
      ensures forall x :: x in owner ==> owner[x] == old(owner)[x]
      ensures Others(sb, old(disk), old(ino), old(owner), disk, ino, owner, i)
              && Noted(sb, old(disk), old(logged), disk, logged)
      ensures Released(sb, old(alloc), old(logged), alloc, logged)
    {
      hide RefsOk, Ref, BitsOk, Released;
      ReleasedNone(sb, alloc, logged);
      NotedSelf(sb, disk, logged);
      DirectRef(disk, ino[i], s);
      RefOk(sb, disk, ino, owner, i, s);
      SameSelf();
      OwnedOnce(i, s);
      var b := ino[i].addrs[s];
      if b != 0 {
        Bfree(b);
        Unfreed(b, old(disk), old(alloc));
        DropDirect(sb, disk, ino, owner, i, s, b);
        ino := ino[i := Given(ino[i], s, 0)];
        owner := owner - {b};
      } else {
        assert ino[i].addrs == ino[i].addrs[s := 0];
      }
    }

    lemma OwnedOnce(i: int, s: int)
      requires Agree() && i in ino && 0 <= s <= INDIRECT
      ensures forall x :: x in owner && owner[x] == (i, s) ==> x == Ref(disk, ino[i], s) != 0
    {
    }

    /** What an inode with empty direct slots owns. */
    lemma OnlyIndirect(i: int)
      requires Agree() && i in ino && forall s :: 0 <= s < NDIRECT ==> ino[i].addrs[s] == 0
      ensures forall b :: b in owner && owner[b].0 == i ==>
                ino[i].addrs[NDIRECT] != 0 && NDIRECT <= owner[b].1 <= INDIRECT
                    && (owner[b].1 == INDIRECT ==> b == ino[i].addrs[NDIRECT])
    {
    }

    /** bfree changes the bitmap only. */
    lemma Unfreed(b: int, disk0: Disk, alloc0: set<int>)
      requires Layout(sb) && DiskOk(sb, disk0) && DiskOk(sb, disk) && InodesOk(sb, ino) && BitsOk(sb, disk0, alloc0)
      requires RefsOk(sb, disk0, ino, owner) && 0 <= b < sb.size
      requires forall x :: 0 <= x < sb.size && x != BBlock(sb, b) ==> Same(disk0, disk, x)
      ensures RefsOk(sb, disk, ino, owner)
      ensures forall j, s :: j in ino && 0 <= s <= INDIRECT ==> Ref(disk, ino[j], s) == Ref(disk0, ino[j], s)
      ensures forall x :: x in owner ==> Same(disk0, disk, x)
      ensures forall x :: 0 <= x < sb.bmapstart ==> Same(disk0, disk, x)
    {
      hide Ref, BitsOk;
      BitmapBelow(sb, b);
      forall x | x in owner
        ensures Same(disk0, disk, x)
      {
        assert OwnerOk(sb, disk0, ino, owner, x);
      }
      RefsFrame(sb, disk0, disk, ino, owner);
    }

    /** The second half of itrunc: the blocks of the indirect block and the indirect block itself. */
    method FreeIndirect(i: int)
      requires Agree() && i in ino && forall s :: 0 <= s < NDIRECT ==> ino[i].addrs[s] == 0
      modifies this
      ensures Agree() && ino == old(ino)[i := Given(old(ino)[i], INDIRECT, 0)] && owner == Without(old(owner), i)
      ensures Others(sb, old(disk), old(ino), old(owner), disk, ino, owner, i)
              && Noted(sb, old(disk), old(logged), disk, logged)
      ensures Released(sb, old(alloc), old(logged), alloc, logged)
    {
      hide RefsOk, Ref, BitsOk, Word, Released;
      ReleasedNone(sb, alloc, logged);
      NotedSelf(sb, disk, logged);
      IndirectRef(disk, ino[i]);
      RefOk(sb, disk, ino, owner, i, INDIRECT);
      SameSelf();
      OnlyIndirect(i);
      var x := ino[i].addrs[NDIRECT];
      if x != 0 {
        FreeEntries(i, x);
        ghost var disk1, alloc1, logged1 := disk, alloc, logged;
        Bfree(x);
        ReleasedTrans(sb, old(alloc), old(logged), alloc1, logged1, alloc, logged);
        NotedTrans(sb, old(disk), old(logged), disk1, logged1, disk, logged);
        Unfreed(x, disk1, alloc1);
        SameTrans(sb, owner.Keys, old(disk), disk1, disk);
      }
      assert forall b :: b in alloc <==> b in owner && owner[b].0 != i;
      assert forall b :: b in Without(owner, i) <==> b in owner && owner[b].0 != i;
      assert alloc == Without(owner, i).Keys;
      DropRest(sb, disk, ino, owner, i);
      ino := ino[i := Given(ino[i], INDIRECT, 0)];
      owner := Without(owner, i);
    }

    method FreeEntries(i: int, x: int)
      requires Agree() && i in ino && x == ino[i].addrs[NDIRECT] != 0
      modifies this`disk, this`alloc, this`logged
      ensures Shape() && BitsOk(sb, disk, alloc) && RefsOk(sb, disk, ino, owner)
      ensures forall b :: b in alloc <==> b in owner && !(owner[b].0 == i && NDIRECT <= owner[b].1 < MAXFILE)
      ensures forall b :: b in owner ==> Same(old(disk), disk, b)
      ensures forall b :: 0 <= b < sb.bmapstart ==> Same(old(disk), disk, b)
      ensures Noted(sb, old(disk), old(logged), disk, logged)
      ensures Released(sb, old(alloc), old(logged), alloc, logged)
    {
      hide RefsOk, Ref, BitsOk, Word, Released;
      ReleasedNone(sb, alloc, logged);
      IndirectRef(disk, ino[i]);
      RefOk(sb, disk, ino, owner, i, INDIRECT);
      SameSelf();
      NotedSelf(sb, disk, logged);
      var a := disk[x];
      var j := 0;
      while j < NINDIRECT
        invariant 0 <= j <= NINDIRECT && Shape() && BitsOk(sb, disk, alloc) && RefsOk(sb, disk, ino, owner)
                  && disk[x] == a
        invariant forall b :: b in alloc <==> b in owner && !(owner[b].0 == i && NDIRECT <= owner[b].1 < NDIRECT + j)
        invariant forall b :: b in owner ==> Same(old(disk), disk, b)
        invariant forall b :: 0 <= b < sb.bmapstart ==> Same(old(disk), disk, b)
        invariant Noted(sb, old(disk), old(logged), disk, logged)
                  && Released(sb, old(alloc), old(logged), alloc, logged)
      {
        ghost var disk1, alloc1, logged1 := disk, alloc, logged;
        FreeEntry(i, x, a, j);
        ReleasedTrans(sb, old(alloc), old(logged), alloc1, logged1, alloc, logged);
        NotedTrans(sb, old(disk), old(logged), disk1, logged1, disk, logged);
        SameTrans(sb, owner.Keys, old(disk), disk1, disk);
        j := j + 1;
      }
    }

    method FreeEntry(i: int, x: int, a: Block, j: int)
      requires Shape() && BitsOk(sb, disk, alloc) && RefsOk(sb, disk, ino, owner) && 0 <= j < NINDIRECT
      requires i in ino && x == ino[i].addrs[NDIRECT] != 0 && x in disk && disk[x] == a && |a| == BSIZE
      requires forall b :: b in alloc <==> b in owner && !(owner[b].0 == i && NDIRECT <= owner[b].1 < NDIRECT + j)
      modifies this`disk, this`alloc, this`logged
      ensures Shape() && BitsOk(sb, disk, alloc) && RefsOk(sb, disk, ino, owner)
      ensures forall b :: b in alloc <==> b in owner && !(owner[b].0 == i && NDIRECT <= owner[b].1 < NDIRECT + j + 1)
      ensures forall b :: b in owner ==> Same(old(disk), disk, b)
      ensures forall b :: 0 <= b < sb.bmapstart ==> Same(old(disk), disk, b)
      ensures Noted(sb, old(disk), old(logged), disk, logged)
      ensures Released(sb, old(alloc), old(logged), alloc, logged)
    {
      hide Ref, Used, Word, Released;
      ReleasedNone(sb, alloc, logged);
      EntryOf(disk, ino[i], NDIRECT + j);
      RefOk(sb, disk, ino, owner, i, NDIRECT + j);
      forall b | b in owner
        ensures owner[b] == (i, NDIRECT + j) ==> b == Word(a, j)
        ensures Same(disk, disk, b)
      {
        assert OwnerOk(sb, disk, ino, owner, b);
      }
      if Word(a, j) != 0 {
        Bfree(Word(a, j));
        Unfreed(Word(a, j), old(disk), old(alloc));
      }
    }

    /** itrunc: the file is empty, exactly its blocks are free again, other files are untouched. */
    method Itrunc(i: int)
      requires Valid() && i in ino
      modifies this
      ensures Valid() && ino.Keys == old(ino).Keys
      ensures ino[i].size == 0 && forall s :: 0 <= s <= NDIRECT ==> ino[i].addrs[s] == 0
      ensures ino[i].kind == old(ino)[i].kind && ino[i].links == old(ino)[i].links
      ensures forall b :: b in alloc <==> b in old(alloc) && old(owner)[b].0 != i
      ensures forall j :: j in ino && j != i ==>
                            ino[j] == old(ino)[j] && Content(disk, ino[j]) == Content(old(disk), old(ino)[j])
      ensures Noted(sb, old(disk), old(logged), disk, logged)
      ensures logged == old(logged) + MapsOf(sb, BlocksOf(old(owner), i)) + {IBlock(sb, i)}
    {
      hide RefsOk, Ref, BitsOk, Content, MappedTo, Saved, KeepsFile, Others, Noted, Released, MapsOf;
      FreeAllDirect(i);
      ghost var disk1, ino1, owner1, alloc1, logged1 := disk, ino, owner, alloc, logged;
      FreeIndirect(i);
      ReleasedTrans(sb, old(alloc), old(logged), alloc1, logged1, alloc, logged);
      ReleasedFile(sb, old(owner), owner, i, old(logged), logged);
      NotedTrans(sb, old(disk), old(logged), disk1, logged1, disk, logged);
      OthersTrans(sb, old(disk), old(ino), old(owner), disk1, ino1, owner1, disk, ino, owner, i);
      ghost var disk2, ino2, owner2, logged2 := disk, ino, owner, logged;
      SetSize(i, 0);
      NotedTrans(sb, old(disk), old(logged), disk2, logged2, disk, logged);
      assert MappedTo(disk, ino[i], 0) by { Nothing(disk, ino[i]); }
      forall j | j in ino && j != i
        ensures ino[j] == old(ino)[j] && Content(disk, ino[j]) == Content(old(disk), old(ino)[j])
                && FileOk(sb, disk, ino[j], j)
      {
        FinishedOther(sb, old(disk), old(ino), old(owner), disk2, ino2, owner2, disk, ino, i, j);
      }
    }

    /** itrunc's first loop. */
    method FreeAllDirect(i: int)
      requires Agree() && i in ino
      modifies this
      ensures Agree() && i in ino && ino.Keys == old(ino).Keys && forall u :: 0 <= u < NDIRECT ==> ino[i].addrs[u] == 0
      ensures ino[i].kind == old(ino)[i].kind && ino[i].links == old(ino)[i].links
      ensures forall x :: x in owner <==> x in old(owner) && !(old(owner)[x].0 == i && 0 <= old(owner)[x].1 < NDIRECT)
      ensures forall x :: x in owner ==> owner[x] == old(owner)[x]
      ensures Others(sb, old(disk), old(ino), old(owner), disk, ino, owner, i)
              && Noted(sb, old(disk), old(logged), disk, logged)
      ensures Released(sb, old(alloc), old(logged), alloc, logged)
    {
      hide RefsOk, Ref, BitsOk, Others, Noted, Released;
      ReleasedNone(sb, alloc, logged);
      OthersSelf(i);
      NotedSelf(sb, disk, logged);
      var s := 0;
      while s < NDIRECT
        invariant 0 <= s <= NDIRECT && Agree() && i in ino && ino.Keys == old(ino).Keys
        invariant forall u :: 0 <= u < s ==> ino[i].addrs[u] == 0
        invariant ino[i].kind == old(ino)[i].kind && ino[i].links == old(ino)[i].links
        invariant forall x :: x in owner <==> x in old(owner) && !(old(owner)[x].0 == i && 0 <= old(owner)[x].1 < s)
        invariant forall x :: x in owner ==> owner[x] == old(owner)[x]
        invariant Others(sb, old(disk), old(ino), old(owner), disk, ino, owner, i)
        invariant Noted(sb, old(disk), old(logged), disk, logged)
                  && Released(sb, old(alloc), old(logged), alloc, logged)
      {
        ghost var disk1, ino1, owner1, alloc1, logged1 := disk, ino, owner, alloc, logged;
        FreeDirect(i, s);
        ReleasedTrans(sb, old(alloc), old(logged), alloc1, logged1, alloc, logged);
        NotedTrans(sb, old(disk), old(logged), disk1, logged1, disk, logged);
        OthersTrans(sb, old(disk), old(ino), old(owner), disk1, ino1, owner1, disk, ino, owner, i);
        s := s + 1;
      }
    }

    lemma OthersSelf(i: int)
      requires Agree()
      ensures Others(sb, disk, ino, owner, disk, ino, owner, i)
    {
      SameSelf();
    }

    lemma SameSelf()
      requires Agree()
      ensures Others(sb, disk, ino, owner, disk, ino, owner, 0)
      ensures forall x :: x in owner ==> Same(disk, disk, x)
    {
    }

    lemma Positive()
      requires Layout(sb)
      ensures 0 < sb.nmeta
    {
    }
  }
}
