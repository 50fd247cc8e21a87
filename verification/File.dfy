/** The chunked write of kernel/file.c: one transaction per chunk, each within the log budget. */
module File {
  import opened Common
  import opened FsBlock
  import opened FsRefs
  import opened Fs

  const MAXOPBLOCKS := 10

  /** ((MAXOPBLOCKS-1-1-2) / 2) * BSIZE */
  const CHUNK := (MAXOPBLOCKS - 1 - 1 - 2) / 2 * BSIZE

  /** The bound on what a write logs stays within the budget, at whatever offset, exactly up to
      CHUNK bytes. That the bound is reached is FsWorst.OneByteMore. */
  lemma ChunkFits(n: int)
    requires 0 <= n
    ensures n <= CHUNK <==> forall off :: 0 <= off ==> WriteCost(off, n) <= MAXOPBLOCKS
  {
    if n <= CHUNK {
      forall off | 0 <= off
        ensures WriteCost(off, n) <= MAXOPBLOCKS
      {
        FitsAt(off, n);
      }
    } else {
      assert WriteCost(NDIRECT * BSIZE, n) > MAXOPBLOCKS;
    }
  }

  lemma FitsAt(off: int, n: int)
    requires 0 <= off && 0 <= n <= CHUNK
    ensures WriteCost(off, n) <= MAXOPBLOCKS
  {
  }

  lemma OverwriteMore(c: seq<int>, off: int, a: seq<Byte>, b: seq<Byte>)
    requires 0 <= off <= |c|
    ensures off + |a| <= |Overwrite(c, off, a)|
    ensures Overwrite(Overwrite(c, off, a), off + |a|, b) == Overwrite(c, off, a + b)
  {
  }

  /** How many of n bytes at off writei takes, chunk by chunk, if the disk has room for them. */
  function Accepted(off: int, size: int, n: nat): (w: int)
    requires 0 <= off && size <= MAXFILE * BSIZE
    ensures 0 <= w <= n
  {
    if off > size then 0
    else if off + n <= MAXFILE * BSIZE then n
    else (MAXFILE * BSIZE - off) / CHUNK * CHUNK
  }

  /** The first chunk that is refused is the one at which the bytes taken end. */
  lemma AcceptedChunk(off: int, size: int, n: nat, i: int, n1: int)
    requires 0 <= off && size <= MAXFILE * BSIZE && 0 <= i < n && i % CHUNK == 0
    requires n1 == Min(CHUNK, n - i) && i <= Accepted(off, size, n)
    ensures off > size ==> Accepted(off, size, n) == 0
    ensures off <= size ==> && off + Accepted(off, size, n) <= MAXFILE * BSIZE
                            && (off + i + n1 > MAXFILE * BSIZE ==> i == Accepted(off, size, n))
                            && (off + i + n1 <= MAXFILE * BSIZE ==> i + n1 <= Accepted(off, size, n))
  {
    var room := MAXFILE * BSIZE - off;
    WholeChunks(i, i / CHUNK);
    if off <= size && off + n > MAXFILE * BSIZE {
      ChunksIn(room, i / CHUNK, room / CHUNK);
    }
  }

  lemma NextStart(i: int, n: int, n1: int)
    requires i % CHUNK == 0 && n1 == Min(CHUNK, n - i)
    ensures (i + n1) % CHUNK == 0 || i + n1 == n
  {
  }

  lemma WholeChunks(i: int, k: int)
    requires i % CHUNK == 0 && k == i / CHUNK
    ensures i == k * CHUNK
  {
  }

  lemma ChunksIn(room: int, k: int, q: int)
    requires 0 <= room && q == room / CHUNK
    ensures q * CHUNK <= room < q * CHUNK + CHUNK
    ensures k <= q <==> k * CHUNK <= q * CHUNK
    ensures k + 1 <= q <==> k * CHUNK + CHUNK <= room
  {
  }

  /** A file without holes has the block in which the next write starts, if that is not a new one. */
  lemma StartsMapped(disk: Disk, ip: Inode, off: int)
    requires 0 < off <= ip.size && MappedTo(disk, ip, ip.size)
    ensures var lo, mid := off / BSIZE, (off - 1) / BSIZE + 1;
            lo <= mid && forall s :: lo <= s < mid ==> Mapped(disk, ip, s)
  {
    hide Mapped;
  }

  /** Running out of blocks in one chunk means there were too few for all the bytes taken. */
  lemma ChunkShort(disk0: Disk, ip0: Inode, left0: int, disk: Disk, ip: Inode, left: int, lo: int, mid: int,
                   lo2: int, hi: int, all: int)
    requires Covered(disk0, ip0, left0, disk, ip, left, lo, mid) && lo <= lo2 <= mid <= hi <= all <= MAXFILE && lo2 < hi
    requires forall s :: lo2 <= s < mid ==> Mapped(disk, ip, s)
    requires |ip.addrs| == NDIRECT + 1 && |ip0.addrs| == NDIRECT + 1 && left < WriteNeed(disk, ip, lo2, hi)
    ensures left0 < WriteNeed(disk0, ip0, lo, all)
  {
    hide Ref;
    NeedMore(disk0, ip0, disk, ip, lo, mid, lo2, hi);
    NeedMonotone(disk0, ip0, lo, hi, all);
  }

  /** The contents are the old ones with the first i bytes of src at off. */
  ghost predicate Replaced(disk0: Disk, ip0: Inode, off: int, src: seq<Byte>, i: nat, disk: Disk, ip: Inode)
    requires i <= |src| && 0 <= ip0.size && 0 <= off
  {
    && 0 <= ip.size && (i > 0 ==> off <= ip0.size) && ip.kind == ip0.kind && ip.links == ip0.links
    && (if off <= ip0.size then
          Content(disk, ip) == Overwrite(Content(disk0, ip0), off, src[..i]) && ip.size == Max(ip0.size, off + i)
        else Content(disk, ip) == Content(disk0, ip0) && ip.size == ip0.size)
  }

  /** Exactly the blocks these bytes needed have been taken. */
  ghost predicate Taken(sb: Sb, disk0: Disk, ino0: map<int, Inode>, alloc0: set<int>, off: int, i: nat,
                        disk: Disk, ino: map<int, Inode>, alloc: set<int>, inum: int) {
    && inum in ino0 && inum in ino
    && (i == 0 ==> disk == disk0 && ino == ino0 && alloc == alloc0)
    && (i > 0 ==> Covered(disk0, ino0[inum], Left(sb, alloc0), disk, ino[inum], Left(sb, alloc),
                          off / BSIZE, (off + i - 1) / BSIZE + 1))
  }

  lemma ReplacedMore(disk0: Disk, ip0: Inode, off: int, src: seq<Byte>, i: nat, n: nat, disk1: Disk, ip1: Inode,
                     disk2: Disk, ip2: Inode)
    requires i + n <= |src| && 0 <= ip0.size && 0 <= off <= ip0.size && 0 <= ip2.size
    requires Replaced(disk0, ip0, off, src, i, disk1, ip1)
    requires Content(disk2, ip2) == Overwrite(Content(disk1, ip1), off + i, src[i..i + n])
    requires ip2.kind == ip1.kind && ip2.links == ip1.links && ip2.size == Max(ip1.size, off + i + n)
    ensures Replaced(disk0, ip0, off, src, i + n, disk2, ip2)
  {
    OverwriteMore(Content(disk0, ip0), off, src[..i], src[i..i + n]);
    assert src[..i] + src[i..i + n] == src[..i + n];
  }

  lemma TakenMore(sb: Sb, disk0: Disk, ino0: map<int, Inode>, alloc0: set<int>, off: int, i: nat, n: nat,
                  disk1: Disk, ino1: map<int, Inode>, alloc1: set<int>,
                  disk2: Disk, ino2: map<int, Inode>, alloc2: set<int>, inum: int)
    requires Taken(sb, disk0, ino0, alloc0, off, i, disk1, ino1, alloc1, inum) && inum in ino2 && n > 0
    requires 0 <= off && off + i + n <= MAXFILE * BSIZE && off + i <= ino1[inum].size
    requires MappedTo(disk1, ino1[inum], ino1[inum].size)
    requires Covered(disk1, ino1[inum], Left(sb, alloc1), disk2, ino2[inum], Left(sb, alloc2),
                     (off + i) / BSIZE, (off + i + n - 1) / BSIZE + 1)
    ensures Taken(sb, disk0, ino0, alloc0, off, i + n, disk2, ino2, alloc2, inum)
  {
    hide Covered, Left, MappedTo;
    if i > 0 {
      StartsMapped(disk1, ino1[inum], off + i);
      CoveredMore(disk0, ino0[inum], Left(sb, alloc0), disk1, ino1[inum], Left(sb, alloc1), off / BSIZE,
                  (off + i - 1) / BSIZE + 1, disk2, ino2[inum], Left(sb, alloc2), (off + i) / BSIZE,
                  (off + i + n - 1) / BSIZE + 1);
    }
  }

  lemma TakenShort(sb: Sb, disk0: Disk, ino0: map<int, Inode>, alloc0: set<int>, off: int, i: nat, n: nat, w: int,
                   disk1: Disk, ino1: map<int, Inode>, alloc1: set<int>, inum: int)
    requires Taken(sb, disk0, ino0, alloc0, off, i, disk1, ino1, alloc1, inum) && n > 0 && i + n <= w
    requires 0 <= off && off + w <= MAXFILE * BSIZE && off + i <= ino1[inum].size
    requires MappedTo(disk1, ino1[inum], ino1[inum].size) && InodeOk(ino1[inum]) && InodeOk(ino0[inum])
    requires Left(sb, alloc1) < WriteNeed(disk1, ino1[inum], (off + i) / BSIZE, (off + i + n - 1) / BSIZE + 1)
    ensures Left(sb, alloc0) < WriteNeed(disk0, ino0[inum], off / BSIZE, (off + w - 1) / BSIZE + 1)
  {
    hide Covered, Left, MappedTo, WriteNeed;
    if i > 0 {
      StartsMapped(disk1, ino1[inum], off + i);
      ChunkShort(disk0, ino0[inum], Left(sb, alloc0), disk1, ino1[inum], Left(sb, alloc1), off / BSIZE,
                 (off + i - 1) / BSIZE + 1, (off + i) / BSIZE, (off + i + n - 1) / BSIZE + 1,
                 (off + w - 1) / BSIZE + 1);
    } else {
      NeedMonotone(disk1, ino1[inum], off / BSIZE, (off + n - 1) / BSIZE + 1, (off + w - 1) / BSIZE + 1);
    }
  }

  /** The disk of a file system in order. */
  ghost predicate InOrder(sb: Sb, disk: Disk) {
    exists ino, owner :: Describes(sb, disk, ino, owner)
  }

  ghost predicate Describes(sb: Sb, disk: Disk, ino: map<int, Inode>, owner: map<int, (int, int)>) {
    && Layout(sb) && DiskOk(sb, disk) && InodesOk(sb, ino) && BitsOk(sb, disk, owner.Keys)
    && RefsOk(sb, disk, ino, owner)
    && forall i :: i in ino ==> FileOk(sb, disk, ino[i], i)
  }

  /** A transaction takes one file system in order to another. It logs every block it changes,
      none of the log itself, and no more than MAXOPBLOCKS. */
  ghost predicate Transaction(sb: Sb, disk: Disk, disk': Disk, logged: set<int>) {
    && InOrder(sb, disk) && InOrder(sb, disk') && Noted(sb, disk, {}, disk', logged)
    && InArea(sb, logged) && |logged| <= MAXOPBLOCKS
  }

  lemma ValidInOrder(fs: FileSystem)
    requires fs.Valid()
    ensures InOrder(fs.sb, fs.disk) && Layout(fs.sb) && DiskOk(fs.sb, fs.disk)
  {
    hide RefsOk, BitsOk, FileOk;
    assert Describes(fs.sb, fs.disk, fs.ino, fs.owner);
  }

  class OpenFile {
    const fs: FileSystem
    const inum: int
    var off: int

    constructor (fs: FileSystem, inum: int)
      requires fs.Valid() && inum in fs.ino
      ensures this.fs == fs && this.inum == inum && off == 0 && Ready()
    {
      this.fs, this.inum, off := fs, inum, 0;
    }

    ghost predicate Ready()
      reads this, fs
    {
      fs.Valid() && inum in fs.ino && 0 <= off < UINT32
    }

    ghost function Bytes(): seq<int>
      requires Ready()
      reads this, fs
    {
      Content(fs.disk, fs.ino[inum])
    }

    /** Would writei refuse to write n bytes here? */
    ghost predicate Refused(n: int)
      requires Ready()
      reads this, fs
    {
      off > fs.ino[inum].size || off + n > MAXFILE * BSIZE
    }

    /** One transaction: begin_op, writei, end_op. Every block it changes is logged, and there are
        at most MAXOPBLOCKS. */
    method WriteChunk(chunk: seq<Byte>) returns (r: Option<int>)
      requires Ready() && 0 < |chunk| <= CHUNK
      modifies this, fs
      ensures r.None? ==> fs.Full()
      ensures InodeOk(old(fs.ino)[inum])
      ensures r.None? <==> && !old(Refused(|chunk|))
                           && Left(fs.sb, old(fs.alloc)) < WriteNeed(old(fs.disk), old(fs.ino)[inum], old(off) / BSIZE,
                                                                     (old(off) + |chunk| - 1) / BSIZE + 1)
      ensures r.Some? && r.value != -1 ==>
                && inum in fs.ino
                && Covered(old(fs.disk), old(fs.ino)[inum], Left(fs.sb, old(fs.alloc)), fs.disk, fs.ino[inum],
                           Left(fs.sb, fs.alloc), old(off) / BSIZE, (old(off) + |chunk| - 1) / BSIZE + 1)
      ensures r == Some(-1) ==> fs.alloc == old(fs.alloc)
      ensures r.Some? ==> Transaction(fs.sb, old(fs.disk), fs.disk, fs.logged)
      ensures r.Some? ==> && Ready() && (r.value == -1 <==> old(Refused(|chunk|)))
                          && (r.value == -1 ==> off == old(off) && fs.disk == old(fs.disk) && fs.ino == old(fs.ino))
                          && (r.value != -1 ==> && r.value == |chunk| && off == old(off) + |chunk|
                                                && Bytes() == Overwrite(old(Bytes()), old(off), chunk)
                                                && fs.ino[inum].kind == old(fs.ino)[inum].kind
                                                && fs.ino[inum].links == old(fs.ino)[inum].links
                                                && fs.ino[inum].size == Max(old(fs.ino)[inum].size, old(off) + |chunk|)
                                                && forall j :: j in fs.ino && j != inum ==>
                                                     && j in old(fs.ino) && fs.ino[j] == old(fs.ino)[j]
                                                     && Content(fs.disk, fs.ino[j]) == Content(old(fs.disk), fs.ino[j]))
    {
      hide RefsOk, BitsOk, FileOk, Content, Overwrite, WriteCost, Noted, WriteNeed, Left, Stay, Bystanders, Covered,
           InOrder;
      ValidInOrder(fs);
      fs.logged := {};
      r := fs.Writei(inum, off, chunk);
      FitsAt(off, |chunk|);
      if r.Some? {
        ValidInOrder(fs);
        NotedSelf(fs.sb, fs.disk, fs.logged);
        if r.value > 0 {
          off := off + r.value;
        }
      }
    }

    ghost function Need(n: int): int
      requires Ready() && 0 < n && off <= fs.ino[inum].size && off + n <= MAXFILE * BSIZE
      reads this, fs
    {
      WriteNeed(fs.disk, fs.ino[inum], off / BSIZE, (off + n - 1) / BSIZE + 1)
    }

    /** From the given state on, i bytes of src have been written at off0. */
    ghost predicate Written(disk0: Disk, ino0: map<int, Inode>, alloc0: set<int>, off0: int, src: seq<Byte>, i: nat)
      requires i <= |src| && inum in ino0 && 0 <= ino0[inum].size && 0 <= off0
      reads this, fs
    {
      && Ready() && off == off0 + i
      && Replaced(disk0, ino0[inum], off0, src, i, fs.disk, fs.ino[inum])
      && OthersKept(disk0, ino0)
      && Taken(fs.sb, disk0, ino0, alloc0, off0, i, fs.disk, fs.ino, fs.alloc, inum)
    }

    ghost predicate OthersKept(disk0: Disk, ino0: map<int, Inode>)
      requires fs.Valid()
      reads this, fs
    {
      forall j :: j in fs.ino && j != inum ==>
        && j in ino0 && fs.ino[j] == ino0[j] && Content(fs.disk, fs.ino[j]) == Content(disk0, fs.ino[j])
    }

    /** One turn of filewrite's loop. */
    method WriteNext(src: seq<Byte>, i: nat, ghost disk0: Disk, ghost ino0: map<int, Inode>, ghost alloc0: set<int>,
                     ghost off0: int, ghost w: int) returns (r: Option<int>)
      requires i < |src| && i % CHUNK == 0 && inum in ino0 && InodeOk(ino0[inum]) && 0 <= off0
      requires Written(disk0, ino0, alloc0, off0, src, i)
      requires w == Accepted(off0, ino0[inum].size, |src|) && i <= w
      modifies this, fs
      ensures r.None? ==> && fs.Full() && w > 0
                          && Left(fs.sb, alloc0) < WriteNeed(disk0, ino0[inum], off0 / BSIZE,
                                                             (off0 + w - 1) / BSIZE + 1)
      ensures r.Some? ==> Transaction(fs.sb, old(fs.disk), fs.disk, fs.logged)
      ensures r == Some(-1) ==> && Written(disk0, ino0, alloc0, off0, src, i) && i == w
                                && Refused(Min(CHUNK, |src| - i))
      ensures r.Some? && r.value != -1 ==>
                && r.value == Min(CHUNK, |src| - i) && i + r.value <= w
                && Written(disk0, ino0, alloc0, off0, src, i + r.value)
    {
      hide RefsOk, BitsOk, FileOk, Content, Overwrite, WriteNeed, Left, Covered, Stay, Replaced, Taken, Noted, MappedTo,
           Accepted, FileSystem.Valid, Transaction;
      var n1 := if |src| - i > CHUNK then CHUNK else |src| - i;
      Position(disk0, ino0, alloc0, off0, src, i);
      AcceptedChunk(off0, ino0[inum].size, |src|, i, n1);
      ghost var disk1, ino1, alloc1 := fs.disk, fs.ino, fs.alloc;
      r := WriteChunk(src[i..i + n1]);
      if r.None? {
        TakenShort(fs.sb, disk0, ino0, alloc0, off0, i, n1, w, disk1, ino1, alloc1, inum);
      } else if r.value != -1 {
        TakenMore(fs.sb, disk0, ino0, alloc0, off0, i, n1, disk1, ino1, alloc1, fs.disk, fs.ino, fs.alloc, inum);
        ReplacedMore(disk0, ino0[inum], off0, src, i, n1, disk1, ino1[inum], fs.disk, fs.ino[inum]);
      }
    }

    lemma Position(disk0: Disk, ino0: map<int, Inode>, alloc0: set<int>, off0: int, src: seq<Byte>, i: nat)
      requires i <= |src| && inum in ino0 && 0 <= ino0[inum].size && 0 <= off0
      requires Written(disk0, ino0, alloc0, off0, src, i)
      ensures off0 <= ino0[inum].size ==> off <= fs.ino[inum].size
      ensures off0 > ino0[inum].size ==> i == 0 && fs.ino == ino0
      ensures MappedTo(fs.disk, fs.ino[inum], fs.ino[inum].size) && InodeOk(fs.ino[inum])
    {
      hide RefsOk, BitsOk, MappedTo, Saved, Content, Overwrite;
    }

    /** The FD_INODE case of filewrite: the first `done` bytes of src are in the file at the
        old offset, one transaction per chunk. They are the ones writei takes; None is balloc's
        panic, exactly if these need more blocks than are free. `ds` are the disks before,
        between and after the transactions. */
    method Write(src: seq<Byte>)
      returns (ret: Option<int>, ghost done: nat, ghost txs: seq<set<int>>, ghost ds: seq<Disk>)
      requires Ready() && |src| < 0x8000_0000
      modifies this, fs
      ensures |ds| == |txs| + 1 && ds[0] == old(fs.disk) && (ret.Some? ==> ds[|txs|] == fs.disk)
      ensures forall k :: 0 <= k < |txs| ==> Transaction(fs.sb, ds[k], ds[k + 1], txs[k])
      ensures ret.None? ==> fs.Full()
      ensures var w := Accepted(old(off), old(fs.ino[inum].size), |src|);
              && (ret.None? <==> w > 0 && Left(fs.sb, old(fs.alloc)) < old(Need(w)))
              && (ret.Some? ==> done == w)
              && (ret.Some? && w > 0 ==> Left(fs.sb, fs.alloc) == Left(fs.sb, old(fs.alloc)) - old(Need(w)))
      ensures ret.Some? ==> && Ready() && done <= |src| && off == old(off) + done
                            && ret.value == (if done == |src| then |src| else -1)
                            && (done < |src| ==> Refused(Min(CHUNK, |src| - done)))
                            && (if old(off) <= old(fs.ino[inum].size) then
                                  Bytes() == Overwrite(old(Bytes()), old(off), src[..done])
                                else done == 0 && Bytes() == old(Bytes()))
      ensures ret.Some? ==> OthersKept(old(fs.disk), old(fs.ino))
      ensures ret.Some? ==> && fs.ino[inum].kind == old(fs.ino)[inum].kind
                            && fs.ino[inum].links == old(fs.ino)[inum].links
                            && fs.ino[inum].size == if done > 0 then Max(old(fs.ino)[inum].size, old(off) + done)
                                                    else old(fs.ino)[inum].size
    {
      hide RefsOk, BitsOk, FileOk, Content, Overwrite, WriteNeed, Left, Covered, Stay, OthersKept, Written, Accepted,
           FileSystem.Valid, Transaction;
      var i := 0;
      done, txs, ds := 0, [], [fs.disk];
      SizeInRange();
      ghost var w := Accepted(off, fs.ino[inum].size, |src|);
      NothingWritten(src);
      while i < |src|
        invariant 0 <= i <= |src| && done == i && Written(old(fs.disk), old(fs.ino), old(fs.alloc), old(off), src, i)
        invariant |ds| == |txs| + 1 && ds[0] == old(fs.disk) && ds[|txs|] == fs.disk
        invariant forall k :: 0 <= k < |txs| ==> Transaction(fs.sb, ds[k], ds[k + 1], txs[k])
        invariant i <= w && (i % CHUNK == 0 || i == |src|)
      {
        var r := WriteNext(src, i, old(fs.disk), old(fs.ino), old(fs.alloc), old(off), w);
        if r.None? {
          return None, done, txs, ds;
        }
        txs, ds := txs + [fs.logged], ds + [fs.disk];
        if r.value < 0 {
          break;
        }
        assert r.value == Min(CHUNK, |src| - i);  // panic("short filewrite")
        NextStart(i, |src|, r.value);
        i := i + r.value;
        done := i;
      }
      WrittenAll(old(fs.disk), old(fs.ino), old(fs.alloc), old(off), src, i);
      ret := Some(if i == |src| then |src| else -1);
    }

    lemma NothingWritten(src: seq<Byte>)
      requires Ready()
      ensures 0 <= fs.ino[inum].size && Written(fs.disk, fs.ino, fs.alloc, off, src, 0)
    {
      hide RefsOk, BitsOk, FileOk, Overwrite;
      SizeInRange();
      if off <= fs.ino[inum].size {
        OverwriteNone(Bytes(), off, src[..0]);
      }
    }

    lemma WrittenAll(disk0: Disk, ino0: map<int, Inode>, alloc0: set<int>, off0: int, src: seq<Byte>, i: nat)
      requires i <= |src| && inum in ino0 && 0 <= ino0[inum].size && 0 <= off0
      requires Written(disk0, ino0, alloc0, off0, src, i)
      ensures Ready() && off == off0 + i && OthersKept(disk0, ino0)
      ensures if off0 <= ino0[inum].size then Bytes() == Overwrite(Content(disk0, ino0[inum]), off0, src[..i])
              else i == 0 && Bytes() == Content(disk0, ino0[inum])
      ensures fs.ino[inum].kind == ino0[inum].kind && fs.ino[inum].links == ino0[inum].links
      ensures fs.ino[inum].size == if i > 0 then Max(ino0[inum].size, off0 + i) else ino0[inum].size
      ensures i > 0 ==> && InodeOk(ino0[inum]) && Left(fs.sb, fs.alloc) >= 0
                        && Left(fs.sb, fs.alloc) == Left(fs.sb, alloc0)
                           - WriteNeed(disk0, ino0[inum], off0 / BSIZE, (off0 + i - 1) / BSIZE + 1)
    {
      hide RefsOk, BitsOk, FileOk, Content, Overwrite, WriteNeed, Left, Covered;
      if i > 0 {
        CoveredLeft(disk0, ino0[inum], Left(fs.sb, alloc0), fs.disk, fs.ino[inum], Left(fs.sb, fs.alloc), off0 / BSIZE,
                    (off - 1) / BSIZE + 1);
        LeftInRange(fs.sb, fs.disk, fs.alloc);
      }
    }

    lemma SizeInRange()
      requires Ready()
      ensures InodeOk(fs.ino[inum]) && 0 <= fs.ino[inum].size <= MAXFILE * BSIZE
    {
      hide RefsOk, BitsOk;
    }
  }
}
