/** Which disk blocks are in use, and by whom (kernel/fs.c): the free bitmap and the block
  lists of the inodes, as values.
 */
module FsRefs {
  import opened FsBlock

  const NDIRECT := 12
  const NINDIRECT := 256     // BSIZE / sizeof(uint)
  const MAXFILE := 268       // NDIRECT + NINDIRECT
  const IPB := 16            // inodes per block

  /** The slot number that stands for the indirect block itself. */
  const INDIRECT := 268

  /** The super block, with the number of blocks before the first data block. */
  datatype Sb = Sb(size: int, ninodes: int, inodestart: int, bmapstart: int, nmeta: int)

  /** An inode: two words that hold type, major, minor and nlink, then size and block addresses. */
  datatype Inode = Inode(kind: int, links: int, size: int, addrs: seq<int>)

  type Disk = map<int, Block>

  function BBlock(sb: Sb, b: int): int { b / BPB + sb.bmapstart }

  function IBlock(sb: Sb, i: int): int { i / IPB + sb.inodestart }

  /** Super block, inode blocks and bitmap blocks come in this order before the data. */
  ghost predicate Layout(sb: Sb) {
    && 1 < sb.inodestart && 0 < sb.ninodes && IBlock(sb, sb.ninodes - 1) < sb.bmapstart
    && BBlock(sb, sb.size - 1) < sb.nmeta <= sb.size < 0x1_0000_0000
  }

  ghost predicate DiskOk(sb: Sb, disk: Disk) {
    forall b :: 0 <= b < sb.size ==> b in disk && |disk[b]| == BSIZE
  }

  ghost predicate InodesOk(sb: Sb, ino: map<int, Inode>) {
    forall i :: i in ino ==> 0 <= i < sb.ninodes && InodeOk(ino[i])
  }

  ghost predicate InodeOk(ip: Inode) {
    && |ip.addrs| == NDIRECT + 1 && 0 <= ip.size <= MAXFILE * BSIZE
    && 0 <= ip.kind < 0x1_0000_0000 && 0 <= ip.links < 0x1_0000_0000
  }

  lemma BitmapBelow(sb: Sb, b: int)
    requires Layout(sb) && 0 <= b < sb.size
    ensures sb.bmapstart <= BBlock(sb, b) < sb.nmeta && 0 <= b % BPB < BPB
            && b == (BBlock(sb, b) - sb.bmapstart) * BPB + b % BPB
  {
  }

  /** The bitmap says that block b is in use. */
  ghost predicate Used(sb: Sb, disk: Disk, b: int)
    requires Layout(sb) && DiskOk(sb, disk) && 0 <= b < sb.size
  {
    BitmapBelow(sb, b);
    BitOf(disk[BBlock(sb, b)], b % BPB)
  }

  lemma BitAt(sb: Sb, disk: Disk, b: int, bi: int)
    requires Layout(sb) && DiskOk(sb, disk) && 0 <= b && b % BPB == 0 && 0 <= bi < BPB && b + bi < sb.size
    ensures BBlock(sb, b) in disk && |disk[BBlock(sb, b)]| == BSIZE
    ensures Used(sb, disk, b + bi) == BitOf(disk[BBlock(sb, b)], bi)
  {
    hide BitOf;
    BitmapBelow(sb, b);
    assert (b + bi) / BPB == b / BPB && (b + bi) % BPB == bi;
  }

  /** The bitmap marks exactly the metadata and the blocks of `alloc`. */
  ghost predicate BitsOk(sb: Sb, disk: Disk, alloc: set<int>)
    requires Layout(sb) && DiskOk(sb, disk)
  {
    && (forall b :: b in alloc ==> sb.nmeta <= b < sb.size)
    && (forall b :: 0 <= b < sb.size ==> (Used(sb, disk, b) <==> b < sb.nmeta || b in alloc))
  }

  /** The block in slot s of an inode: the s-th block of the file, or its indirect block. */
  ghost function Ref(disk: Disk, ip: Inode, s: int): int {
    if |ip.addrs| != NDIRECT + 1 || s < 0 then 0
    else if s < NDIRECT then ip.addrs[s]
    else if s == INDIRECT then ip.addrs[NDIRECT]
    else if s > INDIRECT || ip.addrs[NDIRECT] == 0 || ip.addrs[NDIRECT] !in disk
        || |disk[ip.addrs[NDIRECT]]| != BSIZE then 0
    else Word(disk[ip.addrs[NDIRECT]], s - NDIRECT)
  }

  ghost predicate SlotOk(sb: Sb, disk: Disk, ip: Inode, owner: map<int, (int, int)>, i: int, s: int) {
    var r := Ref(disk, ip, s);
    r == 0 || (r in owner && owner[r] == (i, s))
  }

  ghost predicate OwnerOk(sb: Sb, disk: Disk, ino: map<int, Inode>, owner: map<int, (int, int)>, b: int)
    requires b in owner
  {
    && sb.nmeta <= b < sb.size && owner[b].0 in ino && 0 <= owner[b].1 <= INDIRECT
    && Ref(disk, ino[owner[b].0], owner[b].1) == b
  }

  /** `owner` inverts the references: every referenced block is referenced from one slot only. */
  ghost predicate RefsOk(sb: Sb, disk: Disk, ino: map<int, Inode>, owner: map<int, (int, int)>) {
    && (forall i, s :: i in ino && 0 <= s <= INDIRECT ==> SlotOk(sb, disk, ino[i], owner, i, s))
    && (forall b :: b in owner ==> OwnerOk(sb, disk, ino, owner, b))
  }

  /** No block is referenced from two places. */
  lemma ReferencedOnce(sb: Sb, disk: Disk, ino: map<int, Inode>, owner: map<int, (int, int)>, i: int, s: int, j: int,
                       u: int)
    requires RefsOk(sb, disk, ino, owner) && i in ino && j in ino && 0 <= s <= INDIRECT && 0 <= u <= INDIRECT
    requires Ref(disk, ino[i], s) == Ref(disk, ino[j], u) != 0
    ensures i == j && s == u && sb.nmeta <= Ref(disk, ino[i], s) < sb.size
  {
    hide Ref;
    assert SlotOk(sb, disk, ino[i], owner, i, s);
    assert SlotOk(sb, disk, ino[j], owner, j, u);
    assert OwnerOk(sb, disk, ino, owner, Ref(disk, ino[i], s));
  }

  lemma RefOk(sb: Sb, disk: Disk, ino: map<int, Inode>, owner: map<int, (int, int)>, i: int, s: int)
    requires RefsOk(sb, disk, ino, owner) && i in ino && 0 <= s <= INDIRECT
    ensures var r := Ref(disk, ino[i], s); r != 0 ==> r in owner && owner[r] == (i, s) && sb.nmeta <= r < sb.size
  {
    hide Ref;
    assert SlotOk(sb, disk, ino[i], owner, i, s);
    assert Ref(disk, ino[i], s) != 0 ==> OwnerOk(sb, disk, ino, owner, Ref(disk, ino[i], s));
  }

  /** References depend on the inode and its indirect block only. */
  lemma RefFrame(disk: Disk, disk': Disk, ip: Inode, s: int)
    requires |ip.addrs| == NDIRECT + 1
    requires var x := ip.addrs[NDIRECT]; x != 0 && x in disk ==> x in disk' && disk'[x] == disk[x]
    requires var x := ip.addrs[NDIRECT]; x != 0 ==> x in disk
    ensures Ref(disk', ip, s) == Ref(disk, ip, s)
  {
  }

  /** Blocks the inodes do not own may change. */
  lemma RefsFrame(sb: Sb, disk: Disk, disk': Disk, ino: map<int, Inode>, owner: map<int, (int, int)>)
    requires Layout(sb) && DiskOk(sb, disk) && DiskOk(sb, disk') && InodesOk(sb, ino) && RefsOk(sb, disk, ino, owner)
    requires forall x :: x in owner && owner[x].1 == INDIRECT && x in disk && x in disk' ==> disk'[x] == disk[x]
    ensures RefsOk(sb, disk', ino, owner)
    ensures forall i, s :: i in ino && 0 <= s <= INDIRECT ==> Ref(disk', ino[i], s) == Ref(disk, ino[i], s)
  {
    hide Ref;
    forall i, s | i in ino && 0 <= s <= INDIRECT
      ensures Ref(disk', ino[i], s) == Ref(disk, ino[i], s) && SlotOk(sb, disk', ino[i], owner, i, s)
    {
      IndirectRef(disk, ino[i]);
      RefOk(sb, disk, ino, owner, i, INDIRECT);
      RefFrame(disk, disk', ino[i], s);
      assert SlotOk(sb, disk, ino[i], owner, i, s);
    }
    forall b | b in owner
      ensures OwnerOk(sb, disk', ino, owner, b)
    {
      assert OwnerOk(sb, disk, ino, owner, b);
      assert SlotOk(sb, disk', ino[owner[b].0], owner, owner[b].0, owner[b].1);
    }
  }

  lemma IndirectRef(disk: Disk, ip: Inode)
    requires |ip.addrs| == NDIRECT + 1
    ensures Ref(disk, ip, INDIRECT) == ip.addrs[NDIRECT]
  {
  }

  lemma DirectRef(disk: Disk, ip: Inode, s: int)
    requires |ip.addrs| == NDIRECT + 1 && 0 <= s < NDIRECT
    ensures Ref(disk, ip, s) == ip.addrs[s]
  {
  }

  lemma EntryOf(disk: Disk, ip: Inode, s: int)
    requires |ip.addrs| == NDIRECT + 1 && NDIRECT <= s < INDIRECT
    requires var x := ip.addrs[NDIRECT]; x != 0 && x in disk && |disk[x]| == BSIZE
    ensures Ref(disk, ip, s) == Word(disk[ip.addrs[NDIRECT]], s - NDIRECT)
  {
  }

  lemma NoEntry(disk: Disk, ip: Inode, s: int)
    requires |ip.addrs| == NDIRECT + 1 && NDIRECT <= s < INDIRECT && ip.addrs[NDIRECT] == 0
    ensures Ref(disk, ip, s) == 0
  {
  }

  // ---------------------------------------------------------------- what marking a block does to the bitmap

  lemma MarkOk(sb: Sb, disk: Disk, alloc: set<int>, b: int, d: Block)
    requires Layout(sb) && DiskOk(sb, disk) && BitsOk(sb, disk, alloc) && sb.nmeta <= b < sb.size && |d| == BSIZE
    requires BBlock(sb, b) in disk && |disk[BBlock(sb, b)]| == BSIZE
    requires forall bj :: 0 <= bj < BPB ==> BitOf(d, bj) == (bj == b % BPB || BitOf(disk[BBlock(sb, b)], bj))
    ensures DiskOk(sb, disk[BBlock(sb, b) := d]) && BitsOk(sb, disk[BBlock(sb, b) := d], alloc + {b})
  {
    hide BitOf;
    var disk' := disk[BBlock(sb, b) := d];
    forall x | 0 <= x < sb.size
      ensures Used(sb, disk', x) <==> x < sb.nmeta || x in alloc + {b}
    {
      BitmapBelow(sb, x);
      assert Used(sb, disk, x) <==> x < sb.nmeta || x in alloc;
    }
  }

  lemma UnmarkOk(sb: Sb, disk: Disk, alloc: set<int>, b: int, d: Block)
    requires Layout(sb) && DiskOk(sb, disk) && BitsOk(sb, disk, alloc) && sb.nmeta <= b < sb.size && |d| == BSIZE
    requires BBlock(sb, b) in disk && |disk[BBlock(sb, b)]| == BSIZE
    requires forall bj :: 0 <= bj < BPB ==> BitOf(d, bj) == (bj != b % BPB && BitOf(disk[BBlock(sb, b)], bj))
    ensures DiskOk(sb, disk[BBlock(sb, b) := d]) && BitsOk(sb, disk[BBlock(sb, b) := d], alloc - {b})
  {
    hide BitOf;
    var disk' := disk[BBlock(sb, b) := d];
    forall x | 0 <= x < sb.size
      ensures Used(sb, disk', x) <==> x < sb.nmeta || x in alloc - {b}
    {
      BitmapBelow(sb, x);
      assert Used(sb, disk, x) <==> x < sb.nmeta || x in alloc;
    }
  }

  /** Only the bitmap blocks matter to the bitmap. */
  lemma BitsFrame(sb: Sb, disk: Disk, disk': Disk, alloc: set<int>)
    requires Layout(sb) && DiskOk(sb, disk) && DiskOk(sb, disk') && BitsOk(sb, disk, alloc)
    requires forall x :: sb.bmapstart <= x < sb.nmeta ==> x in disk && x in disk' && disk'[x] == disk[x]
    ensures BitsOk(sb, disk', alloc)
  {
    hide BitOf;
    forall x | 0 <= x < sb.size
      ensures Used(sb, disk', x) <==> Used(sb, disk, x)
    {
      BitmapBelow(sb, x);
    }
  }

  // ---------------------------------------------------------------- the three ways a block joins a file

  /** The inode after slot s has been given block b, for the slots kept in the inode. */
  function Given(ip: Inode, s: int, b: int): (ip': Inode)
    requires |ip.addrs| == NDIRECT + 1 && (0 <= s < NDIRECT || s == INDIRECT)
    ensures |ip'.addrs| == NDIRECT + 1 && ip'.size == ip.size && ip'.kind == ip.kind && ip'.links == ip.links
  {
    ip.(addrs := ip.addrs[(if s == INDIRECT then NDIRECT else s) := b])
  }

  lemma GivenRef(disk: Disk, ip: Inode, s: int, b: int, u: int)
    requires |ip.addrs| == NDIRECT + 1 && (0 <= s < NDIRECT || s == INDIRECT) && 0 <= u <= INDIRECT
    requires s == INDIRECT ==> ip.addrs[NDIRECT] == 0 && b in disk && disk[b] == Zeroed()
    ensures Ref(disk, Given(ip, s, b), u) == if u == s then b else Ref(disk, ip, u)
  {
  }

  /** A fresh block goes into a slot of the inode; a fresh indirect block must be zeroed. */
  lemma GiveDirect(sb: Sb, disk: Disk, ino: map<int, Inode>, owner: map<int, (int, int)>, i: int, s: int, b: int)
    requires InodesOk(sb, ino) && RefsOk(sb, disk, ino, owner) && i in ino && (0 <= s < NDIRECT || s == INDIRECT)
    requires Ref(disk, ino[i], s) == 0 && 0 < sb.nmeta <= b < sb.size && b !in owner && b in disk && disk[b] == Zeroed()
    ensures var ino' := ino[i := Given(ino[i], s, b)];
            && InodesOk(sb, ino') && RefsOk(sb, disk, ino', owner[b := (i, s)])
            && forall u :: 0 <= u <= INDIRECT ==> Ref(disk, ino'[i], u) == if u == s then b else Ref(disk, ino[i], u)
  {
    hide Ref, Given, Zeroed;
    var ino' := ino[i := Given(ino[i], s, b)];
    var owner' := owner[b := (i, s)];
    IndirectRef(disk, ino[i]);
    forall u | 0 <= u <= INDIRECT
      ensures Ref(disk, ino'[i], u) == if u == s then b else Ref(disk, ino[i], u)
    {
      GivenRef(disk, ino[i], s, b, u);
    }
    forall j, u | j in ino' && 0 <= u <= INDIRECT
      ensures SlotOk(sb, disk, ino'[j], owner', j, u)
    {
      assert SlotOk(sb, disk, ino[j], owner, j, u);
    }
    forall x | x in owner'
      ensures OwnerOk(sb, disk, ino', owner', x)
    {
      if x != b {
        assert OwnerOk(sb, disk, ino, owner, x);
      }
    }
  }

  /** A fresh block goes into an entry of the indirect block. */
  lemma GiveIndirect(sb: Sb, disk: Disk, ino: map<int, Inode>, owner: map<int, (int, int)>, i: int, s: int, b: int,
                     x: int)
    requires Layout(sb) && DiskOk(sb, disk) && InodesOk(sb, ino) && RefsOk(sb, disk, ino, owner)
    requires i in ino && NDIRECT <= s < INDIRECT && x == ino[i].addrs[NDIRECT] != 0 && x in disk && |disk[x]| == BSIZE
    requires Ref(disk, ino[i], s) == 0 && 0 < sb.nmeta <= b < sb.size && b !in owner
    ensures var disk' := disk[x := SetWord(disk[x], s - NDIRECT, b)];
            && RefsOk(sb, disk', ino, owner[b := (i, s)])
            && (forall u :: 0 <= u <= INDIRECT ==> Ref(disk', ino[i], u) == if u == s then b else Ref(disk, ino[i], u))
            && (forall j, u :: j in ino && j != i && 0 <= u <= INDIRECT ==>
                                 Ref(disk', ino[j], u) == Ref(disk, ino[j], u))
  {
    hide Ref, SetWord;
    var disk' := disk[x := SetWord(disk[x], s - NDIRECT, b)];
    var owner' := owner[b := (i, s)];
    IndirectRef(disk, ino[i]);
    forall u | 0 <= u <= INDIRECT
      ensures Ref(disk', ino[i], u) == if u == s then b else Ref(disk, ino[i], u)
    {
      EntryRef(disk, ino[i], s, b, u, x);
    }
    forall j, u | j in ino && 0 <= u <= INDIRECT
      ensures (j != i ==> Ref(disk', ino[j], u) == Ref(disk, ino[j], u)) && SlotOk(sb, disk', ino[j], owner', j, u)
    {
      assert SlotOk(sb, disk, ino[j], owner, j, u);
      if j != i {
        IndirectRef(disk, ino[j]);
        RefOk(sb, disk, ino, owner, i, INDIRECT);
        RefOk(sb, disk, ino, owner, j, INDIRECT);
        RefFrame(disk, disk', ino[j], u);
      }
    }
    forall y | y in owner'
      ensures OwnerOk(sb, disk', ino, owner', y)
    {
      if y != b {
        assert OwnerOk(sb, disk, ino, owner, y);
        assert SlotOk(sb, disk', ino[owner[y].0], owner', owner[y].0, owner[y].1);
      }
    }
  }

  lemma EntryRef(disk: Disk, ip: Inode, s: int, b: int, u: int, x: int)
    requires |ip.addrs| == NDIRECT + 1 && NDIRECT <= s < INDIRECT && 0 <= u <= INDIRECT && 0 <= b < 0x1_0000_0000
    requires x == ip.addrs[NDIRECT] != 0 && x in disk && |disk[x]| == BSIZE
    ensures Ref(disk[x := SetWord(disk[x], s - NDIRECT, b)], ip, u) == if u == s then b else Ref(disk, ip, u)
  {
    hide Word, SetWord;
    if NDIRECT <= u < INDIRECT {
      WordOfSet(disk[x], s - NDIRECT, b, u - NDIRECT);
    }
  }

  // ---------------------------------------------------------------- the two ways blocks leave a file

  /** A slot of the inode is cleared; its block now belongs to nobody. */
  lemma DropDirect(sb: Sb, disk: Disk, ino: map<int, Inode>, owner: map<int, (int, int)>, i: int, s: int, b: int)
    requires InodesOk(sb, ino) && RefsOk(sb, disk, ino, owner) && i in ino && 0 <= s < NDIRECT
             && b == Ref(disk, ino[i], s) != 0
    ensures InodesOk(sb, ino[i := Given(ino[i], s, 0)]) && RefsOk(sb, disk, ino[i := Given(ino[i], s, 0)], owner - {b})
    ensures forall u :: 0 <= u <= INDIRECT ==>
                          Ref(disk, Given(ino[i], s, 0), u) == if u == s then 0 else Ref(disk, ino[i], u)
  {
    hide Ref, Given;
    var ino' := ino[i := Given(ino[i], s, 0)];
    var owner' := owner - {b};
    forall u | 0 <= u <= INDIRECT
      ensures Ref(disk, ino'[i], u) == if u == s then 0 else Ref(disk, ino[i], u)
    {
      GivenRef(disk, ino[i], s, 0, u);
    }
    RefOk(sb, disk, ino, owner, i, s);
    forall j, u | j in ino' && 0 <= u <= INDIRECT
      ensures SlotOk(sb, disk, ino'[j], owner', j, u)
    {
      RefOk(sb, disk, ino, owner, j, u);
    }
    forall x | x in owner'
      ensures OwnerOk(sb, disk, ino', owner', x)
    {
      assert OwnerOk(sb, disk, ino, owner, x);
    }
  }

  /** What is left when every block of inode i is given up. */
  ghost function Without(owner: map<int, (int, int)>, i: int): map<int, (int, int)> {
    map x | x in owner && owner[x].0 != i :: owner[x]
  }

  /** An inode whose direct slots are empty gives up the rest at once. */
  lemma DropRest(sb: Sb, disk: Disk, ino: map<int, Inode>, owner: map<int, (int, int)>, i: int)
    requires InodesOk(sb, ino) && RefsOk(sb, disk, ino, owner) && i in ino
    requires forall s :: 0 <= s < NDIRECT ==> ino[i].addrs[s] == 0
    ensures var ino' := ino[i := Given(ino[i], INDIRECT, 0)];
            InodesOk(sb, ino') && RefsOk(sb, disk, ino', Without(owner, i))
  {
    hide Ref;
    var ino' := ino[i := Given(ino[i], INDIRECT, 0)];
    var owner' := Without(owner, i);
    forall u | 0 <= u <= INDIRECT
      ensures Ref(disk, ino'[i], u) == 0
    {
      Emptied(disk, ino'[i], u);
    }
    forall j, u | j in ino' && 0 <= u <= INDIRECT
      ensures SlotOk(sb, disk, ino'[j], owner', j, u)
    {
      RefOk(sb, disk, ino, owner, j, u);
    }
    forall x | x in owner'
      ensures OwnerOk(sb, disk, ino', owner', x)
    {
      assert OwnerOk(sb, disk, ino, owner, x);
    }
  }

  lemma Emptied(disk: Disk, ip: Inode, u: int)
    requires |ip.addrs| == NDIRECT + 1 && forall s :: 0 <= s <= NDIRECT ==> ip.addrs[s] == 0
    ensures Ref(disk, ip, u) == 0
  {
  }
}
