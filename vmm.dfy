/** Sv32 address translation (section 4.3.2 of the RISC-V Privileged ISA, version 20190608):
    the page-table-entry and virtual-address views, the two-level page walk and the
    one-entry translation cache kept for each (privilege, access type) pair. */
module Sv32 {
  import opened Words
  import opened Traps
  import opened Physical
  import opened Harts

  // The page size is 4096 bytes and a page-table entry 4 bytes; a cache entry compares and
  // supplies the page-number bits 0xFFFF_F000 of an address. These are written as literals
  // below.

  // Page-table-entry views. The source shifts arithmetically; every view masks the shifted
  // entry to a field that lies below the sign bit's copies, so a logical shift gives the same.

  predicate PteValid(e: Word)
  {
    e & 1 == 1
  }

  /** The permission bits: R is bit 0 of the field, W bit 1, X bit 2. Zero marks a branch. */
  function Xwr(e: Word): (r: Word)
    ensures r < 8
  {
    (e >> 1) & 7
  }

  predicate PteUser(e: Word)
  {
    (e >> 4) & 1 == 1
  }

  function Ppn0(e: Word): (r: Word)
    ensures r < 0x400
  {
    (e >> 10) & 0x3FF
  }

  function Ppn1(e: Word): (r: Word)
    ensures r < 0x1000
  {
    (e >> 20) & 0xFFF
  }

  function Ppn(e: Word): (r: Word)
    ensures r < 0x40_0000
    ensures r == (Ppn1(e) << 10) | Ppn0(e)
  {
    (e >> 10) & 0x3F_FFFF
  }

  // Virtual-address views.

  function PageOffset(a: Word): (r: Word)
    ensures r < 0x1000
  {
    a & 0xFFF
  }

  function Vpn0(a: Word): (r: Word)
    ensures r < 0x400
  {
    (a >> 12) & 0x3FF
  }

  function Vpn1(a: Word): (r: Word)
    ensures r < 0x400 && r == a >> 22
  {
    (a >> 22) & 0x3FF
  }

  /** The three views cover the address: offset, vpn0 and vpn1 put back together give it. */
  lemma VirtualAddressParts(a: Word)
    ensures (Vpn1(a) << 22) | (Vpn0(a) << 12) | PageOffset(a) == a
  {
  }

  /** The trap a failed translation raises: its cause follows the access type, its pc is the
      hart's pc and its value the virtual address. */
  function PageFault(pc: Word, address: Word, rwx: nat): (t: Trap)
    ensures t.pc == pc && t.value == address
    ensures t.kind == InstructionPageFault <==> rwx == EXECUTE
    ensures t.kind == StoreOrAMOPageFault <==> rwx == WRITE
  {
    var kind :=
      if rwx == EXECUTE then InstructionPageFault
      else if rwx == WRITE then StoreOrAMOPageFault
      else LoadPageFault;
    Trap(kind, pc, address)
  }

  /** The leaf entry a walk ends at, and whether it was found at level 1 (a 4 MiB superpage). */
  datatype Leaf = Leaf(pte: Word, superpage: bool)

  /** The address of the level-1 entry for `address` under the root page `satpPpn`. */
  function RootEntryAddress(satpPpn: Word, address: Word): Word
  {
    satpPpn * 4096 + Vpn1(address) * 4
  }

  /** The address of the level-0 entry for `address` under the branch entry `e`. */
  function BranchEntryAddress(e: Word, address: Word): Word
  {
    Ppn(e) * 4096 + Vpn0(address) * 4
  }

  /** The structural part of `traversePages`: read the level-1 entry; an invalid one faults;
      a branch (XWR = 0) leads to the level-0 entry, which faults when invalid or itself a
      branch; a level-1 leaf faults unless its ppn0 is zero (a misaligned superpage). */
  function FindLeaf(mem: Memory, satpPpn: Word, address: Word): (r: Option<Leaf>)
    ensures r.Some? ==> PteValid(r.value.pte) && Xwr(r.value.pte) != 0
    ensures r.Some? && r.value.superpage ==> Ppn0(r.value.pte) == 0
  {
    var l1 := Load32(mem, RootEntryAddress(satpPpn, address));
    if !PteValid(l1) then None
    else if Xwr(l1) == 0 then
      var l0 := Load32(mem, BranchEntryAddress(l1, address));
      if !PteValid(l0) || Xwr(l0) == 0 then None else Some(Leaf(l0, false))
    else if Ppn0(l1) != 0 then None
    else Some(Leaf(l1, true))
  }

  /** The access and privilege checks on the leaf: the access type's XWR bit must be set;
      user mode needs the U bit; supervisor mode may touch a U page only with SUM set and
      never to execute from it. */
  predicate Permitted(pte: Word, priv: nat, sum: Word, rwx: nat)
    requires priv <= SUPERVISOR && rwx <= EXECUTE
  {
    Shl(1, rwx as Word) & Xwr(pte) != 0
    && (priv == USER ==> PteUser(pte))
    && (priv == SUPERVISOR && PteUser(pte) ==> sum != 0 && rwx != EXECUTE)
  }

  /** What `Permitted` demands, in terms of the entry's bits (section 4.3.1 of the RISC-V
      Privileged ISA: R is bit 1, W bit 2, X bit 3, U bit 4): each access kind needs its own
      bit; a user access needs U; a supervisor access to a U page needs SUM and is never an
      instruction fetch. */
  lemma PermittedBits(pte: Word, priv: nat, sum: Word, rwx: nat)
    requires priv <= SUPERVISOR && rwx <= EXECUTE
    requires Permitted(pte, priv, sum, rwx)
    ensures rwx == READ ==> pte & 2 != 0
    ensures rwx == WRITE ==> pte & 4 != 0
    ensures rwx == EXECUTE ==> pte & 8 != 0
    ensures priv == USER ==> pte & 0x10 != 0
    ensures priv == SUPERVISOR && pte & 0x10 != 0 ==> sum != 0 && rwx != EXECUTE
  {
  }

  /** The physical address `traversePages` forms from the leaf, as written: the page offset,
      ppn0 at bit 12 and ppn1 at bit 22. For a superpage ppn0 is zero, so the virtual
      address's vpn0 is lost. */
  function LeafAddressAsWritten(leaf: Leaf, address: Word): Word
  {
    PageOffset(address) | (Ppn0(leaf.pte) << 12) | (Ppn1(leaf.pte) << 22)
  }

  /** The physical address of section 4.3.2, step 8: a superpage takes vpn0 from the virtual
      address. */
  function LeafAddress(leaf: Leaf, address: Word): Word
  {
    if leaf.superpage then PageOffset(address) | (Vpn0(address) << 12) | (Ppn1(leaf.pte) << 22)
    else PageOffset(address) | (Ppn0(leaf.pte) << 12) | (Ppn1(leaf.pte) << 22)
  }

  /** `traversePages` as written. */
  function WalkAsWritten(mem: Memory, satpPpn: Word, priv: nat, sum: Word, pc: Word, address: Word, rwx: nat): (r: Result<Word>)
    requires priv <= SUPERVISOR && rwx <= EXECUTE
    ensures r.Err? ==> r.trap == PageFault(pc, address, rwx)
  {
    match FindLeaf(mem, satpPpn, address)
    case None => Err(PageFault(pc, address, rwx))
    case Some(leaf) =>
      if !Permitted(leaf.pte, priv, sum, rwx) then Err(PageFault(pc, address, rwx))
      else Ok(LeafAddressAsWritten(leaf, address))
  }

  /** `traversePages` with the superpage address corrected; the translation the rest of the
      model uses. Every failure is the same page fault, so the order of the checks does not
      show in the result. */
  function Walk(mem: Memory, satpPpn: Word, priv: nat, sum: Word, pc: Word, address: Word, rwx: nat): (r: Result<Word>)
    requires priv <= SUPERVISOR && rwx <= EXECUTE
    ensures r.Err? ==> r.trap == PageFault(pc, address, rwx)
    ensures r.Ok? <==> FindLeaf(mem, satpPpn, address).Some? && Permitted(FindLeaf(mem, satpPpn, address).value.pte, priv, sum, rwx)
  {
    match FindLeaf(mem, satpPpn, address)
    case None => Err(PageFault(pc, address, rwx))
    case Some(leaf) =>
      if !Permitted(leaf.pte, priv, sum, rwx) then Err(PageFault(pc, address, rwx))
      else Ok(LeafAddress(leaf, address))
  }

  /** The address formed from a leaf keeps the page offset and lies in the leaf's frame:
      the 20-bit ppn for a 4 KiB page; ppn1 and the virtual address's own vpn0 for a
      superpage. */
  lemma LeafFrame(leaf: Leaf, address: Word)
    ensures var pa := LeafAddress(leaf, address);
      PageOffset(pa) == PageOffset(address)
      && (!leaf.superpage ==> pa >> 12 == Ppn(leaf.pte) & 0xF_FFFF)
      && (leaf.superpage ==> Vpn0(pa) == Vpn0(address) && pa >> 22 == Ppn1(leaf.pte) & 0x3FF)
  {
    if leaf.superpage {
      SuperpageFrame(leaf.pte, address);
    } else {
      PageFrame(leaf.pte, address);
    }
  }

  /** A walk that finds a permitted leaf translates to the address formed from it. */
  lemma WalkLeaf(mem: Memory, satpPpn: Word, priv: nat, sum: Word, pc: Word, address: Word, rwx: nat, leaf: Leaf)
    requires priv <= SUPERVISOR && rwx <= EXECUTE
    requires FindLeaf(mem, satpPpn, address) == Some(leaf) && Permitted(leaf.pte, priv, sum, rwx)
    ensures Walk(mem, satpPpn, priv, sum, pc, address, rwx) == Ok(LeafAddress(leaf, address))
  {
  }

  lemma SuperpageFrame(pte: Word, address: Word)
    ensures var pa := LeafAddress(Leaf(pte, true), address);
      PageOffset(pa) == PageOffset(address) && Vpn0(pa) == Vpn0(address) && pa >> 22 == Ppn1(pte) & 0x3FF
  {
  }

  lemma PageFrame(pte: Word, address: Word)
    ensures var pa := LeafAddress(Leaf(pte, false), address);
      PageOffset(pa) == PageOffset(address) && pa >> 12 == Ppn(pte) & 0xF_FFFF
  {
  }

  /** The as-written walk maps every address of a superpage to its first 4 KiB page: with a
      root table at 0 whose first entry is a user-readable superpage at physical 0, the
      virtual address 0x1000 translates to 0 instead of 0x1000. */
  lemma SuperpageDropsVpn0()
    ensures var m: Memory := a => if a == 0 then 0x1F else 0;
      WalkAsWritten(m, 0, USER, 0, 0, 0x1000, READ) == Ok(0)
      && Walk(m, 0, USER, 0, 0, 0x1000, READ) == Ok(0x1000)
  {
    var m: Memory := a => if a == 0 then 0x1F else 0;
    assert Load32(m, RootEntryAddress(0, 0x1000)) == 0x1F by {
      assert RootEntryAddress(0, 0x1000) == 0;
      assert Load16(m, 0) == 0x1F && Load16(m, 2) == 0;
    }
    assert FindLeaf(m, 0, 0x1000) == Some(Leaf(0x1F, true));
  }

  /** A cache entry (`PageTableCache`): the virtual and physical page bits of one translation. */
  datatype CacheEntry = CacheEntry(src: Word, dest: Word)

  /** A new entry keeps only the page bits of both addresses. */
  function MakeEntry(address: Word, pa: Word): (c: CacheEntry)
    ensures c.src & 0xFFF == 0 && c.dest & 0xFFF == 0
  {
    CacheEntry(address & 0xFFFF_F000, pa & 0xFFFF_F000)
  }

  predicate Matches(c: CacheEntry, address: Word)
  {
    address & 0xFFFF_F000 == c.src
  }

  function CacheTranslate(c: CacheEntry, address: Word): Word
  {
    (address & 0xFFF) | c.dest
  }

  /** The entry made from a translation replays it for the address it was made from and
      matches every address of the same 4 KiB page. */
  lemma EntryReplays(address: Word, pa: Word)
    requires PageOffset(pa) == PageOffset(address)
    ensures Matches(MakeEntry(address, pa), address)
    ensures CacheTranslate(MakeEntry(address, pa), address) == pa
  {
  }

  /** An entry matches exactly the addresses of its 4 KiB page. */
  lemma EntryPage(address: Word, pa: Word, other: Word)
    ensures Matches(MakeEntry(address, pa), other) ==> other >> 12 == address >> 12
    ensures other >> 12 == address >> 12 ==> Matches(MakeEntry(address, pa), other)
  {
    SamePageBits(address, other);
  }

  lemma SamePageBits(address: Word, other: Word)
    ensures other & 0xFFFF_F000 == address & 0xFFFF_F000 <==> other >> 12 == address >> 12
  {
  }

  /** The initial entry (0, 0) translates every address of page 0 to itself. */
  lemma InitialEntryIdentity(address: Word)
    requires address < 4096
    ensures Matches(CacheEntry(0, 0), address) && CacheTranslate(CacheEntry(0, 0), address) == address
  {
  }

  /** The virtual memory manager: the translation cache, one entry for each privilege mode
      (user, supervisor) and access type (read, write, execute). The physical memory it
      reads page tables from is passed to each translation. */
  class Vmm {
    const cache: array2<CacheEntry>

    ghost predicate Valid()
      reads this
    {
      cache.Length0 == 2 && cache.Length1 == 3
    }

    /** Every entry starts as (0, 0). */
    constructor ()
      ensures Valid() && fresh(cache)
      ensures forall i, j :: 0 <= i < 2 && 0 <= j < 3 ==> cache[i, j] == CacheEntry(0, 0)
    {
      cache := new CacheEntry[2, 3]((_, _) => CacheEntry(0, 0));
    }

    /** What `translate` returns for hart `h` in the current cache state: the cached
        translation on a hit, the page walk's result on a miss. */
    function Translation(h: Hart, mem: Memory, address: Word, rwx: nat): Result<Word>
      requires Valid() && h.priv <= SUPERVISOR && rwx <= EXECUTE
      reads this, cache, h
    {
      var c := cache[h.priv, rwx];
      if Matches(c, address) then Ok(CacheTranslate(c, address))
      else Walk(mem, h.satpPpn, h.priv, h.status.sum, h.pc, address, rwx)
    }

    /** The cache after a translation of `address` that returned `r`: a miss that succeeded
        replaced the entry for (priv, rwx); every other entry, and the entry after a hit or
        a fault, is as before. */
    twostate predicate CacheUpdated(priv: nat, rwx: nat, address: Word, r: Result<Word>)
      requires Valid() && priv <= SUPERVISOR && rwx <= EXECUTE
      reads this, cache
    {
      cache[priv, rwx] ==
        (if !old(Matches(cache[priv, rwx], address)) && r.Ok? then MakeEntry(address, r.value)
         else old(cache[priv, rwx]))
      && forall i, j :: 0 <= i < 2 && 0 <= j < 3 && (i != priv || j != rwx) ==> cache[i, j] == old(cache[i, j])
    }

    /** `translate`: a hit answers from the cache; a miss walks the page table and, only
        when the walk succeeds, replaces the entry for (privilege, access type). No other
        entry changes. */
    method Translate(h: Hart, mem: Memory, address: Word, rwx: nat) returns (r: Result<Word>)
      requires Valid() && h.priv <= SUPERVISOR && rwx <= EXECUTE
      modifies cache
      ensures r == old(Translation(h, mem, address, rwx))
      ensures CacheUpdated(h.priv, rwx, address, r)
    {
      var c := cache[h.priv, rwx];
      if Matches(c, address) {
        return Ok(CacheTranslate(c, address));
      }
      r := Walk(mem, h.satpPpn, h.priv, h.status.sum, h.pc, address, rwx);
      if r.Ok? {
        cache[h.priv, rwx] := MakeEntry(address, r.value);
      }
    }
  }
}
