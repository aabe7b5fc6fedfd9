/** The MMU every hart accesses memory through (`MMU.kt`): address translation, the
    reservation word of LR/SC, and the fetch, read and write wrappers. The physical
    address space is the flat byte store of `Physical`; the routing of physical
    addresses to devices (`PhysicalMemorySpace`) is not part of this model. */
module Mmus {
  import opened Words
  import opened Traps
  import opened Physical
  import opened Harts
  import opened Sv32

  /** The reservation granule of an address: its 16-byte-aligned base. */
  function Granule(a: Word): (g: Word)
    ensures g & 0xF == 0
  {
    a & 0xFFFF_FFF0
  }

  /** Two addresses share a granule exactly when they agree above bit 3. */
  lemma SameGranule(a: Word, b: Word)
    ensures Granule(a) == Granule(b) ==> a >> 4 == b >> 4
    ensures a >> 4 == b >> 4 ==> Granule(a) == Granule(b)
  {
    GranuleBits(a, b);
  }

  lemma GranuleBits(a: Word, b: Word)
    ensures a & 0xFFFF_FFF0 == b & 0xFFFF_FFF0 <==> a >> 4 == b >> 4
  {
  }

  /** The reservation word after an access at `a` (`handle_reservation`, and the update of
      `reservationValid`): compare-and-clear against the access's granule. */
  function AfterAccess(reservation: Word, a: Word): (r: Word)
    ensures reservation == Granule(a) ==> r == 0
    ensures reservation != Granule(a) ==> r == reservation
  {
    if reservation == Granule(a) then 0 else reservation
  }

  /** The cleared reservation is the word 0, which is also the granule of addresses 0..15:
      once cleared, a reservation still validates, and an access still clears, any address
      of the first granule. */
  lemma ClearedReservationMatchesFirstGranule(a: Word)
    requires a < 16
    ensures Granule(a) == 0 && AfterAccess(0, a) == 0
  {
  }

  /** A reservation set at `a` is cleared by an access anywhere in the same granule and
      survives an access in any other granule. */
  lemma ReservationGranule(a: Word, b: Word)
    ensures a >> 4 == b >> 4 ==> AfterAccess(Granule(a), b) == 0
    ensures a >> 4 != b >> 4 ==> AfterAccess(Granule(a), b) == Granule(a)
  {
    SameGranule(a, b);
  }

  class Mmu {
    var mem: Memory
    const vmm: Vmm
    var reservation: Word

    ghost predicate Valid()
      reads this, vmm
    {
      vmm.Valid()
    }

    /** An MMU over physical memory `mem`, with an empty reservation. */
    constructor (mem: Memory)
      ensures Valid() && fresh(vmm) && fresh(vmm.cache)
      ensures this.mem == mem && reservation == 0
    {
      this.mem := mem;
      vmm := new Vmm();
      reservation := 0;
    }

    /** `translate`: the identity above supervisor mode and when `satp_mode` is 0 (bare);
        Sv32 translation otherwise. */
    function Translation(h: Hart, address: Word, access: nat): (r: Result<Word>)
      requires Valid() && access <= EXECUTE
      reads this, vmm, vmm.cache, h
      ensures h.priv > SUPERVISOR || h.satpMode == 0 ==> r == Ok(address)
    {
      if h.priv > SUPERVISOR then Ok(address)
      else if h.satpMode == 0 then Ok(address)
      else vmm.Translation(h, mem, address, access)
    }

    /** Whether `translate` goes through the virtual memory manager for hart `h`. */
    predicate Translates(h: Hart)
      reads h
    {
      h.priv <= SUPERVISOR && h.satpMode != 0
    }

    /** The cache entries of every access type other than `access` are as before. */
    twostate predicate OtherEntriesKept(access: nat)
      reads this, vmm, vmm.cache
    {
      forall i, j :: 0 <= i < vmm.cache.Length0 && 0 <= j < vmm.cache.Length1 && j != access ==>
        vmm.cache[i, j] == old(vmm.cache[i, j])
    }

    /** `translate` followed by `handle_reservation` on the untranslated address: every
        access clears a reservation on its granule, but only once translation succeeded.
        Memory is unchanged, and the translation cache changes only as `Vmm.Translate`
        changes it. */
    method Access(h: Hart, offset: Word, access: nat) returns (r: Result<Word>)
      requires Valid() && access <= EXECUTE
      modifies this, vmm.cache
      ensures Valid() && mem == old(mem)
      ensures r == old(Translation(h, offset, access))
      ensures reservation == if r.Ok? then AfterAccess(old(reservation), offset) else old(reservation)
      ensures Translates(h) ==> vmm.CacheUpdated(h.priv, access, offset, r)
      ensures !Translates(h) ==> unchanged(vmm.cache)
      ensures OtherEntriesKept(access)
    {
      if h.priv > SUPERVISOR || h.satpMode == 0 {
        r := Ok(offset);
      } else {
        r := vmm.Translate(h, mem, offset, access);
      }
      if r.Ok? {
        reservation := AfterAccess(reservation, offset);
      }
    }

    /** `setReservation`: reserve the granule of `address`. */
    method SetReservation(address: Word)
      modifies this
      ensures reservation == Granule(address) && mem == old(mem)
    {
      reservation := Granule(address);
    }

    /** `reservationValid`: true exactly when the reservation is the granule of `address`;
        a success clears it. */
    method ReservationValid(address: Word) returns (ok: bool)
      modifies this
      ensures ok <==> old(reservation) == Granule(address)
      ensures reservation == AfterAccess(old(reservation), address) && mem == old(mem)
    {
      ok := reservation == Granule(address);
      reservation := AfterAccess(reservation, address);
    }

    /** `fetchInstruction`: a 32-bit read translated for execution. */
    method FetchInstruction(h: Hart, offset: Word) returns (r: Result<Word>)
      requires Valid()
      modifies this, vmm.cache
      ensures Valid() && mem == old(mem)
      ensures var t := old(Translation(h, offset, EXECUTE));
        r == if t.Ok? then Ok(Load32(mem, t.value)) else Err(t.trap)
      ensures reservation == if r.Ok? then AfterAccess(old(reservation), offset) else old(reservation)
      ensures Translates(h) ==> vmm.CacheUpdated(h.priv, EXECUTE, offset, old(Translation(h, offset, EXECUTE)))
      ensures !Translates(h) ==> unchanged(vmm.cache)
      ensures OtherEntriesKept(EXECUTE)
    {
      var a := Access(h, offset, EXECUTE);
      if a.Err? {
        return Err(a.trap);
      }
      r := Ok(Load32(mem, a.value));
    }

    method Read8(h: Hart, offset: Word) returns (r: Result<Byte>)
      requires Valid()
      modifies this, vmm.cache
      ensures Valid() && mem == old(mem)
      ensures var t := old(Translation(h, offset, READ));
        r == if t.Ok? then Ok(Load8(mem, t.value)) else Err(t.trap)
      ensures reservation == if r.Ok? then AfterAccess(old(reservation), offset) else old(reservation)
      ensures Translates(h) ==> vmm.CacheUpdated(h.priv, READ, offset, old(Translation(h, offset, READ)))
      ensures !Translates(h) ==> unchanged(vmm.cache)
      ensures OtherEntriesKept(READ)
    {
      var a := Access(h, offset, READ);
      if a.Err? {
        return Err(a.trap);
      }
      r := Ok(Load8(mem, a.value));
    }

    method Read16(h: Hart, offset: Word) returns (r: Result<Half>)
      requires Valid()
      modifies this, vmm.cache
      ensures Valid() && mem == old(mem)
      ensures var t := old(Translation(h, offset, READ));
        r == if t.Ok? then Ok(Load16(mem, t.value)) else Err(t.trap)
      ensures reservation == if r.Ok? then AfterAccess(old(reservation), offset) else old(reservation)
      ensures Translates(h) ==> vmm.CacheUpdated(h.priv, READ, offset, old(Translation(h, offset, READ)))
      ensures !Translates(h) ==> unchanged(vmm.cache)
      ensures OtherEntriesKept(READ)
    {
      var a := Access(h, offset, READ);
      if a.Err? {
        return Err(a.trap);
      }
      r := Ok(Load16(mem, a.value));
    }

    /** A 32-bit read. It leaves the translation of the same address for writing as it
        was, which the read-modify-write of `amo` relies on. */
    method Read32(h: Hart, offset: Word) returns (r: Result<Word>)
      requires Valid()
      modifies this, vmm.cache
      ensures Valid() && mem == old(mem)
      ensures var t := old(Translation(h, offset, READ));
        r == if t.Ok? then Ok(Load32(mem, t.value)) else Err(t.trap)
      ensures reservation == if r.Ok? then AfterAccess(old(reservation), offset) else old(reservation)
      ensures Translates(h) ==> vmm.CacheUpdated(h.priv, READ, offset, old(Translation(h, offset, READ)))
      ensures !Translates(h) ==> unchanged(vmm.cache)
      ensures OtherEntriesKept(READ)
      ensures Translation(h, offset, WRITE) == old(Translation(h, offset, WRITE))
    {
      var a := Access(h, offset, READ);
      if a.Err? {
        return Err(a.trap);
      }
      r := Ok(Load32(mem, a.value));
    }

    method Read64(h: Hart, offset: Word) returns (r: Result<Dword>)
      requires Valid()
      modifies this, vmm.cache
      ensures Valid() && mem == old(mem)
      ensures var t := old(Translation(h, offset, READ));
        r == if t.Ok? then Ok(Load64(mem, t.value)) else Err(t.trap)
      ensures reservation == if r.Ok? then AfterAccess(old(reservation), offset) else old(reservation)
      ensures Translates(h) ==> vmm.CacheUpdated(h.priv, READ, offset, old(Translation(h, offset, READ)))
      ensures !Translates(h) ==> unchanged(vmm.cache)
      ensures OtherEntriesKept(READ)
    {
      var a := Access(h, offset, READ);
      if a.Err? {
        return Err(a.trap);
      }
      r := Ok(Load64(mem, a.value));
    }

    /** The writes return the page fault they raised, or `None`. */
    method Write8(h: Hart, offset: Word, value: Byte) returns (fault: Option<Trap>)
      requires Valid()
      modifies this, vmm.cache
      ensures Valid()
      ensures var t := old(Translation(h, offset, WRITE));
        (t.Ok? ==> fault == None && mem == Store8(old(mem), t.value, value))
        && (t.Err? ==> fault == Some(t.trap) && mem == old(mem))
      ensures reservation == if fault.None? then AfterAccess(old(reservation), offset) else old(reservation)
      ensures Translates(h) ==> vmm.CacheUpdated(h.priv, WRITE, offset, old(Translation(h, offset, WRITE)))
      ensures !Translates(h) ==> unchanged(vmm.cache)
      ensures OtherEntriesKept(WRITE)
    {
      var a := Access(h, offset, WRITE);
      if a.Err? {
        return Some(a.trap);
      }
      mem := Store8(mem, a.value, value);
      fault := None;
    }

    method Write16(h: Hart, offset: Word, value: Half) returns (fault: Option<Trap>)
      requires Valid()
      modifies this, vmm.cache
      ensures Valid()
      ensures var t := old(Translation(h, offset, WRITE));
        (t.Ok? ==> fault == None && mem == Store16(old(mem), t.value, value))
        && (t.Err? ==> fault == Some(t.trap) && mem == old(mem))
      ensures reservation == if fault.None? then AfterAccess(old(reservation), offset) else old(reservation)
      ensures Translates(h) ==> vmm.CacheUpdated(h.priv, WRITE, offset, old(Translation(h, offset, WRITE)))
      ensures !Translates(h) ==> unchanged(vmm.cache)
      ensures OtherEntriesKept(WRITE)
    {
      var a := Access(h, offset, WRITE);
      if a.Err? {
        return Some(a.trap);
      }
      mem := Store16(mem, a.value, value);
      fault := None;
    }

    method Write32(h: Hart, offset: Word, value: Word) returns (fault: Option<Trap>)
      requires Valid()
      modifies this, vmm.cache
      ensures Valid()
      ensures var t := old(Translation(h, offset, WRITE));
        (t.Ok? ==> fault == None && mem == Store32(old(mem), t.value, value))
        && (t.Err? ==> fault == Some(t.trap) && mem == old(mem))
      ensures reservation == if fault.None? then AfterAccess(old(reservation), offset) else old(reservation)
      ensures Translates(h) ==> vmm.CacheUpdated(h.priv, WRITE, offset, old(Translation(h, offset, WRITE)))
      ensures !Translates(h) ==> unchanged(vmm.cache)
      ensures OtherEntriesKept(WRITE)
    {
      var a := Access(h, offset, WRITE);
      if a.Err? {
        return Some(a.trap);
      }
      mem := Store32(mem, a.value, value);
      fault := None;
    }

    method Write64(h: Hart, offset: Word, value: Dword) returns (fault: Option<Trap>)
      requires Valid()
      modifies this, vmm.cache
      ensures Valid()
      ensures var t := old(Translation(h, offset, WRITE));
        (t.Ok? ==> fault == None && mem == Store64(old(mem), t.value, value))
        && (t.Err? ==> fault == Some(t.trap) && mem == old(mem))
      ensures reservation == if fault.None? then AfterAccess(old(reservation), offset) else old(reservation)
      ensures Translates(h) ==> vmm.CacheUpdated(h.priv, WRITE, offset, old(Translation(h, offset, WRITE)))
      ensures !Translates(h) ==> unchanged(vmm.cache)
      ensures OtherEntriesKept(WRITE)
    {
      var a := Access(h, offset, WRITE);
      if a.Err? {
        return Some(a.trap);
      }
      mem := Store64(mem, a.value, value);
      fault := None;
    }
  }
}
