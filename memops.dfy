/** The handlers of the instructions that access memory through the MMU: `load`, `store`,
    `load_fp`, `store_fp` and `amo`. An address is translated when it is accessed; a
    page fault ends the instruction with the trap, leaving the registers as they were.
    An undefined `funct3` is illegal before any memory is touched. */
module MemoryOps {
  import opened Words
  import opened Traps
  import opened Instruction
  import opened Alu
  import opened Harts
  import opened States
  import opened Physical
  import opened Mmus
  import opened Fp

  /** The `funct3` values `load` defines: LB, LH, LW, LBU, LHU. */
  predicate IsLoadFunct3(f3: Word)
  {
    f3 == 0 || f3 == 1 || f3 == 2 || f3 == 4 || f3 == 5
  }

  /** LB and LBU on the byte read: `toInt()` sign-extends, and LBU masks the result. */
  function ByteValue(f3: Word, b: Byte): Word
    requires f3 == 0 || f3 == 4
  {
    if f3 == 0 then SignExtend8(b) else SignExtend8(b) & 0xFF
  }

  /** LH and LHU on the half-word read: `toInt()` sign-extends, and LHU masks the result. */
  function HalfValue(f3: Word, v: Half): Word
    requires f3 == 1 || f3 == 5
  {
    if f3 == 1 then SignExtend16(v) else SignExtend16(v) & 0xFFFF
  }

  /** The value `load` writes to `rd` for the physical address `pa`. */
  function LoadValue(f3: Word, m: Memory, pa: Word): Word
    requires IsLoadFunct3(f3)
  {
    if f3 == 2 then Load32(m, pa)
    else if f3 == 0 || f3 == 4 then ByteValue(f3, Load8(m, pa))
    else HalfValue(f3, Load16(m, pa))
  }

  /** LBU zero-extends the byte; LB and LBU both keep it in their low eight bits. */
  lemma ByteExtensions(b: Byte)
    ensures ByteValue(4, b) == b as Word
    ensures Low8(ByteValue(0, b)) == b && Low8(ByteValue(4, b)) == b
  {
    if b < 0x80 {
      assert SignExtend8(b) == b as Word;
    } else {
      assert SignExtend8(b) == (b as Word) | 0xFFFF_FF00;
    }
  }

  /** Sign extension of a half-word keeps it in the low sixteen bits. */
  lemma SignExtend16Low(v: Half)
    ensures SignExtend16(v) & 0xFFFF == v as Word
    ensures Low16(SignExtend16(v)) == v && Low16(v as Word) == v
  {
    if v < 0x8000 {
      assert SignExtend16(v) == v as Word;
    } else {
      assert SignExtend16(v) == (v as Word) | 0xFFFF_0000;
    }
  }

  /** LHU zero-extends the half-word; LH and LHU both keep it in their low sixteen bits. */
  lemma HalfExtensions(v: Half)
    ensures HalfValue(5, v) == v as Word
    ensures Low16(HalfValue(1, v)) == v && Low16(HalfValue(5, v)) == v
  {
    SignExtend16Low(v);
  }

  /** The byte loads of a byte `b` in memory. */
  lemma LoadByte(m: Memory, pa: Word, b: Byte)
    requires Load8(m, pa) == b
    ensures LoadValue(4, m, pa) == b as Word
    ensures Low8(LoadValue(0, m, pa)) == b
  {
    ByteExtensions(b);
  }

  /** The half-word loads of a half-word `v` in memory. */
  lemma LoadHalf(m: Memory, pa: Word, v: Half)
    requires Load16(m, pa) == v
    ensures LoadValue(5, m, pa) == v as Word
    ensures Low16(LoadValue(1, m, pa)) == v
  {
    HalfExtensions(v);
  }

  /** The memory after a store of `funct3` (SB, SH, SW) of `v` at the physical address `pa`:
      `toByte()` and `toShort()` keep the low bits of the register. */
  function StoreEffect(f3: Word, m: Memory, pa: Word, v: Word): Memory
    requires f3 <= 2
  {
    if f3 == 2 then Store32(m, pa, v)
    else if f3 == 0 then Store8(m, pa, Low8(v))
    else Store16(m, pa, Low16(v))
  }

  /** SW read back by LW gives the stored word. */
  lemma LoadAfterStoreWord(m: Memory, pa: Word, v: Word)
    ensures LoadValue(2, StoreEffect(2, m, pa, v), pa) == v
  {
    LoadStore32(m, pa, v);
  }

  /** SB read back by LBU gives the stored byte, and by LB the byte in the low bits. */
  lemma LoadAfterStoreByte(m: Memory, pa: Word, v: Word)
    ensures LoadValue(4, StoreEffect(0, m, pa, v), pa) == Low8(v) as Word
    ensures Low8(LoadValue(0, StoreEffect(0, m, pa, v), pa)) == Low8(v)
  {
    LoadByte(StoreEffect(0, m, pa, v), pa, Low8(v));
  }

  /** SH read back by LHU gives the stored half-word, and by LH the half-word in the low bits. */
  lemma LoadAfterStoreHalf(m: Memory, pa: Word, v: Word)
    ensures LoadValue(5, StoreEffect(1, m, pa, v), pa) == Low16(v) as Word
    ensures Low16(LoadValue(1, StoreEffect(1, m, pa, v), pa)) == Low16(v)
  {
    LoadStore16(m, pa, Low16(v));
    LoadHalf(StoreEffect(1, m, pa, v), pa, Low16(v));
  }

  /** A store of any width leaves every byte outside the stored ones unchanged. */
  lemma StoreLeavesOtherBytes(f3: Word, m: Memory, pa: Word, v: Word, b: Word)
    requires f3 <= 2 && Outside(pa, 4, b)
    ensures ByteAt(StoreEffect(f3, m, pa, v), b) == ByteAt(m, b)
  {
    if f3 == 2 {
      Store32Outside(m, pa, v, b);
    } else if f3 == 1 {
      Store16Outside(m, pa, Low16(v), b);
    }
  }

  /** The read of `load`: the width `funct3` names, through the MMU. */
  method ReadValue(h: Hart, mmu: Mmu, f3: Word, addr: Word) returns (r: Result<Word>)
    requires mmu.Valid() && IsLoadFunct3(f3)
    modifies mmu, mmu.vmm.cache
    ensures mmu.Valid() && mmu.mem == old(mmu.mem)
    ensures var t := old(mmu.Translation(h, addr, READ));
      r == if t.Ok? then Ok(LoadValue(f3, mmu.mem, t.value)) else Err(t.trap)
    ensures mmu.reservation == if r.Ok? then AfterAccess(old(mmu.reservation), addr) else old(mmu.reservation)
  {
    if f3 == 2 {
      r := mmu.Read32(h, addr);
    } else if f3 == 0 || f3 == 4 {
      var b := mmu.Read8(h, addr);
      if b.Err? {
        return Err(b.trap);
      }
      r := Ok(ByteValue(f3, b.value));
    } else {
      var v := mmu.Read16(h, addr);
      if v.Err? {
        return Err(v.trap);
      }
      r := Ok(HalfValue(f3, v.value));
    }
  }

  /** The effective address of a load or of `load_fp`: `rs1` plus the I-immediate. */
  function LoadAddress(instr: Word, base: Word): Word
  {
    base + ImmI(instr)
  }

  /** The effective address of a store or of `store_fp`: `rs1` plus the S-immediate. */
  function StoreAddress(instr: Word, base: Word): Word
  {
    base + ImmS(instr)
  }

  /** `load`: the value of the width `funct3` names, read at `rs1 + imm` through the MMU,
      goes to `rd`; a page fault raises and writes nothing, and an undefined `funct3` is
      illegal and touches nothing. Memory, the FP registers and the CSR state never change. */
  twostate predicate LoadStep(h: Hart, mmu: Mmu, instr: Word, o: Outcome)
    requires old(h.Valid()) && old(mmu.Valid())
    reads h.x, h.d, h.csr, h`cycle, h`status, h`priv, mmu, mmu.vmm.cache
  {
    h.d[..] == old(h.d[..]) && SystemKept(h) && mmu.mem == old(mmu.mem)
    && (!IsLoadFunct3(Funct3(instr)) ==>
          o == Raised(IllegalTrap(old(h.pc), instr)) && h.x[..] == old(h.x[..]) && unchanged(mmu) && unchanged(mmu.vmm.cache))
    && (IsLoadFunct3(Funct3(instr)) ==>
          var addr := LoadAddress(instr, old(h.x[Rs1Index(instr)]));
          var t := old(mmu.Translation(h, addr, READ));
          (t.Err? ==> o == Raised(t.trap) && h.x[..] == old(h.x[..]) && mmu.reservation == old(mmu.reservation))
          && (t.Ok? ==>
                o == Continue && mmu.reservation == AfterAccess(old(mmu.reservation), addr)
                && h.x[..] == SetReg(old(h.x[..]), RdIndex(instr), LoadValue(Funct3(instr), mmu.mem, t.value))))
  }

  /** `load`: read at `rs1 + imm` and write the value to `rd`. The read happens even when
      `rd` is x0. */
  method Load(h: Hart, mmu: Mmu, instr: Word) returns (o: Outcome)
    requires h.Valid() && mmu.Valid()
    modifies h.x, mmu, mmu.vmm.cache
    ensures h.Valid() && mmu.Valid() && LoadStep(h, mmu, instr, o)
  {
    var f3 := Funct3(instr);
    if !IsLoadFunct3(f3) {
      return Raised(IllegalTrap(h.pc, instr));
    }
    var addr := LoadAddress(instr, h.x[Rs1Index(instr)]);
    var r := ReadValue(h, mmu, f3, addr);
    if r.Err? {
      return Raised(r.trap);
    }
    h.SetX(RdIndex(instr), r.value);
    return Continue;
  }

  /** The write of `store`: the width `funct3` names, through the MMU. */
  method WriteValue(h: Hart, mmu: Mmu, f3: Word, addr: Word, v: Word) returns (fault: Option<Trap>)
    requires mmu.Valid() && f3 <= 2
    modifies mmu, mmu.vmm.cache
    ensures mmu.Valid()
    ensures var t := old(mmu.Translation(h, addr, WRITE));
      (t.Ok? ==> fault == None && mmu.mem == StoreEffect(f3, old(mmu.mem), t.value, v))
      && (t.Err? ==> fault == Some(t.trap) && mmu.mem == old(mmu.mem))
    ensures mmu.reservation == if fault.None? then AfterAccess(old(mmu.reservation), addr) else old(mmu.reservation)
    ensures mmu.OtherEntriesKept(WRITE)
  {
    if f3 == 2 {
      fault := mmu.Write32(h, addr, v);
    } else if f3 == 0 {
      fault := mmu.Write8(h, addr, Low8(v));
    } else {
      fault := mmu.Write16(h, addr, Low16(v));
    }
  }

  /** `store`: the low bits of `rs2` of the width `funct3` names are written at `rs1 + imm`
      through the MMU; a page fault raises and writes nothing, and an undefined `funct3` is
      illegal and touches nothing. No register changes. */
  twostate predicate StoreStep(h: Hart, mmu: Mmu, instr: Word, o: Outcome)
    requires old(h.Valid()) && old(mmu.Valid())
    reads h.x, h.d, h.csr, h`cycle, h`status, h`priv, mmu, mmu.vmm.cache
  {
    h.x[..] == old(h.x[..]) && h.d[..] == old(h.d[..]) && SystemKept(h)
    && (Funct3(instr) > 2 ==>
          o == Raised(IllegalTrap(old(h.pc), instr)) && unchanged(mmu) && unchanged(mmu.vmm.cache))
    && (Funct3(instr) <= 2 ==>
          var addr := StoreAddress(instr, old(h.x[Rs1Index(instr)]));
          var t := old(mmu.Translation(h, addr, WRITE));
          (t.Err? ==> o == Raised(t.trap) && MemoryKept(mmu))
          && (t.Ok? ==>
                o == Continue && mmu.reservation == AfterAccess(old(mmu.reservation), addr)
                && mmu.mem == StoreEffect(Funct3(instr), old(mmu.mem), t.value, old(h.x[Rs2Index(instr)]))))
  }

  /** `store`: write the low bits of `rs2` at `rs1 + imm`. */
  method Store(h: Hart, mmu: Mmu, instr: Word) returns (o: Outcome)
    requires h.Valid() && mmu.Valid()
    modifies mmu, mmu.vmm.cache
    ensures mmu.Valid() && StoreStep(h, mmu, instr, o)
  {
    var value := h.x[Rs2Index(instr)];
    var addr := StoreAddress(instr, h.x[Rs1Index(instr)]);
    if Funct3(instr) > 2 {
      return Raised(IllegalTrap(h.pc, instr));
    }
    var fault := WriteValue(h, mmu, Funct3(instr), addr, value);
    if fault.Some? {
      return Raised(fault.value);
    }
    return Continue;
  }

  /** The value `load_fp` writes to `d[rd]` for the physical address `pa`: FLW boxes the
      word it reads as `setf` does, FLD reads all 64 bits. */
  function FpLoadValue(f3: Word, m: Memory, pa: Word): Dword
  {
    if f3 == 2 then NanBox(Load32(m, pa)) else Load64(m, pa)
  }

  /** The read of `load_fp`: the width `funct3` names, through the MMU. */
  method ReadFpValue(h: Hart, mmu: Mmu, f3: Word, addr: Word) returns (r: Result<Dword>)
    requires mmu.Valid() && (f3 == 2 || f3 == 3)
    modifies mmu, mmu.vmm.cache
    ensures mmu.Valid() && mmu.mem == old(mmu.mem)
    ensures var t := old(mmu.Translation(h, addr, READ));
      r == if t.Ok? then Ok(FpLoadValue(f3, mmu.mem, t.value)) else Err(t.trap)
    ensures mmu.reservation == if r.Ok? then AfterAccess(old(mmu.reservation), addr) else old(mmu.reservation)
  {
    if f3 == 2 {
      var w := mmu.Read32(h, addr);
      if w.Err? {
        return Err(w.trap);
      }
      r := Ok(NanBox(w.value));
    } else {
      r := mmu.Read64(h, addr);
    }
  }

  /** `load_fp`: FLW (`funct3` 2) and FLD (3) read at `rs1 + imm` through the MMU into
      `d[rd]`, the word of FLW boxed; a page fault raises and writes nothing, and any other
      `funct3` is illegal and touches nothing. Memory, the integer registers and the CSR
      state never change. */
  twostate predicate LoadFpStep(h: Hart, mmu: Mmu, instr: Word, o: Outcome)
    requires old(h.Valid()) && old(mmu.Valid())
    reads h.x, h.d, h.csr, h`cycle, h`status, h`priv, mmu, mmu.vmm.cache
  {
    h.x[..] == old(h.x[..]) && SystemKept(h) && mmu.mem == old(mmu.mem)
    && (Funct3(instr) != 2 && Funct3(instr) != 3 ==>
          o == Raised(IllegalTrap(old(h.pc), instr)) && h.d[..] == old(h.d[..]) && unchanged(mmu) && unchanged(mmu.vmm.cache))
    && (Funct3(instr) == 2 || Funct3(instr) == 3 ==>
          var addr := LoadAddress(instr, old(h.x[Rs1Index(instr)]));
          var t := old(mmu.Translation(h, addr, READ));
          (t.Err? ==> o == Raised(t.trap) && h.d[..] == old(h.d[..]) && mmu.reservation == old(mmu.reservation))
          && (t.Ok? ==>
                o == Continue && mmu.reservation == AfterAccess(old(mmu.reservation), addr)
                && h.d[..] == old(h.d[..])[RdIndex(instr) := FpLoadValue(Funct3(instr), mmu.mem, t.value)]))
  }

  /** `load_fp`: FLW boxes the word it reads as `setf` does; FLD reads all 64 bits. */
  method LoadFp(h: Hart, mmu: Mmu, instr: Word) returns (o: Outcome)
    requires h.Valid() && mmu.Valid()
    modifies h.d, mmu, mmu.vmm.cache
    ensures h.Valid() && mmu.Valid() && LoadFpStep(h, mmu, instr, o)
  {
    if Funct3(instr) != 2 && Funct3(instr) != 3 {
      return Raised(IllegalTrap(h.pc, instr));
    }
    var addr := LoadAddress(instr, h.x[Rs1Index(instr)]);
    var r := ReadFpValue(h, mmu, Funct3(instr), addr);
    if r.Err? {
      return Raised(r.trap);
    }
    h.SetD(RdIndex(instr), r.value);
    return Continue;
  }

  /** Physical memory after `store_fp` writes `v` at `pa`: FSW its low half, FSD all of it. */
  function FpStoreEffect(f3: Word, m: Memory, pa: Word, v: Dword): Memory
  {
    if f3 == 2 then Store32(m, pa, Low32(v)) else Store64(m, pa, v)
  }

  /** The write of `store_fp`: the width `funct3` names, through the MMU. */
  method WriteFpValue(h: Hart, mmu: Mmu, f3: Word, addr: Word, v: Dword) returns (fault: Option<Trap>)
    requires mmu.Valid() && (f3 == 2 || f3 == 3)
    modifies mmu, mmu.vmm.cache
    ensures mmu.Valid()
    ensures var t := old(mmu.Translation(h, addr, WRITE));
      (t.Ok? ==> fault == None && mmu.mem == FpStoreEffect(f3, old(mmu.mem), t.value, v))
      && (t.Err? ==> fault == Some(t.trap) && mmu.mem == old(mmu.mem))
    ensures mmu.reservation == if fault.None? then AfterAccess(old(mmu.reservation), addr) else old(mmu.reservation)
  {
    if f3 == 2 {
      fault := mmu.Write32(h, addr, Low32(v));
    } else {
      fault := mmu.Write64(h, addr, v);
    }
  }

  /** `store_fp`: FSW writes the low half of `d[rs2]` (`toInt()`), FSD all 64 bits, at
      `rs1 + imm` through the MMU; a page fault raises and writes nothing, and any other
      `funct3` is illegal and touches nothing. No register changes. */
  twostate predicate StoreFpStep(h: Hart, mmu: Mmu, instr: Word, o: Outcome)
    requires old(h.Valid()) && old(mmu.Valid())
    reads h.x, h.d, h.csr, h`cycle, h`status, h`priv, mmu, mmu.vmm.cache
  {
    h.x[..] == old(h.x[..]) && h.d[..] == old(h.d[..]) && SystemKept(h)
    && (Funct3(instr) != 2 && Funct3(instr) != 3 ==>
          o == Raised(IllegalTrap(old(h.pc), instr)) && unchanged(mmu) && unchanged(mmu.vmm.cache))
    && (Funct3(instr) == 2 || Funct3(instr) == 3 ==>
          var addr := StoreAddress(instr, old(h.x[Rs1Index(instr)]));
          var t := old(mmu.Translation(h, addr, WRITE));
          (t.Err? ==> o == Raised(t.trap) && MemoryKept(mmu))
          && (t.Ok? ==>
                o == Continue && mmu.reservation == AfterAccess(old(mmu.reservation), addr)
                && mmu.mem == FpStoreEffect(Funct3(instr), old(mmu.mem), t.value, old(h.d[Rs2Index(instr)]))))
  }

  /** `store_fp`: write `d[rs2]` at `rs1 + imm`. */
  method StoreFp(h: Hart, mmu: Mmu, instr: Word) returns (o: Outcome)
    requires h.Valid() && mmu.Valid()
    modifies mmu, mmu.vmm.cache
    ensures mmu.Valid() && StoreFpStep(h, mmu, instr, o)
  {
    if Funct3(instr) != 2 && Funct3(instr) != 3 {
      return Raised(IllegalTrap(h.pc, instr));
    }
    var addr := StoreAddress(instr, h.x[Rs1Index(instr)]);
    var fault := WriteFpValue(h, mmu, Funct3(instr), addr, h.d[Rs2Index(instr)]);
    if fault.Some? {
      return Raised(fault.value);
    }
    return Continue;
  }

  /** A second access to the address just accessed leaves the reservation as the first did. */
  lemma AfterAccessIdempotent(reservation: Word, a: Word)
    ensures AfterAccess(AfterAccess(reservation, a), a) == AfterAccess(reservation, a)
  {
  }

  /** `amo` (width W only): read the word at `rs1`, store the combination `AmoValue` makes
      with `rs2`, and write the old word to `rd`; any other width is illegal and touches
      nothing. A read fault raises with nothing changed; an undefined `funct5` and a write
      fault come after the read, which has already seen the reservation. The FP registers
      and the CSR state never change. */
  twostate predicate AmoStep(h: Hart, mmu: Mmu, instr: Word, o: Outcome)
    requires old(h.Valid()) && old(mmu.Valid())
    reads h.x, h.d, h.csr, h`cycle, h`status, h`priv, mmu, mmu.vmm.cache
  {
    h.d[..] == old(h.d[..]) && SystemKept(h)
    && (Funct3(instr) != 2 ==>
          o == Raised(IllegalTrap(old(h.pc), instr)) && h.x[..] == old(h.x[..]) && unchanged(mmu) && unchanged(mmu.vmm.cache))
    && (Funct3(instr) == 2 ==>
          var addr := old(h.x[Rs1Index(instr)]);
          var tr := old(mmu.Translation(h, addr, READ));
          var tw := old(mmu.Translation(h, addr, WRITE));
          var res := if tr.Ok? then AmoValue(Funct5(instr), Load32(old(mmu.mem), tr.value), old(h.x[Rs2Index(instr)])) else None;
          (tr.Err? ==> o == Raised(tr.trap) && h.x[..] == old(h.x[..]) && MemoryKept(mmu))
          && (tr.Ok? && res.None? ==>
                o == Raised(IllegalTrap(old(h.pc), instr)) && h.x[..] == old(h.x[..]) && mmu.mem == old(mmu.mem)
                && mmu.reservation == AfterAccess(old(mmu.reservation), addr))
          && (tr.Ok? && res.Some? && tw.Err? ==>
                o == Raised(tw.trap) && h.x[..] == old(h.x[..]) && mmu.mem == old(mmu.mem)
                && mmu.reservation == AfterAccess(old(mmu.reservation), addr))
          && (tr.Ok? && res.Some? && tw.Ok? ==>
                o == Continue && mmu.mem == Store32(old(mmu.mem), tw.value, res.value)
                && mmu.reservation == AfterAccess(old(mmu.reservation), addr)
                && h.x[..] == SetReg(old(h.x[..]), RdIndex(instr), Load32(old(mmu.mem), tr.value))))
  }

  /** The memory access of `amo`: read the word at `addr`, then write the combination
      `AmoValue` makes with `src`. `o` is how the access ended and `prior` the word read;
      an undefined `funct5` is illegal once the read has been made. */
  method AmoAccess(h: Hart, mmu: Mmu, instr: Word, addr: Word, src: Word) returns (o: Outcome, prior: Word)
    requires mmu.Valid()
    modifies mmu, mmu.vmm.cache
    ensures mmu.Valid()
    ensures var tr := old(mmu.Translation(h, addr, READ));
      var tw := old(mmu.Translation(h, addr, WRITE));
      var res := if tr.Ok? then AmoValue(Funct5(instr), Load32(old(mmu.mem), tr.value), src) else None;
      (tr.Err? ==> o == Raised(tr.trap) && MemoryKept(mmu))
      && (tr.Ok? && res.None? ==>
            o == Raised(IllegalTrap(h.pc, instr)) && mmu.mem == old(mmu.mem)
            && mmu.reservation == AfterAccess(old(mmu.reservation), addr))
      && (tr.Ok? && res.Some? && tw.Err? ==>
            o == Raised(tw.trap) && mmu.mem == old(mmu.mem)
            && mmu.reservation == AfterAccess(old(mmu.reservation), addr))
      && (tr.Ok? && res.Some? && tw.Ok? ==>
            o == Continue && prior == Load32(old(mmu.mem), tr.value)
            && mmu.mem == Store32(old(mmu.mem), tw.value, res.value)
            && mmu.reservation == AfterAccess(old(mmu.reservation), addr))
  {
    var mem := mmu.Read32(h, addr);
    if mem.Err? {
      return Raised(mem.trap), 0;
    }
    var res := AmoValue(Funct5(instr), mem.value, src);
    if res.None? {
      return Raised(IllegalTrap(h.pc, instr)), 0;
    }
    var fault := mmu.Write32(h, addr, res.value);
    AfterAccessIdempotent(old(mmu.reservation), addr);
    if fault.Some? {
      return Raised(fault.value), 0;
    }
    return Continue, mem.value;
  }

  /** `amo`: the access, then the old word to `rd` when it completed. */
  method Amo(h: Hart, mmu: Mmu, instr: Word) returns (o: Outcome)
    requires h.Valid() && mmu.Valid()
    modifies h.x, mmu, mmu.vmm.cache
    ensures h.Valid() && mmu.Valid() && AmoStep(h, mmu, instr, o)
  {
    if Funct3(instr) != 2 {
      return Raised(IllegalTrap(h.pc, instr));
    }
    var prior;
    o, prior := AmoAccess(h, mmu, instr, h.x[Rs1Index(instr)], h.x[Rs2Index(instr)]);
    if o == Continue {
      h.SetX(RdIndex(instr), prior);
    }
  }
}
