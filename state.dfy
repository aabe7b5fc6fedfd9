/** The state one instruction can change, other than the pc: the two register files, the
    CSR state (raw slots, cycle counter and `mstatus` fields), the privilege mode, physical
    memory and the reservation word. The predicates here say which parts are as before;
    the effect of each instruction on the other parts is stated by its handler. */
module States {
  import opened Words
  import opened Harts
  import opened Physical
  import opened Mmus

  /** The CSR state and the privilege mode are as before. */
  twostate predicate SystemKept(h: Hart)
    reads h.csr, h`cycle, h`status, h`priv
  {
    h.Csrs() == old(h.Csrs()) && h.priv == old(h.priv)
  }

  /** Physical memory and the reservation are as before. */
  twostate predicate MemoryKept(mmu: Mmu)
    reads mmu
  {
    mmu.mem == old(mmu.mem) && mmu.reservation == old(mmu.reservation)
  }

  /** Everything but the integer registers is as before. */
  twostate predicate OnlyXChanged(h: Hart, mmu: Mmu)
    reads h.d, h.csr, h`cycle, h`status, h`priv, mmu
  {
    h.d[..] == old(h.d[..]) && SystemKept(h) && MemoryKept(mmu)
  }

  /** Nothing an instruction can change has changed. */
  twostate predicate StateKept(h: Hart, mmu: Mmu)
    reads h.x, h.d, h.csr, h`cycle, h`status, h`priv, mmu
  {
    h.x[..] == old(h.x[..]) && OnlyXChanged(h, mmu)
  }
}
