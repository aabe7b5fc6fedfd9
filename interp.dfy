/** The interpreter loops: `Hart.cycle` fetches the instruction at the pc through the MMU and
    executes it; `Hart.interpret` runs a number of cycles and turns the first breakpoint or
    exception into its result; `CPU.interpret` runs whole slices of 16 cycles; and
    `RiscWM.interpret` drives a CPU slice by slice, counting the cycles it ran. */
module Interpreter {
  import opened Words
  import opened Traps
  import opened Harts
  import opened Physical
  import opened Mmus
  import opened Fp
  import opened Execute

  /** How a run of the interpreter ended: every cycle ran; a breakpoint stopped it in cycle
      `at` (`interpret` returns false); or cycle `at` raised `outcome` with the pc at `pc`
      (the source rethrows it as "error @ pc"). */
  datatype RunResult = Completed | Stopped(at: nat) | Failed(at: nat, pc: Word, outcome: Outcome)

  /** Kotlin's widening of an `Int` (or a count) to a `Long`: the value modulo 2^64, built
      up one step at a time so that it stays in bit-vector arithmetic. */
  function LongOf(i: int): Dword
    decreases if i < 0 then -i else i
  {
    if i == 0 then 0
    else if i < 0 then LongOf(i + 1) - 1
    else LongOf(i - 1) + 1
  }

  /** `cycle += k` on the 64-bit counter. */
  function AddCycles(cycle: Dword, k: Dword): Dword
  {
    cycle + k
  }

  /** Every instruction of the trace has property `p`. */
  ghost predicate All(trace: seq<Word>, p: Word -> bool)
  {
    forall j :: 0 <= j < |trace| ==> p(trace[j])
  }

  /** A trace extended by one instruction has a property throughout exactly when the trace
      and the instruction have it. */
  lemma AllSnoc(trace: seq<Word>, w: Word, p: Word -> bool)
    ensures All(trace + [w], p) <==> All(trace, p) && p(w)
    ensures (trace + [w])[..|trace|] == trace
  {
    assert forall j :: 0 <= j < |trace| ==> (trace + [w])[j] == trace[j];
    assert (trace + [w])[|trace|] == w;
  }

  /** A property holds throughout two traces exactly when it holds throughout their
      concatenation. */
  lemma AllAppend(a: seq<Word>, b: seq<Word>, p: Word -> bool)
    ensures All(a + b, p) <==> All(a, p) && All(b, p)
    ensures (a + b)[..|a|] == a
  {
    assert forall j :: 0 <= j < |a| ==> (a + b)[j] == a[j];
    assert forall j :: 0 <= j < |b| ==> (a + b)[|a| + j] == b[j];
  }

  /** An instruction that leaves the cycle counter alone. */
  predicate KeepsCounter(w: Word)
  {
    !WritesCounter(w)
  }

  /** An instruction that is not a breakpoint. */
  predicate NotBreakpoint(w: Word)
  {
    !IsBreakpoint(w)
  }

  /** No instruction of the trace names the cycle counter in a CSR instruction. */
  ghost predicate NoCounterWrites(trace: seq<Word>)
  {
    All(trace, KeepsCounter)
  }

  /** No instruction of the trace is a breakpoint. */
  ghost predicate NoBreakpoints(trace: seq<Word>)
  {
    All(trace, NotBreakpoint)
  }

  /** `cycle`: read the instruction at the pc for execution, then `exec` it. A failed fetch
      raises its trap and changes no register; `instr` is the word executed. */
  method Cycle(h: Hart, mmu: Mmu, time: Dword, fpu: FloatUnit) returns (o: Outcome, ghost instr: Option<Word>)
    requires h.Valid() && mmu.Valid()
    modifies h, h.x, h.d, h.csr, mmu, mmu.vmm.cache
    ensures h.Valid() && mmu.Valid()
    ensures var t := old(mmu.Translation(h, h.pc, EXECUTE));
      (t.Err? ==> instr.None? && o == Raised(t.trap) && unchanged(h) && h.x[..] == old(h.x[..]))
      && (t.Ok? ==> instr == Some(Load32(old(mmu.mem), t.value)))
    ensures instr.Some? ==>
      (o == Break <==> IsBreakpoint(instr.value))
      && (o == Continue ==> h.updatePc && h.pc == NextPc(instr.value, old(h.pc), old(h.x[..]), old(h.updatePc)))
      && (o == Break ==> h.pc == Advance(old(h.pc), instr.value) && h.updatePc == old(h.updatePc))
      && (!WritesCounter(instr.value) ==> h.cycle == old(h.cycle))
    ensures instr.None? ==> o.Raised?
    ensures o == Continue ==> h.updatePc
    ensures o != Continue ==> h.updatePc == old(h.updatePc)
  {
    var fetched := mmu.FetchInstruction(h, h.pc);
    if fetched.Err? {
      o, instr := Raised(fetched.trap), None;
      return;
    }
    instr := Some(fetched.value);
    o := Exec(h, mmu, fetched.value, time, fpu);
  }

  /** How a run that was asked for `count` cycles and executed `trace` may end: having run
      them all, none a breakpoint; at its first breakpoint, in cycle `at`; or in cycle `at`,
      whose fetch or instruction raised a trap or failed, after `at` instructions and no
      breakpoint. */
  ghost predicate Ended(r: RunResult, trace: seq<Word>, count: nat)
  {
    match r
    case Completed => |trace| == count && NoBreakpoints(trace)
    case Stopped(at) => at < count && |trace| == at + 1 && IsBreakpoint(trace[at]) && NoBreakpoints(trace[..at])
    case Failed(at, _, o) => at < count && (o.Raised? || o.Error?) && at <= |trace| <= at + 1 && NoBreakpoints(trace)
  }

  /** The cycle-counter increment `interpret` adds for a run that ended with `r`: the
      requested count when every cycle ran, otherwise the number of cycles that completed
      before the one that stopped. */
  function Counted(n: int, r: RunResult): Dword
  {
    match r
    case Completed => LongOf(n)
    case Stopped(at) => LongOf(at)
    case Failed(at, _, _) => LongOf(at)
  }

  /** One cycle of a run of `count` cycles, `i` of which have completed: the run ends when the
      cycle stops; otherwise the trace grows by a word that is no breakpoint. */
  lemma StepEnded(before: seq<Word>, instr: Option<Word>, o: Outcome, count: nat, pc: Word)
    requires |before| < count && NoBreakpoints(before)
    requires instr.None? ==> o.Raised?
    requires instr.Some? ==> (o == Break <==> IsBreakpoint(instr.value))
    requires o.Raised? || o.Error? || o == Break || o == Continue
    ensures var trace := if instr.Some? then before + [instr.value] else before;
      (o == Break ==> Ended(Stopped(|before|), trace, count))
      && (o != Break && o != Continue ==> Ended(Failed(|before|, pc, o), trace, count))
      && (o == Continue ==> |trace| == |before| + 1 && NoBreakpoints(trace))
  {
    if instr.Some? {
      AllSnoc(before, instr.value, NotBreakpoint);
    }
  }

  /** One cycle of a run, with the executed instruction appended to the trace `before`
      of the cycles that completed: a cycle that completes extends a breakpoint-free trace,
      and one that stops ends the run as `Ended` says. */
  method TracedCycle(h: Hart, mmu: Mmu, time: Dword, fpu: FloatUnit, ghost before: seq<Word>, count: nat)
    returns (o: Outcome, ghost trace: seq<Word>)
    requires h.Valid() && mmu.Valid() && h.updatePc
    requires |before| < count && NoBreakpoints(before)
    modifies h, h.x, h.d, h.csr, mmu, mmu.vmm.cache
    ensures h.Valid() && mmu.Valid() && h.updatePc
    ensures o == Continue ==> |trace| == |before| + 1 && NoBreakpoints(trace)
    ensures o == Break ==> Ended(Stopped(|before|), trace, count)
    ensures o != Continue && o != Break ==> Ended(Failed(|before|, h.pc, o), trace, count)
    ensures NoCounterWrites(trace) ==> NoCounterWrites(before) && h.cycle == old(h.cycle)
  {
    ghost var instr: Option<Word>;
    o, instr := Cycle(h, mmu, time, fpu);
    StepEnded(before, instr, o, count, h.pc);
    trace := before;
    if instr.Some? {
      AllSnoc(before, instr.value, KeepsCounter);
      trace := before + [instr.value];
    }
  }

  /** `Hart.interpret`: run `n` cycles (none when `n` is negative). `trace` is the sequence of
      instructions executed, and the run ends as `Ended` says. `left` is the counter as the
      run left it, just before `interpret` adds `Counted(n, r)` to it; it is the counter at
      the start unless an instruction of the run wrote it itself. `updatePc` holds between
      instructions. */
  method Interpret(h: Hart, mmu: Mmu, n: int, time: Dword, fpu: FloatUnit)
    returns (r: RunResult, ghost trace: seq<Word>, ghost left: Dword)
    requires h.Valid() && mmu.Valid() && h.updatePc
    requires -0x8000_0000 <= n < 0x8000_0000
    modifies h, h.x, h.d, h.csr, mmu, mmu.vmm.cache
    ensures h.Valid() && mmu.Valid() && h.updatePc
    ensures Ended(r, trace, if n < 0 then 0 else n)
    ensures r.Failed? ==> r.pc == h.pc
    ensures h.cycle == AddCycles(left, Counted(n, r))
    ensures NoCounterWrites(trace) ==> left == old(h.cycle)
    ensures NoCounterWrites(trace) ==> h.cycle == AddCycles(old(h.cycle), Counted(n, r))
  {
    trace := [];
    var i := 0;
    while i < n
      invariant 0 <= i && (n >= 0 ==> i <= n) && (n < 0 ==> i == 0)
      invariant h.Valid() && mmu.Valid() && h.updatePc
      invariant |trace| == i && NoBreakpoints(trace)
      invariant NoCounterWrites(trace) ==> h.cycle == old(h.cycle)
    {
      var o;
      o, trace := TracedCycle(h, mmu, time, fpu, trace, n);
      if o != Continue {
        r := if o == Break then Stopped(i) else Failed(i, h.pc, o);
        assert Counted(n, r) == LongOf(i);
        left := h.cycle;
        h.cycle := AddCycles(h.cycle, LongOf(i));
        return;
      }
      i := i + 1;
    }
    left := h.cycle;
    h.cycle := AddCycles(h.cycle, LongOf(n));
    r := Completed;
  }

  /** The counter after `s` complete slices of `CPU.interpret`, each adding 16. */
  function AfterSlices(cycle: Dword, s: nat): Dword
  {
    if s == 0 then cycle else AddCycles(AfterSlices(cycle, s - 1), LongOf(16))
  }

  /** The number of 16-cycle slices `CPU.interpret` runs for a request of `cycles`
      (`cycles / 16`, truncating; none for a negative request). */
  function Slices(cycles: int): (k: nat)
    ensures cycles < 16 ==> k == 0
    ensures cycles >= 0 ==> 16 * k <= cycles < 16 * k + 16
  {
    var q := TruncDiv(cycles, 16);
    if q < 0 then 0 else q
  }

  /** The 16 cycles of one slice (`repeat(16) { cycle() }`), stopping at the first breakpoint
      or exception. The counter is left to the caller. */
  method RunSlice(h: Hart, mmu: Mmu, time: Dword, fpu: FloatUnit) returns (r: RunResult, ghost trace: seq<Word>)
    requires h.Valid() && mmu.Valid() && h.updatePc
    modifies h, h.x, h.d, h.csr, mmu, mmu.vmm.cache
    ensures h.Valid() && mmu.Valid() && h.updatePc
    ensures Ended(r, trace, 16)
    ensures r.Failed? ==> r.pc == h.pc
    ensures NoCounterWrites(trace) ==> h.cycle == old(h.cycle)
  {
    trace := [];
    var p := 0;
    while p < 16
      invariant 0 <= p <= 16
      invariant h.Valid() && mmu.Valid() && h.updatePc
      invariant |trace| == p && NoBreakpoints(trace)
      invariant NoCounterWrites(trace) ==> h.cycle == old(h.cycle)
    {
      var o;
      o, trace := TracedCycle(h, mmu, time, fpu, trace, 16);
      if o != Continue {
        r := if o == Break then Stopped(p) else Failed(p, h.pc, o);
        return;
      }
      p := p + 1;
    }
    r := Completed;
  }

  /** One slice of `CPU.interpret`, the body of its outer `repeat`: a stop inside the slice
      adds the cycles of the slice that completed before it (`cycle += p`), a complete slice
      adds 16. Either add is made to the counter as the slice's instructions left it, `left`,
      which is the counter at the start unless one of them wrote it. */
  method CountedSlice(h: Hart, mmu: Mmu, time: Dword, fpu: FloatUnit)
    returns (r: RunResult, ghost trace: seq<Word>, ghost left: Dword)
    requires h.Valid() && mmu.Valid() && h.updatePc
    modifies h, h.x, h.d, h.csr, mmu, mmu.vmm.cache
    ensures h.Valid() && mmu.Valid() && h.updatePc
    ensures Ended(r, trace, 16)
    ensures r.Failed? ==> r.pc == h.pc
    ensures r.Completed? ==> h.cycle == AddCycles(left, LongOf(16))
    ensures !r.Completed? ==> h.cycle == AddCycles(left, LongOf(r.at))
    ensures NoCounterWrites(trace) ==> left == old(h.cycle)
  {
    r, trace := RunSlice(h, mmu, time, fpu);
    left := h.cycle;
    if r.Completed? {
      h.cycle := AddCycles(h.cycle, LongOf(16));
    } else {
      h.cycle := AddCycles(h.cycle, LongOf(r.at));
    }
  }

  /** The same end, seen from a run in which `k` cycles came before. */
  function Offset(r: RunResult, k: nat): RunResult
  {
    match r
    case Completed => Completed
    case Stopped(at) => Stopped(at + k)
    case Failed(at, pc, o) => Failed(at + k, pc, o)
  }

  /** A slice run after `s` complete slices of a run of `count` cycles: when it completes,
      the run has 16 more breakpoint-free cycles; when it stops, it ends the run in cycle
      `16 * s + at`, the cycle `at` of its own slice. The whole trace writes no counter only
      when neither part does. */
  lemma SliceEnded(done: seq<Word>, part: seq<Word>, s: nat, r: RunResult, count: nat)
    requires |done| == 16 * s && NoBreakpoints(done) && 16 * s + 16 <= count
    requires Ended(r, part, 16)
    ensures NoCounterWrites(done + part) ==> NoCounterWrites(done) && NoCounterWrites(part)
    ensures r.Completed? ==> |done + part| == 16 * (s + 1) && NoBreakpoints(done + part)
    ensures !r.Completed? ==> Ended(Offset(r, 16 * s), done + part, count)
    ensures !r.Completed? ==> Offset(r, 16 * s).at / 16 == s && Offset(r, 16 * s).at % 16 == r.at
  {
    AllAppend(done, part, KeepsCounter);
    if r.Stopped? {
      SliceIndex(s, r.at);
      StoppedInSlice(done, part, r.at);
    } else {
      AllAppend(done, part, NotBreakpoint);
      if r.Failed? {
        SliceIndex(s, r.at);
      }
    }
  }

  /** Cycle `at` of slice `s` is cycle `16 * s + at` of the run. */
  lemma SliceIndex(s: nat, at: nat)
    requires at < 16
    ensures (16 * s + at) / 16 == s && (16 * s + at) % 16 == at
  {
    var m := 16 * s + at;
    assert m == 16 * (m / 16) + m % 16 && 0 <= m % 16 < 16;
  }

  /** A breakpoint in cycle `at` of a slice, after a breakpoint-free prefix `done`, is the
      first breakpoint of the whole trace. */
  lemma StoppedInSlice(done: seq<Word>, part: seq<Word>, at: nat)
    requires NoBreakpoints(done) && at < |part| && NoBreakpoints(part[..at])
    ensures (done + part)[|done| + at] == part[at]
    ensures NoBreakpoints((done + part)[..|done| + at])
  {
    assert (done + part)[..|done| + at] == done + part[..at];
    AllAppend(done, part[..at], NotBreakpoint);
  }

  /** Slice `s` of a run of `count` cycles, after the breakpoint-free trace `done` of the
      slices before it: `CountedSlice`, with its trace appended and its end seen from the
      whole run. */
  method NextSlice(h: Hart, mmu: Mmu, time: Dword, fpu: FloatUnit, ghost done: seq<Word>, ghost s: nat, ghost count: nat)
    returns (r: RunResult, ghost trace: seq<Word>, ghost left: Dword)
    requires h.Valid() && mmu.Valid() && h.updatePc
    requires |done| == 16 * s && NoBreakpoints(done) && 16 * s + 16 <= count
    modifies h, h.x, h.d, h.csr, mmu, mmu.vmm.cache
    ensures h.Valid() && mmu.Valid() && h.updatePc
    ensures r.Completed? ==> |trace| == 16 * (s + 1) && NoBreakpoints(trace)
    ensures r.Completed? ==> h.cycle == AddCycles(left, LongOf(16))
    ensures !r.Completed? ==> Ended(Offset(r, 16 * s), trace, count) && Offset(r, 16 * s).at / 16 == s
    ensures !r.Completed? ==> h.cycle == AddCycles(left, LongOf(Offset(r, 16 * s).at % 16))
    ensures r.Failed? ==> r.pc == h.pc
    ensures NoCounterWrites(trace) ==> NoCounterWrites(done) && left == old(h.cycle)
  {
    ghost var part;
    r, part, left := CountedSlice(h, mmu, time, fpu);
    SliceEnded(done, part, s, r, count);
    trace := done + part;
  }

  /** `CPU.interpret`: `cycles / 16` slices of 16 cycles, adding 16 to the counter after each
      complete slice. A breakpoint or an exception ends the run after adding the cycles of
      its slice that completed, so the counter advances by 16 per complete slice and by the
      completed cycles of the last one. `left` is the counter just before the last add:
      16 after a complete last slice, the completed cycles of a slice that stopped. */
  method InterpretSlices(h: Hart, mmu: Mmu, cycles: int, time: Dword, fpu: FloatUnit)
    returns (r: RunResult, ghost trace: seq<Word>, ghost left: Dword)
    requires h.Valid() && mmu.Valid() && h.updatePc
    requires -0x8000_0000 <= cycles < 0x8000_0000
    modifies h, h.x, h.d, h.csr, mmu, mmu.vmm.cache
    ensures h.Valid() && mmu.Valid() && h.updatePc
    ensures Ended(r, trace, 16 * Slices(cycles))
    ensures r.Failed? ==> r.pc == h.pc
    ensures r.Completed? && Slices(cycles) > 0 ==> h.cycle == AddCycles(left, LongOf(16))
    ensures !r.Completed? ==> h.cycle == AddCycles(left, LongOf(r.at % 16))
    ensures r.Completed? && NoCounterWrites(trace) ==> h.cycle == AfterSlices(old(h.cycle), Slices(cycles))
    ensures !r.Completed? && NoCounterWrites(trace) ==>
      h.cycle == AddCycles(AfterSlices(old(h.cycle), r.at / 16), LongOf(r.at % 16))
  {
    trace := [];
    left := h.cycle;
    var k := TruncDiv(cycles, 16);
    var s := 0;
    while s < k
      invariant 0 <= s && (k >= 0 ==> s <= k) && (k < 0 ==> s == 0)
      invariant h.Valid() && mmu.Valid() && h.updatePc
      invariant |trace| == 16 * s && NoBreakpoints(trace)
      invariant NoCounterWrites(trace) ==> h.cycle == AfterSlices(old(h.cycle), s)
      invariant s > 0 ==> h.cycle == AddCycles(left, LongOf(16))
    {
      var slice;
      slice, trace, left := NextSlice(h, mmu, time, fpu, trace, s, 16 * Slices(cycles));
      if !slice.Completed? {
        r := Offset(slice, 16 * s);
        return;
      }
      s := s + 1;
    }
    assert s == Slices(cycles);
    r := Completed;
  }

  /** `RiscWM`: a CPU over an MMU, and the number of cycles its slice loop has run. The
      counter is a `Long` in the source; here it is unbounded. */
  class RiscWm {
    const mmu: Mmu
    const cpu: Hart
    var executedCycles: int

    ghost predicate Valid()
      reads this, cpu, cpu.x, cpu.d, cpu.csr, mmu, mmu.vmm
    {
      cpu.Valid() && mmu.Valid() && cpu.updatePc
    }

    /** A machine over physical memory `mem` with a reset CPU. */
    constructor (mem: Memory)
      ensures Valid() && fresh(cpu) && fresh(mmu) && executedCycles == 0
    {
      mmu := new Mmu(mem);
      cpu := new Hart();
      executedCycles := 0;
    }

    /** `interpret`: `cycles / 16` slices of 16 CPU cycles, adding 16 to `executedCycles`
        after each. A breakpoint or exception ends the run and is the result; the slices
        completed before it are counted, and the CPU's own counter is left alone. */
    method Interpret(cycles: int, time: Dword, fpu: FloatUnit) returns (r: RunResult, ghost trace: seq<Word>)
      requires Valid() && -0x8000_0000 <= cycles < 0x8000_0000
      modifies this, cpu, cpu.x, cpu.d, cpu.csr, mmu, mmu.vmm.cache
      ensures Valid()
      ensures Ended(r, trace, 16 * Slices(cycles))
      ensures r.Completed? ==> executedCycles == old(executedCycles) + 16 * Slices(cycles)
      ensures !r.Completed? ==> executedCycles == old(executedCycles) + 16 * (r.at / 16)
      ensures executedCycles >= old(executedCycles)
      ensures cycles < 16 ==> r.Completed? && trace == [] && executedCycles == old(executedCycles)
      ensures NoCounterWrites(trace) ==> cpu.cycle == old(cpu.cycle)
    {
      trace := [];
      var k := TruncDiv(cycles, 16);
      var s := 0;
      while s < k
        invariant 0 <= s && (k >= 0 ==> s <= k) && (k < 0 ==> s == 0)
        invariant Valid()
        invariant |trace| == 16 * s && NoBreakpoints(trace)
        invariant executedCycles == old(executedCycles) + 16 * s
        invariant NoCounterWrites(trace) ==> cpu.cycle == old(cpu.cycle)
      {
        var slice, part := RunSlice(cpu, mmu, time, fpu);
        SliceEnded(trace, part, s, slice, 16 * Slices(cycles));
        if !slice.Completed? {
          trace := trace + part;
          r := Offset(slice, 16 * s);
          return;
        }
        trace := trace + part;
        executedCycles := executedCycles + 16;
        s := s + 1;
      }
      assert s == Slices(cycles);
      r := Completed;
    }
  }
}
