/**
 * A PPU thread: the registers and stack it starts with, the controller calls
 * that post events to it, and its task, which either interprets instructions
 * one at a time until the program returns to address 0 or a STOP arrives, or
 * calls the recompiled functions of the segments that contain the current pc.
 *
 * The interpreter's `step` is a parameter from registers to registers, so
 * it neither reads nor writes guest memory. The execution engine's
 * `runFunction` is a parameter that takes the arguments and the register
 * file and returns the result and the register file the called code left;
 * what the called code does to guest memory is not modelled. The address
 * the stack allocator returns is a parameter as well.
 * Concurrency is reduced to its sequential effect: controller calls arrive
 * between two instructions, and a paused thread resumes when RUN arrives.
 */
module PpuThread {
  import opened Guest

  /** `config.ppuTranslator`. */
  datatype Translator = InterpreterMode | RecompilerMode

  /** `m_event`: the last controller request not yet handled. */
  datatype Event = NoEvent | RunEvent | PauseEvent | StopEvent

  /** `m_status`. */
  datatype Status = Idle | Running | Paused

  const StackSize: int := 0x10000
  const StackAlign: int := 0x100
  const InitialCr: u32 := 0x22000082
  const TlsOffset: int := 0x7060

  /** The stack segment's live allocations. */
  class StackSegment {
    var blocks: set<u32>

    constructor ()
      ensures blocks == {}
    {
      blocks := {};
    }
  }

  /**
   * The register file a new thread starts with: pc and r0 hold the entry
   * descriptor's code address, r2 its TOC, r1/r4/r5 point into the stack,
   * r11 the descriptor itself, r12 the allocation page size, r13 the TLS
   * area; the condition register and the time base get fixed values.
   * Registers the constructor does not set are those of a fresh `State`.
   */
  function InitialRegisters(entry: u32, mem: Memory, stackPointer: u32, mallocPageSize: u64,
                            userMemoryBase: u64): (r: Registers)
    ensures r.Valid()
  {
    var entryPc: u32 := Load(mem, entry, 4);
    var entryRtoc: u32 := Load(mem, (entry + 4) % TWO32, 4);
    var r4 := (stackPointer - 0x80) % TWO32;
    var gpr := seq(32, _ => 0)
      [0 := entryPc]
      [1 := (stackPointer - 0x200) % TWO32]
      [2 := entryRtoc]
      [3 := 0]
      [4 := r4]
      [5 := r4 + 0x10]
      [11 := entry]
      [12 := mallocPageSize]
      [13 := Add64(userMemoryBase, TlsOffset)]
      [7 := 0]
      [8 := 0]
      [9 := 0]
      [10 := 0x90];
    Registers(entryPc, gpr, seq(32, _ => 0), InitialCr, 1, 1)
  }

  /** The initial registers, one by one, as the PPU ABI start-up sequence expects them. */
  lemma InitialRegisterValues(entry: u32, mem: Memory, stackPointer: u32, mallocPageSize: u64, userMemoryBase: u64)
    ensures var r := InitialRegisters(entry, mem, stackPointer, mallocPageSize, userMemoryBase);
      r.pc == r.gpr[0] == Load(mem, entry, 4) &&
      r.gpr[2] == Load(mem, (entry + 4) % TWO32, 4) &&
      r.gpr[3] == 0 && r.gpr[7] == 0 && r.gpr[8] == 0 && r.gpr[9] == 0 && r.gpr[10] == 0x90 &&
      r.gpr[11] == entry && r.gpr[12] == mallocPageSize &&
      r.gpr[13] == (userMemoryBase + 0x7060) % TWO64 &&
      r.cr == 0x22000082 && r.tbl == 1 && r.tbu == 1
  {
    PowSplit(4);
  }

  /**
   * When the allocator returns a 0x100-aligned block of 0x10000 bytes that
   * does not wrap, the stack pointer is its end and r1, r4 and r5 lie inside
   * it, 16-byte aligned, r1 below r4 below r5.
   */
  lemma InitialStackPointers(entry: u32, mem: Memory, stackAddr: u32, mallocPageSize: u64, userMemoryBase: u64)
    requires stackAddr % StackAlign == 0 && stackAddr + StackSize < TWO32
    ensures var sp := (stackAddr + StackSize) % TWO32;
      var r := InitialRegisters(entry, mem, sp, mallocPageSize, userMemoryBase);
      sp == stackAddr + StackSize &&
      r.gpr[1] == sp - 0x200 && r.gpr[4] == sp - 0x80 && r.gpr[5] == r.gpr[4] + 0x10 &&
      stackAddr <= r.gpr[1] < r.gpr[4] < r.gpr[5] < stackAddr + StackSize &&
      r.gpr[1] % 16 == 0 && r.gpr[4] % 16 == 0 && r.gpr[5] % 16 == 0
  {
    var sp := (stackAddr + StackSize) % TWO32;
    var r := InitialRegisters(entry, mem, sp, mallocPageSize, userMemoryBase);
    assert r.gpr[1] == (sp - 0x200) % TWO32 && r.gpr[4] == (sp - 0x80) % TWO32 && r.gpr[5] == r.gpr[4] + 0x10;
    AlignedStackTop(stackAddr);
  }

  /** The arithmetic behind `InitialStackPointers`, on the block address alone. */
  lemma AlignedStackTop(stackAddr: nat)
    requires stackAddr % StackAlign == 0 && stackAddr + StackSize < TWO32
    ensures var sp := (stackAddr + StackSize) % TWO32;
      sp == stackAddr + StackSize &&
      (sp - 0x200) % TWO32 == sp - 0x200 && (sp - 0x80) % TWO32 == sp - 0x80 &&
      (sp - 0x200) % 16 == 0 && (sp - 0x80) % 16 == 0 && (sp - 0x80 + 0x10) % 16 == 0
  {
    var k := stackAddr / StackAlign;
    DivModUnique(stackAddr, StackAlign, k, 0);
    var top := stackAddr + StackSize;
    DivModUnique(top, TWO32, 0, top);
    DivModUnique(top - 0x200, TWO32, 0, top - 0x200);
    DivModUnique(top - 0x80, TWO32, 0, top - 0x80);
    DivModUnique(top - 0x200, 16, 0x10 * k + 0x1000 - 0x20, 0);
    DivModUnique(top - 0x80, 16, 0x10 * k + 0x1000 - 0x8, 0);
    DivModUnique(top - 0x80 + 0x10, 16, 0x10 * k + 0x1000 - 0x7, 0);
  }

  /** The outcome of the interpreter loop. */
  datatype Exit = Stopped | Returned | OutOfFuel

  /**
   * `regs` and `event` are the final register file and event, `paused`
   * whether the thread went through PAUSED, and `trace` the pc of every
   * instruction stepped, in order.
   */
  datatype LoopOutcome = LoopOutcome(exit: Exit, regs: Registers, event: Event, paused: bool, trace: seq<u32>)

  /** The event seen at an instruction boundary: the controller call arriving there, if any. */
  function Arrive(event: Event, calls: seq<Event>): Event
  {
    if |calls| > 0 && calls[0] != NoEvent then calls[0] else event
  }

  /** The event once a PAUSE seen at the boundary has been answered by RUN. */
  function Woken(event: Event, calls: seq<Event>): Event
  {
    var seen := Arrive(event, calls);
    if seen == PauseEvent then RunEvent else seen
  }

  function Later(calls: seq<Event>): seq<Event>
  {
    if |calls| > 0 then calls[1..] else []
  }

  /**
   * The interpreter loop for at most `fuel` instructions. `calls[k]` is the
   * controller call (or none) arriving just before the k-th boundary. At
   * each boundary: PAUSE waits for RUN; STOP ends the loop and stays pending;
   * any other event is reset; pc == 0 ends the loop; otherwise one
   * instruction is stepped.
   */
  function InterpreterLoop(fuel: nat, event: Event, regs: Registers, calls: seq<Event>,
                           step: Registers -> Registers): LoopOutcome
    decreases fuel
  {
    var paused := Arrive(event, calls) == PauseEvent;
    if Woken(event, calls) == StopEvent then LoopOutcome(Stopped, regs, StopEvent, paused, [])
    else if regs.pc == 0 then LoopOutcome(Returned, regs, NoEvent, paused, [])
    else if fuel == 0 then LoopOutcome(OutOfFuel, regs, NoEvent, paused, [])
    else
      var rest := InterpreterLoop(fuel - 1, NoEvent, step(regs), Later(calls), step);
      rest.(paused := paused || rest.paused, trace := [regs.pc] + rest.trace)
  }

  /** The outcome of a loop run after `trace` was stepped (and a pause seen, if `paused`). */
  function After(trace: seq<u32>, paused: bool, o: LoopOutcome): LoopOutcome
  {
    o.(paused := paused || o.paused, trace := trace + o.trace)
  }

  lemma AfterAfter(trace: seq<u32>, paused: bool, pc: u32, pausedHere: bool, o: LoopOutcome)
    ensures After(trace, paused, After([pc], pausedHere, o)) == After(trace + [pc], paused || pausedHere, o)
  {
    assert trace + ([pc] + o.trace) == (trace + [pc]) + o.trace;
  }

  /** The interpreter never steps an instruction at pc 0. */
  lemma {:induction false} NeverStepsAtZero(fuel: nat, event: Event, regs: Registers, calls: seq<Event>,
                                            step: Registers -> Registers)
    ensures forall pc :: pc in InterpreterLoop(fuel, event, regs, calls, step).trace ==> pc != 0
  {
    if Woken(event, calls) != StopEvent && regs.pc != 0 && fuel > 0 {
      NeverStepsAtZero(fuel - 1, NoEvent, step(regs), Later(calls), step);
    }
  }

  /**
   * How the loop ends: STOP leaves the event pending, every other exit leaves
   * it NONE, and a return leaves pc at 0.
   */
  lemma {:induction false} LoopExit(fuel: nat, event: Event, regs: Registers, calls: seq<Event>,
                                    step: Registers -> Registers)
    ensures var o := InterpreterLoop(fuel, event, regs, calls, step);
      (o.exit == Stopped <==> o.event == StopEvent) &&
      (o.exit != Stopped ==> o.event == NoEvent) &&
      (o.exit == Returned ==> o.regs.pc == 0) &&
      |o.trace| <= fuel
  {
    if Woken(event, calls) != StopEvent && regs.pc != 0 && fuel > 0 {
      LoopExit(fuel - 1, NoEvent, step(regs), Later(calls), step);
    }
  }

  /** A STOP arriving at boundary k lets at most k instructions run. */
  lemma {:induction false} StopBoundsSteps(fuel: nat, event: Event, regs: Registers, calls: seq<Event>,
                                           step: Registers -> Registers, k: nat)
    requires k < |calls| && calls[k] == StopEvent
    ensures |InterpreterLoop(fuel, event, regs, calls, step).trace| <= k
    ensures k == 0 ==>
      InterpreterLoop(fuel, event, regs, calls, step) == LoopOutcome(Stopped, regs, StopEvent, false, [])
  {
    if Woken(event, calls) != StopEvent && regs.pc != 0 && fuel > 0 {
      assert k > 0;
      assert Later(calls)[k - 1] == calls[k];
      StopBoundsSteps(fuel - 1, NoEvent, step(regs), Later(calls), step, k - 1);
    }
  }

  /** A pending STOP with no other call arriving ends the loop before any instruction. */
  lemma PendingStopEndsLoop(fuel: nat, regs: Registers, calls: seq<Event>, step: Registers -> Registers)
    requires |calls| == 0 || calls[0] == NoEvent
    ensures InterpreterLoop(fuel, StopEvent, regs, calls, step) == LoopOutcome(Stopped, regs, StopEvent, false, [])
  {
  }

  /** Once RUN arrives, a paused thread continues exactly as one that was never paused. */
  lemma PauseThenResume(fuel: nat, regs: Registers, calls: seq<Event>, step: Registers -> Registers)
    requires |calls| == 0 || calls[0] == NoEvent
    ensures InterpreterLoop(fuel, PauseEvent, regs, calls, step) ==
      InterpreterLoop(fuel, NoEvent, regs, calls, step).(paused := true)
  {
  }

  /** The interpreter step keeps the register file well formed. */
  ghost predicate StepKeepsShape(step: Registers -> Registers)
  {
    forall r: Registers :: r.Valid() ==> step(r).Valid()
  }

  /* Recompiler dispatch. */

  /** `FUNCTION_IN_*`. */
  datatype InputKind = InInteger | InFloat | InVector

  /** `FUNCTION_OUT_*`; `OutOther` stands for every kind the write-back ignores. */
  datatype OutputKind = OutInteger | OutFloat | OutOther

  /** A recompiled function: its handle and its signature. */
  datatype Function = Function(handle: nat, typeIn: seq<InputKind>, typeOut: OutputKind)

  /**
   * A recompiled segment of guest code: it covers [address, address + size),
   * and `functions` maps a pc to the function recompiled there.
   */
  datatype Segment = Segment(address: u32, size: nat, functions: u32 -> Function)
  {
    predicate Contains(pc: u32)
    {
      address <= pc < address + size
    }
  }

  /** `llvm::GenericValue` as an argument: an integer, a double's bits, or a default value. */
  datatype Argument = IntArg(bits: u64) | FloatArg(bits: u64) | DefaultArg

  /** The two views of the engine's return value the write-back reads. */
  datatype ReturnValue = ReturnValue(intVal: u64, doubleVal: u64)

  datatype Call = Call(callee: Function, arguments: seq<Argument>)

  datatype DispatchOutcome = DispatchOutcome(regs: Registers, calls: seq<Call>)

  /** Argument i of kind `kind`: integers come from gpr[3+i], floats from fpr[1+i]. */
  function ArgumentAt(kind: InputKind, i: nat, regs: Registers): Argument
    requires regs.Valid() && (kind == InInteger ==> 3 + i < 32) && (kind == InFloat ==> 1 + i < 32)
  {
    match kind
    case InInteger => IntArg(regs.gpr[3 + i])
    case InFloat => FloatArg(regs.fpr[1 + i])
    case InVector => DefaultArg
  }

  /** Every input of f names a register that exists. */
  predicate Marshallable(f: Function)
  {
    forall i :: 0 <= i < |f.typeIn| ==>
      (f.typeIn[i] == InInteger ==> 3 + i < 32) && (f.typeIn[i] == InFloat ==> 1 + i < 32)
  }

  function ArgumentList(f: Function, regs: Registers): seq<Argument>
    requires regs.Valid() && Marshallable(f)
  {
    seq(|f.typeIn|, i requires 0 <= i < |f.typeIn| => ArgumentAt(f.typeIn[i], i, regs))
  }

  /**
   * The result write-back as written: the integer case has no `break`, so it
   * falls into the float case and also overwrites fpr[1].
   */
  function WriteBack(kind: OutputKind, ret: ReturnValue, regs: Registers): (r: Registers)
    requires regs.Valid()
    ensures r.Valid() && r.pc == regs.pc
  {
    match kind
    case OutInteger => regs.(gpr := regs.gpr[3 := ret.intVal], fpr := regs.fpr[1 := ret.doubleVal])
    case OutFloat => regs.(fpr := regs.fpr[1 := ret.doubleVal])
    case OutOther => regs
  }

  /** Corrected write-back: an integer result goes to gpr[3] only, a float result to fpr[1] only. */
  function IntendedWriteBack(kind: OutputKind, ret: ReturnValue, regs: Registers): (r: Registers)
    requires regs.Valid()
    ensures r.Valid() && r.pc == regs.pc
  {
    match kind
    case OutInteger => regs.(gpr := regs.gpr[3 := ret.intVal])
    case OutFloat => regs.(fpr := regs.fpr[1 := ret.doubleVal])
    case OutOther => regs
  }

  /**
   * As written: an integer result sets gpr[3] and also fpr[1], so a float
   * register the function never wrote is clobbered.
   */
  lemma IntegerResultClobbersFpr1(ret: ReturnValue, regs: Registers)
    requires regs.Valid() && regs.fpr[1] != ret.doubleVal
    ensures var r := WriteBack(OutInteger, ret, regs);
      r.gpr[3] == ret.intVal && r.fpr[1] == ret.doubleVal && r.fpr != regs.fpr
  {
    assert WriteBack(OutInteger, ret, regs).fpr[1] != regs.fpr[1];
  }

  /** Corrected: each result kind writes exactly its own return register. */
  lemma IntendedWriteBackEffect(kind: OutputKind, ret: ReturnValue, regs: Registers)
    requires regs.Valid()
    ensures var r := IntendedWriteBack(kind, ret, regs);
      (kind == OutInteger ==> r.gpr[3] == ret.intVal && r.fpr == regs.fpr) &&
      (kind == OutFloat ==> r.fpr[1] == ret.doubleVal && r.gpr == regs.gpr) &&
      (kind == OutOther ==> r == regs) &&
      (forall i :: 0 <= i < 32 && i != 3 ==> r.gpr[i] == regs.gpr[i]) &&
      (forall i :: 0 <= i < 32 && i != 1 ==> r.fpr[i] == regs.fpr[i])
  {
  }

  /** Every function of every segment, at every pc the segment contains, can be marshalled. */
  predicate SegmentsMarshallable(segments: seq<Segment>)
  {
    forall i, pc :: 0 <= i < |segments| && segments[i].Contains(pc) ==> Marshallable(segments[i].functions(pc))
  }

  /**
   * What `runFunction` hands back: the return value, and the register file as
   * the function's code left it (the generated code updates `State` in place).
   */
  datatype CallResult = CallResult(ret: ReturnValue, regs: Registers)

  /** `ee->runFunction`: runs a function on its arguments and the register file it finds. */
  type Engine = (Function, seq<Argument>, Registers) -> CallResult

  /** The called code leaves a well-formed register file (32 entries per bank). */
  ghost predicate CalleeKeepsShape(engine: Engine)
  {
    forall f, a, r: Registers :: r.Valid() ==> engine(f, a, r).regs.Valid()
  }

  /** The called code leaves pc where it found it. */
  ghost predicate CalleeKeepsPc(engine: Engine)
  {
    forall f, a, r: Registers :: engine(f, a, r).regs.pc == r.pc
  }

  /** The called code leaves pc, CR and the time base as it found them. */
  ghost predicate CalleeKeepsControl(engine: Engine)
  {
    forall f, a, r: Registers :: var after := engine(f, a, r).regs;
      after.pc == r.pc && after.cr == r.cr && after.tbl == r.tbl && after.tbu == r.tbu
  }

  /** The called code leaves gpr[i] as it found it. */
  ghost predicate CalleeKeepsGpr(engine: Engine, i: nat)
  {
    forall f, a, r: Registers :: r.Valid() && engine(f, a, r).regs.Valid() && i < 32 ==>
      engine(f, a, r).regs.gpr[i] == r.gpr[i]
  }

  /** The called code leaves fpr[i] as it found it. */
  ghost predicate CalleeKeepsFpr(engine: Engine, i: nat)
  {
    forall f, a, r: Registers :: r.Valid() && engine(f, a, r).regs.Valid() && i < 32 ==>
      engine(f, a, r).regs.fpr[i] == r.fpr[i]
  }

  /**
   * The recompiler dispatch: every segment, in order, is matched against the
   * current pc; the function at pc of each one that contains it is called
   * with the marshalled arguments on the current registers, and its result
   * is written back over the registers the call left (there is no `break`
   * after a match).
   */
  function Dispatch(segments: seq<Segment>, regs: Registers, engine: Engine): (o: DispatchOutcome)
    requires regs.Valid() && SegmentsMarshallable(segments) && CalleeKeepsShape(engine)
    ensures o.regs.Valid()
    decreases |segments|
  {
    if |segments| == 0 then DispatchOutcome(regs, [])
    else
      var s := segments[0];
      if !s.Contains(regs.pc) then Dispatch(segments[1..], regs, engine)
      else
        var f := s.functions(regs.pc);
        var args := ArgumentList(f, regs);
        var result := engine(f, args, regs);
        var rest := Dispatch(segments[1..], WriteBack(f.typeOut, result.ret, result.regs), engine);
        DispatchOutcome(rest.regs, [Call(f, args)] + rest.calls)
  }

  /** How many of the segments contain pc. */
  function CountContaining(segments: seq<Segment>, pc: u32): nat
  {
    if |segments| == 0 then 0
    else (if segments[0].Contains(pc) then 1 else 0) + CountContaining(segments[1..], pc)
  }

  /** The functions at pc of the segments containing pc, in order. */
  function FunctionsAt(segments: seq<Segment>, pc: u32): seq<Function>
  {
    if |segments| == 0 then []
    else (if segments[0].Contains(pc) then [segments[0].functions(pc)] else []) + FunctionsAt(segments[1..], pc)
  }

  /** The functions called, in call order. */
  function Callees(calls: seq<Call>): seq<Function>
  {
    if |calls| == 0 then [] else [calls[0].callee] + Callees(calls[1..])
  }

  /** When no segment contains pc, nothing is called and the registers are unchanged. */
  lemma {:induction false} NoSegmentNoCall(segments: seq<Segment>, regs: Registers, engine: Engine)
    requires regs.Valid() && SegmentsMarshallable(segments) && CalleeKeepsShape(engine)
    requires forall i :: 0 <= i < |segments| ==> !segments[i].Contains(regs.pc)
    ensures Dispatch(segments, regs, engine) == DispatchOutcome(regs, [])
  {
    if |segments| > 0 {
      NoSegmentNoCall(segments[1..], regs, engine);
    }
  }

  /**
   * With callees that keep pc, every containing segment causes exactly one
   * call, and the functions called are those at pc, in segment order.
   */
  lemma {:induction false} CallsEveryContainingSegment(segments: seq<Segment>, regs: Registers, engine: Engine)
    requires regs.Valid() && SegmentsMarshallable(segments) && CalleeKeepsShape(engine) && CalleeKeepsPc(engine)
    ensures var o := Dispatch(segments, regs, engine);
      |o.calls| == CountContaining(segments, regs.pc) && Callees(o.calls) == FunctionsAt(segments, regs.pc)
  {
    if |segments| > 0 {
      var s := segments[0];
      if !s.Contains(regs.pc) {
        CallsEveryContainingSegment(segments[1..], regs, engine);
      } else {
        var f := s.functions(regs.pc);
        var result := engine(f, ArgumentList(f, regs), regs);
        var next := WriteBack(f.typeOut, result.ret, result.regs);
        CallsEveryContainingSegment(segments[1..], next, engine);
        var o := Dispatch(segments, regs, engine);
        assert o.calls[1..] == Dispatch(segments[1..], next, engine).calls;
      }
    }
  }

  /**
   * Apart from what the called code itself does, dispatch changes no register
   * but gpr[3] and fpr[1]: a gpr other than gpr[3], or an fpr other than
   * fpr[1], that no callee writes keeps its value, and so do pc, CR and the
   * time base when no callee writes them.
   */
  lemma {:induction false} DispatchFrame(segments: seq<Segment>, regs: Registers, engine: Engine, i: nat)
    requires regs.Valid() && SegmentsMarshallable(segments) && CalleeKeepsShape(engine) && i < 32
    ensures var r := Dispatch(segments, regs, engine).regs;
      (i != 3 && CalleeKeepsGpr(engine, i) ==> r.gpr[i] == regs.gpr[i]) &&
      (i != 1 && CalleeKeepsFpr(engine, i) ==> r.fpr[i] == regs.fpr[i]) &&
      (CalleeKeepsControl(engine) ==> r.pc == regs.pc && r.cr == regs.cr && r.tbl == regs.tbl && r.tbu == regs.tbu)
  {
    if |segments| > 0 {
      var s := segments[0];
      if !s.Contains(regs.pc) {
        DispatchFrame(segments[1..], regs, engine, i);
      } else {
        var f := s.functions(regs.pc);
        var result := engine(f, ArgumentList(f, regs), regs);
        var next := WriteBack(f.typeOut, result.ret, result.regs);
        DispatchFrame(segments[1..], next, engine, i);
      }
    }
  }

  /** A dispatch outcome preceded by the calls already made. */
  function AfterCalls(calls: seq<Call>, o: DispatchOutcome): DispatchOutcome
  {
    o.(calls := calls + o.calls)
  }

  /** The register set-up of `Thread(entry)`, in the constructor's order. */
  method InitialiseRegisters(s: State, entry: u32, memory: GuestMemory, sp: u32, mallocPageSize: u64,
                             userMemoryBase: u64)
    requires s.Valid() && s.Snapshot() == Registers(0, seq(32, _ => 0), seq(32, _ => 0), 0, 0, 0)
    modifies s, s.gpr
    ensures s.Valid()
    ensures s.Snapshot() == InitialRegisters(entry, memory.bytes, sp, mallocPageSize, userMemoryBase)
  {
    PowSplit(4);
    var entryPc: u32 := memory.Read(entry, 32);
    var entryRtoc: u32 := memory.Read((entry + 4) % TWO32, 32);
    InitialiseStackRegisters(s, entryPc, entryRtoc, sp);
    InitialiseProcessRegisters(s, entry, mallocPageSize, userMemoryBase);
  }

  /** The program counter and r0 to r5. */
  method InitialiseStackRegisters(s: State, entryPc: u32, entryRtoc: u32, sp: u32)
    requires s.Valid()
    modifies s, s.gpr
    ensures s.Valid()
    ensures s.Snapshot() == old(s.Snapshot()).(pc := entryPc, gpr := old(s.gpr[..])
      [0 := entryPc]
      [1 := (sp - 0x200) % TWO32]
      [2 := entryRtoc]
      [3 := 0]
      [4 := (sp - 0x80) % TWO32]
      [5 := (sp - 0x80) % TWO32 + 0x10])
  {
    s.pc := entryPc;
    s.SetGPR(0, entryPc);
    s.SetGPR(1, (sp - 0x200) % TWO32);
    s.SetGPR(2, entryRtoc);
    s.SetGPR(3, 0);
    s.SetGPR(4, (sp - 0x80) % TWO32);
    s.SetGPR(5, s.gpr[4] + 0x10);
  }

  /** r11 to r13, CR, the time base and the sys_initialize_tls arguments r7 to r10. */
  method InitialiseProcessRegisters(s: State, entry: u32, mallocPageSize: u64, userMemoryBase: u64)
    requires s.Valid()
    modifies s, s.gpr
    ensures s.Valid()
    ensures s.Snapshot() == old(s.Snapshot()).(cr := InitialCr, tbl := 1, tbu := 1, gpr := old(s.gpr[..])
      [11 := entry]
      [12 := mallocPageSize]
      [13 := Add64(userMemoryBase, TlsOffset)]
      [7 := 0]
      [8 := 0]
      [9 := 0]
      [10 := 0x90])
  {
    s.SetGPR(11, entry);
    s.SetGPR(12, mallocPageSize);
    s.SetGPR(13, Add64(userMemoryBase, TlsOffset));
    s.cr := InitialCr;
    s.tbl := 1;
    s.tbu := 1;
    s.SetGPR(7, 0);
    s.SetGPR(8, 0);
    s.SetGPR(9, 0);
    s.SetGPR(10, 0x90);
  }

  class Thread {
    const translator: Translator
    const state: State
    const stackAddr: u32
    const stackPointer: u32
    var event: Event
    var status: Status
    /** Whether a host thread has been started (`m_thread` is set). */
    var started: bool

    ghost predicate Valid()
      reads this, state
    {
      state.Valid()
    }

    /**
     * `Thread(entry)`: `stackAddr` is the block the stack segment's
     * allocator returned for 0x10000 bytes aligned to 0x100.
     */
    constructor (entry: u32, translator: Translator, memory: GuestMemory, stack: StackSegment,
                 stackAddr: u32, mallocPageSize: u64, userMemoryBase: u64)
      modifies stack
      ensures Valid() && fresh(state) && fresh(state.gpr) && fresh(state.fpr)
      ensures this.translator == translator && this.stackAddr == stackAddr
      ensures stackPointer == (stackAddr + StackSize) % TWO32
      ensures stack.blocks == old(stack.blocks) + {stackAddr}
      ensures state.Snapshot() == InitialRegisters(entry, memory.bytes, stackPointer, mallocPageSize, userMemoryBase)
      ensures event == NoEvent && status == Idle && !started
    {
      stack.blocks := stack.blocks + {stackAddr};
      var sp: u32 := (stackAddr + StackSize) % TWO32;
      var s := new State();
      InitialiseRegisters(s, entry, memory, sp, mallocPageSize, userMemoryBase);
      this.translator := translator;
      this.stackAddr := stackAddr;
      stackPointer := sp;
      state := s;
      event := NoEvent;
      status := Idle;
      started := false;
    }

    /** `~Thread`: frees exactly the stack block. */
    method Destroy(stack: StackSegment)
      modifies stack
      ensures stack.blocks == old(stack.blocks) - {stackAddr}
    {
      stack.blocks := stack.blocks - {stackAddr};
    }

    /** `run`: posts RUN. */
    method Run()
      modifies this`event
      ensures event == RunEvent
    {
      event := RunEvent;
    }

    /** `pause`: posts PAUSE; a second call changes nothing more. */
    method Pause()
      modifies this`event
      ensures event == PauseEvent
    {
      event := PauseEvent;
    }

    /** `stop`: posts STOP. */
    method Stop()
      modifies this`event
      ensures event == StopEvent
    {
      event := StopEvent;
    }

    /**
     * `start`: a thread already started is stopped first; the new host
     * thread marks itself RUNNING and enters `task` unless LV2 still has to
     * be initialised (the returned flag).
     */
    method Start(lv2Initialized: bool) returns (entersTask: bool)
      modifies this`event, this`status, this`started
      ensures started && status == Running
      ensures event == if old(started) then StopEvent else old(event)
      ensures entersTask == lv2Initialized
    {
      if started {
        Stop();
      }
      started := true;
      status := Running;
      entersTask := lv2Initialized;
    }

    /**
     * The event handling at one instruction boundary, with the call in
     * `pending[0]` (if any) arriving first. A PAUSE parks the thread until
     * RUN arrives; STOP stays pending and ends the loop; any other event is
     * reset.
     */
    method HandleEvent(pending: seq<Event>) returns (stopping: bool, pausedHere: bool)
      modifies this`event, this`status
      ensures pausedHere == (Arrive(old(event), pending) == PauseEvent)
      ensures stopping == (Woken(old(event), pending) == StopEvent)
      ensures event == if stopping then StopEvent else NoEvent
      ensures status == if pausedHere then Running else old(status)
    {
      pausedHere := false;
      event := Arrive(event, pending);
      if event != NoEvent {
        if event == PauseEvent {
          status := Paused;
          event := RunEvent;
          status := Running;
          pausedHere := true;
        }
        if event == StopEvent {
          stopping := true;
          return;
        }
        event := NoEvent;
      }
      stopping := false;
    }

    /**
     * `task` with the interpreter: the event loop, for at most `fuel`
     * instructions, with `calls[k]` the controller call arriving just
     * before the k-th boundary.
     */
    method RunInterpreter(calls: seq<Event>, step: Registers -> Registers, fuel: nat)
      returns (exit: Exit, trace: seq<u32>)
      requires Valid() && translator == InterpreterMode && StepKeepsShape(step)
      modifies this`event, this`status, state, state.gpr, state.fpr
      ensures Valid()
      ensures var o := InterpreterLoop(fuel, old(event), old(state.Snapshot()), calls, step);
        exit == o.exit && trace == o.trace && state.Snapshot() == o.regs && event == o.event &&
        status == if o.paused then Running else old(status)
    {
      var left, pending := fuel, calls;
      var pausedSoFar := false;
      trace := [];
      exit := OutOfFuel;
      while true
        invariant Valid()
        invariant After(trace, pausedSoFar, InterpreterLoop(left, event, state.Snapshot(), pending, step)) ==
          InterpreterLoop(fuel, old(event), old(state.Snapshot()), calls, step)
        invariant status == if pausedSoFar then Running else old(status)
        invariant pausedSoFar ==> status == Running
        decreases left
      {
        ghost var o := InterpreterLoop(left, event, state.Snapshot(), pending, step);
        var stopping, pausedHere := HandleEvent(pending);
        pending := Later(pending);
        if stopping {
          exit := Stopped;
          break;
        }
        if state.pc == 0 {
          exit := Returned;
          break;
        }
        if left == 0 {
          exit := OutOfFuel;
          break;
        }
        var regs := state.Snapshot();
        assert o == After([regs.pc], pausedHere, InterpreterLoop(left - 1, NoEvent, step(regs), pending, step));
        AfterAfter(trace, pausedSoFar, regs.pc, pausedHere, InterpreterLoop(left - 1, NoEvent, step(regs), pending, step));
        trace := trace + [state.pc];
        pausedSoFar := pausedSoFar || pausedHere;
        state.Restore(step(regs));
        left := left - 1;
      }
    }

    /** The argument list for f, read from the current register file. */
    method MarshalArguments(f: Function) returns (arguments: seq<Argument>)
      requires Valid() && Marshallable(f)
      ensures |arguments| == |f.typeIn|
      ensures forall i :: 0 <= i < |arguments| ==> arguments[i] == ArgumentAt(f.typeIn[i], i, state.Snapshot())
    {
      arguments := [];
      for i := 0 to |f.typeIn|
        invariant |arguments| == i
        invariant forall j :: 0 <= j < i ==> arguments[j] == ArgumentAt(f.typeIn[j], j, state.Snapshot())
      {
        var genValue := DefaultArg;
        match f.typeIn[i] {
          case InInteger =>
            genValue := IntArg(state.gpr[3 + i]);
          case InFloat =>
            genValue := FloatArg(state.fpr[1 + i]);
          case InVector =>
        }
        arguments := arguments + [genValue];
      }
    }

    /** The write-back of a call's result, falling through from the integer case into the float one. */
    method WriteResult(kind: OutputKind, ret: ReturnValue)
      requires Valid()
      modifies state.gpr, state.fpr
      ensures Valid()
      ensures state.Snapshot() == WriteBack(kind, ret, old(state.Snapshot()))
    {
      match kind {
        case OutInteger =>
          state.gpr[3] := ret.intVal;
          state.fpr[1] := ret.doubleVal;
        case OutFloat =>
          state.fpr[1] := ret.doubleVal;
        case OutOther =>
      }
    }

    /** `task` with the recompiler: calls the function at pc of every segment containing pc. */
    method RunRecompiled(segments: seq<Segment>, engine: Engine) returns (calls: seq<Call>)
      requires Valid() && translator == RecompilerMode && SegmentsMarshallable(segments) && CalleeKeepsShape(engine)
      modifies state, state.gpr, state.fpr
      ensures Valid()
      ensures var o := Dispatch(segments, old(state.Snapshot()), engine);
        state.Snapshot() == o.regs && calls == o.calls
    {
      calls := [];
      for k := 0 to |segments|
        invariant Valid()
        invariant AfterCalls(calls, Dispatch(segments[k..], state.Snapshot(), engine)) ==
          Dispatch(segments, old(state.Snapshot()), engine)
      {
        var segment := segments[k];
        assert segments[k..][1..] == segments[k + 1..];
        if !segment.Contains(state.pc) {
          continue;
        }
        var f := segment.functions(state.pc);
        var arguments := MarshalArguments(f);
        assert arguments == ArgumentList(f, state.Snapshot());
        var result := engine(f, arguments, state.Snapshot());
        state.Restore(result.regs);
        WriteResult(f.typeOut, result.ret);
        calls := calls + [Call(f, arguments)];
      }
    }
  }
}
