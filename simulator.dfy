/**
 * The simulator remote (src/remotes/zxsimulator/zxsimremote.ts): register
 * marshalling, the breakpoint store, the breakpoint table built once per
 * continue, and the burst loop that runs the emulated CPU.
 *
 * The instruction engine is foreign: one call of its `execute()` is the
 * function `step`, which either yields the next register state or fails
 * with an error text.
 */
module ZxSimulator {
  import opened Opt
  import opened Registers

  // ---------------------------------------------------------------------
  // Breakpoint store
  // ---------------------------------------------------------------------

  /** A breakpoint: its address and its (never evaluated) condition text. */
  datatype Breakpoint = Breakpoint(address: u16, condition: string)

  /** The store as values: the breakpoint map and the last ID handed out. */
  datatype BpStore = BpStore(bps: map<nat, Breakpoint>, lastId: nat)

  /** Every stored ID lies in 1..lastId. */
  ghost predicate StoreValid(st: BpStore) {
    forall id :: id in st.bps ==> 0 < id <= st.lastId
  }

  /**
   * `createNewBreakpoint`: the new ID is the old `lastBpId` plus one, so it is
   * never 0 and was never in the map; the map gains exactly that key.
   */
  function AddBp(st: BpStore, address: u16, condition: string): (r: (BpStore, nat))
    ensures r.1 == st.lastId + 1 && r.1 != 0 && r.0.lastId == r.1
    ensures StoreValid(st) ==> r.1 !in st.bps && StoreValid(r.0)
    ensures r.0.bps.Keys == st.bps.Keys + {r.1}
    ensures r.0.bps[r.1] == Breakpoint(address, condition)
    ensures forall id :: id in st.bps && id != r.1 ==> r.0.bps[id] == st.bps[id]
  {
    var id := st.lastId + 1;
    (BpStore(st.bps[id := Breakpoint(address, condition)], id), id)
  }

  /**
   * `removeBreakpoint`: deletes only the given key; removing an absent ID
   * leaves the store unchanged.
   */
  function RemoveBp(st: BpStore, id: nat): (r: BpStore)
    ensures r.bps.Keys == st.bps.Keys - {id} && r.lastId == st.lastId
    ensures forall k :: k in r.bps ==> r.bps[k] == st.bps[k]
    ensures id !in st.bps ==> r == st
    ensures StoreValid(st) ==> StoreValid(r)
  {
    st.(bps := st.bps - {id})
  }

  /** A command reaching the breakpoint store. */
  datatype BpCommand = AddCmd(address: u16, condition: string) | RemoveCmd(id: nat)

  /** Runs a series of commands; returns the final store and the IDs handed out, in order. */
  function Replay(st: BpStore, cmds: seq<BpCommand>): (BpStore, seq<nat>)
    decreases |cmds|
  {
    if cmds == [] then (st, [])
    else
      var (next, issued) := match cmds[0]
        case AddCmd(address, condition) =>
          var (s1, id) := AddBp(st, address, condition); (s1, [id])
        case RemoveCmd(id) => (RemoveBp(st, id), []);
      var (last, rest) := Replay(next, cmds[1..]);
      (last, issued + rest)
  }

  /**
   * Whatever adds and removes are interleaved, the IDs handed out are strictly
   * increasing and all above the starting `lastBpId`: an ID is never 0 and never
   * reused, even after its breakpoint was removed. The store stays valid.
   */
  lemma {:induction false} IdsNeverReused(st: BpStore, cmds: seq<BpCommand>)
    requires StoreValid(st)
    ensures StoreValid(Replay(st, cmds).0)
    ensures Replay(st, cmds).0.lastId >= st.lastId
    ensures forall i :: 0 <= i < |Replay(st, cmds).1| ==>
              st.lastId < Replay(st, cmds).1[i] <= Replay(st, cmds).0.lastId
    ensures forall i, j :: 0 <= i < j < |Replay(st, cmds).1| ==>
              Replay(st, cmds).1[i] < Replay(st, cmds).1[j]
    decreases |cmds|
  {
    if cmds != [] {
      var next := match cmds[0]
        case AddCmd(address, condition) => AddBp(st, address, condition).0
        case RemoveCmd(id) => RemoveBp(st, id);
      IdsNeverReused(next, cmds[1..]);
    }
  }

  // ---------------------------------------------------------------------
  // Breakpoint table
  // ---------------------------------------------------------------------

  /**
   * The entry of the breakpoint table at address `a` after the breakpoints
   * with IDs 1..n were written in ascending ID order: the condition of the
   * highest such ID at `a`, or None (`undefined`).
   */
  function TableEntry(bps: map<nat, Breakpoint>, a: u16, n: nat): (r: Option<string>)
    ensures r.Some? ==>
              exists id :: id in bps && 0 < id <= n && bps[id].address == a && bps[id].condition == r.value
    decreases n
  {
    if n == 0 then None
    else if n in bps && bps[n].address == a then Some(bps[n].condition)
    else TableEntry(bps, a, n - 1)
  }

  /**
   * An entry is defined exactly when some breakpoint with an ID in 1..n has
   * that address, and then it holds the condition of the last such one.
   */
  lemma {:induction false} TableEntryMeaning(bps: map<nat, Breakpoint>, a: u16, n: nat)
    ensures TableEntry(bps, a, n).Some? <==>
              exists id :: id in bps && 0 < id <= n && bps[id].address == a
    ensures TableEntry(bps, a, n).Some? ==>
              exists id :: id in bps && 0 < id <= n && bps[id].address == a
                && bps[id].condition == TableEntry(bps, a, n).value
                && forall later :: id < later <= n && later in bps ==> bps[later].address != a
    decreases n
  {
    if n > 0 && !(n in bps && bps[n].address == a) {
      TableEntryMeaning(bps, a, n - 1);
      if TableEntry(bps, a, n - 1).Some? {
        var id :| id in bps && 0 < id <= n - 1 && bps[id].address == a
                  && bps[id].condition == TableEntry(bps, a, n - 1).value
                  && forall later :: id < later <= n - 1 && later in bps ==> bps[later].address != a;
        assert forall later :: id < later <= n && later in bps ==> bps[later].address != a;
      }
    }
  }

  /**
   * A missing boundary address becomes -1; a given one is kept. Since the
   * program counter is 16-bit, -1 never matches it.
   */
  function BoundaryAddr(addr: Option<int>): (r: int)
    ensures addr.None? ==> r < 0
    ensures addr.Some? ==> r == addr.value
  {
    if addr == None then -1 else addr.value
  }

  // ---------------------------------------------------------------------
  // Burst scheduler
  // ---------------------------------------------------------------------

  /**
   * One call of the engine's `execute()`: the next state, or the error it
   * threw together with the registers as the engine left them when it threw.
   */
  datatype Step = Executed(next: Registers) | Fault(text: string, regs: Registers)

  /** What a burst ends with: a rescheduled burst, or a stop with its break reason. */
  datatype Burst = Reschedule | Stopped(reason: Option<string>)

  /** The outcome of the checks after one instruction. */
  datatype Verdict = Go | Halt(reason: Option<string>)

  /** The number of instructions in one burst. */
  const BurstSize: nat := 100000

  const ErrorPrefix := "Z80CPU Error: "
  const ManualBreak := "Manual break"
  const BreakpointHit := "Breakpoint hit"

  /** The table size: one entry per 16-bit address. */
  const TableSize: nat := 0x1_0000

  /**
   * The stop checks after one `execute()`, in the source's order: engine
   * error, breakpoint-table hit at the new PC, a cleared running flag, then
   * the two boundary addresses. The first that applies decides.
   */
  function Check(st: Step, table: seq<Option<string>>, running: bool, bp1: int, bp2: int): (v: Verdict)
    requires |table| == TableSize
    ensures st.Fault? ==> v == Halt(Some(ErrorPrefix + st.text))
    ensures st.Executed? && table[st.next.pc].Some? ==> v == Halt(Some(BreakpointHit))
    ensures st.Executed? && table[st.next.pc].None? && !running ==> v == Halt(Some(ManualBreak))
    ensures v == Halt(None) <==>
              st.Executed? && table[st.next.pc].None? && running && (st.next.pc == bp1 || st.next.pc == bp2)
    ensures v == Go <==>
              st.Executed? && table[st.next.pc].None? && running && st.next.pc != bp1 && st.next.pc != bp2
  {
    match st
    case Fault(text, _) => Halt(Some(ErrorPrefix + text))
    case Executed(next) =>
      if table[next.pc].Some? then Halt(Some(BreakpointHit))
      else if !running then Halt(Some(ManualBreak))
      else if next.pc == bp1 || next.pc == bp2 then Halt(None)
      else Go
  }

  /** The registers after one step: whatever the engine left, also when it threw. */
  function After(st: Step): Registers {
    if st.Executed? then st.next else st.regs
  }

  /** The end of a burst: final registers, burst result, and how many `execute()` calls it made. */
  datatype BurstRun = BurstRun(regs: Registers, result: Burst, executed: nat)

  /**
   * A burst of at most `n` instructions from `s`. It reschedules only when all
   * `n` instructions passed every check; a stop reports the reason of the
   * check that fired and happens after at least one instruction.
   */
  function Run(s: Registers, step: Registers -> Step, table: seq<Option<string>>,
               running: bool, bp1: int, bp2: int, n: nat): (o: BurstRun)
    requires |table| == TableSize
    ensures o.executed <= n
    ensures o.result.Reschedule? ==> o.executed == n
    ensures o.result.Stopped? ==> o.executed >= 1
    ensures o.result == Stopped(None) ==> o.regs.pc == bp1 || o.regs.pc == bp2
    ensures o.result == Stopped(Some(BreakpointHit)) ==> table[o.regs.pc].Some?
    ensures o.result.Reschedule? || !running ==> o.result != Stopped(None)
    decreases n
  {
    if n == 0 then BurstRun(s, Reschedule, 0)
    else
      var st := step(s);
      match Check(st, table, running, bp1, bp2)
      case Halt(reason) =>
        assert st.Fault? ==> (ErrorPrefix + st.text)[0] != BreakpointHit[0];
        BurstRun(After(st), Stopped(reason), 1)
      case Go =>
        var o := Run(st.next, step, table, running, bp1, bp2, n - 1);
        BurstRun(o.regs, o.result, o.executed + 1)
  }

  /** The state after `j` successful `execute()` calls, ignoring all checks; None once the engine failed. */
  function Trace(s: Registers, step: Registers -> Step, j: nat): Option<Registers>
    decreases j
  {
    if j == 0 then Some(s)
    else match step(s)
      case Executed(next) => Trace(next, step, j - 1)
      case Fault(_, _) => None
  }

  /**
   * A burst stops at the FIRST instruction whose checks fire, never later:
   * every instruction before the last one executed passed all checks, and the
   * last one's verdict is the burst's break reason.
   */
  lemma {:induction false} RunStopsAtFirstHalt(s: Registers, step: Registers -> Step,
      table: seq<Option<string>>, running: bool, bp1: int, bp2: int, n: nat)
    requires |table| == TableSize
    ensures var o := Run(s, step, table, running, bp1, bp2, n);
      (forall j :: 0 <= j < o.executed - 1 ==>
         Trace(s, step, j).Some? && Check(step(Trace(s, step, j).value), table, running, bp1, bp2) == Go)
      && (o.result.Stopped? ==>
         Trace(s, step, o.executed - 1).Some?
         && Check(step(Trace(s, step, o.executed - 1).value), table, running, bp1, bp2) == Halt(o.result.reason))
    decreases n
  {
    if n > 0 {
      var st := step(s);
      if Check(st, table, running, bp1, bp2) == Go {
        RunStopsAtFirstHalt(st.next, step, table, running, bp1, bp2, n - 1);
        var o' := Run(st.next, step, table, running, bp1, bp2, n - 1);
        forall j | 0 < j < o'.executed + 1
          ensures Trace(s, step, j) == Trace(st.next, step, j - 1)
        {
        }
      }
    }
  }

  // ---------------------------------------------------------------------
  // The emulated CPU and the remote
  // ---------------------------------------------------------------------

  /** The register fields of the emulated CPU, updated in place. */
  class Z80Cpu {
    var pc: u16
    var sp: u16
    var r1: Bank
    var r2: Bank
    var r: u8
    var i: u8

    function Regs(): Registers
      reads this
    {
      Registers(pc, sp, r1, r2, r, i)
    }

    constructor (s: Registers)
      ensures Regs() == s
    {
      pc, sp, r1, r2, r, i := s.pc, s.sp, s.r1, s.r2, s.r, s.i;
    }

    /** Takes over the state the engine produced. */
    method Load(s: Registers)
      modifies this
      ensures Regs() == s
    {
      pc, sp, r1, r2, r, i := s.pc, s.sp, s.r1, s.r2, s.r, s.i;
    }
  }

  class SimulatorRemote {
    const cpu: Z80Cpu
    var breakpointsMap: map<nat, Breakpoint>
    var lastBpId: nat
    var cpuRunning: bool
    /** Built by a continue; one entry per address, None meaning `undefined`. */
    var tmpBreakpoints: array<Option<string>>

    ghost predicate Valid()
      reads this
    {
      StoreValid(Store())
    }

    function Store(): BpStore
      reads this
    {
      BpStore(breakpointsMap, lastBpId)
    }

    constructor (init: Registers)
      ensures Valid() && fresh(cpu) && cpu.Regs() == init
      ensures breakpointsMap == map[] && lastBpId == 0 && !cpuRunning
    {
      cpu := new Z80Cpu(init);
      cpuRunning := false;
      breakpointsMap := map[];
      lastBpId := 0;
      tmpBreakpoints := new Option<string>[0];
    }

    /**
     * `sendDzrpCmdGetRegisters`: the register layout of `getRegValues`, read
     * from the CPU without changing anything.
     */
    method SendDzrpCmdGetRegisters() returns (regs: seq<nat>)
      ensures |regs| == 26 && regs == RegValues(cpu.Regs())
      ensures regs[0] + 0x100 * regs[1] == cpu.pc && regs[2] + 0x100 * regs[3] == cpu.sp
    {
      regs := RegValues(cpu.Regs());
    }

    /**
     * `setRegValue`: writes the one register `reg` names, in bank `r1` or
     * `r2`; nothing else in the CPU changes.
     */
    method SetRegValue(reg: RegId, value: nat)
      requires value < Width(reg)
      modifies cpu
      ensures cpu.Regs() == SetReg(old(cpu.Regs()), reg, value)
    {
      match reg
      case PC => cpu.pc := value;
      case SP => cpu.sp := value;
      case AF => cpu.r1 := cpu.r1.(a := value / 0x100, f := value % 0x100);
      case BC => cpu.r1 := cpu.r1.(b := value / 0x100, c := value % 0x100);
      case DE => cpu.r1 := cpu.r1.(d := value / 0x100, e := value % 0x100);
      case HL => cpu.r1 := cpu.r1.(h := value / 0x100, l := value % 0x100);
      case IX => cpu.r1 := cpu.r1.(ixh := value / 0x100, ixl := value % 0x100);
      case IY => cpu.r1 := cpu.r1.(iyh := value / 0x100, iyl := value % 0x100);
      case AF2 => cpu.r2 := cpu.r2.(a := value / 0x100, f := value % 0x100);
      case BC2 => cpu.r2 := cpu.r2.(b := value / 0x100, c := value % 0x100);
      case DE2 => cpu.r2 := cpu.r2.(d := value / 0x100, e := value % 0x100);
      case HL2 => cpu.r2 := cpu.r2.(h := value / 0x100, l := value % 0x100);
      case F => cpu.r1 := cpu.r1.(f := value);
      case A => cpu.r1 := cpu.r1.(a := value);
      case C => cpu.r1 := cpu.r1.(c := value);
      case B => cpu.r1 := cpu.r1.(b := value);
      case E => cpu.r1 := cpu.r1.(e := value);
      case D => cpu.r1 := cpu.r1.(d := value);
      case L => cpu.r1 := cpu.r1.(l := value);
      case H => cpu.r1 := cpu.r1.(h := value);
      case IXL => cpu.r1 := cpu.r1.(ixl := value);
      case IXH => cpu.r1 := cpu.r1.(ixh := value);
      case IYL => cpu.r1 := cpu.r1.(iyl := value);
      case IYH => cpu.r1 := cpu.r1.(iyh := value);
      case F2 => cpu.r2 := cpu.r2.(f := value);
      case A2 => cpu.r2 := cpu.r2.(a := value);
      case C2 => cpu.r2 := cpu.r2.(c := value);
      case B2 => cpu.r2 := cpu.r2.(b := value);
      case E2 => cpu.r2 := cpu.r2.(e := value);
      case D2 => cpu.r2 := cpu.r2.(d := value);
      case L2 => cpu.r2 := cpu.r2.(l := value);
      case H2 => cpu.r2 := cpu.r2.(h := value);
      case R => cpu.r := value;
      case I => cpu.i := value;
    }

    /** `sendDzrpCmdSetRegister`: delegates to `setRegValue`. */
    method SendDzrpCmdSetRegister(regIndex: RegId, value: nat)
      requires value < Width(regIndex)
      modifies cpu
      ensures cpu.Regs() == SetReg(old(cpu.Regs()), regIndex, value)
    {
      SetRegValue(regIndex, value);
    }

    /** `createNewBreakpoint`: stores the breakpoint under `lastBpId + 1` and returns that ID. */
    method CreateNewBreakpoint(bpAddress: u16, condition: string) returns (id: nat)
      requires Valid()
      modifies this`lastBpId, this`breakpointsMap
      ensures Valid()
      ensures (Store(), id) == AddBp(old(Store()), bpAddress, condition)
    {
      lastBpId := lastBpId + 1;
      breakpointsMap := breakpointsMap[lastBpId := Breakpoint(bpAddress, condition)];
      id := lastBpId;
    }

    /** `removeBreakpoint`: deletes the key if present. */
    method RemoveBreakpoint(bpId: nat)
      requires Valid()
      modifies this`breakpointsMap
      ensures Valid()
      ensures Store() == RemoveBp(old(Store()), bpId)
    {
      breakpointsMap := breakpointsMap - {bpId};
    }

    /** `sendDzrpCmdAddBreakpoint`: the new ID, never 0. */
    method SendDzrpCmdAddBreakpoint(bpAddress: u16, condition: string) returns (bpId: nat)
      requires Valid()
      modifies this`lastBpId, this`breakpointsMap
      ensures Valid() && bpId != 0
      ensures (Store(), bpId) == AddBp(old(Store()), bpAddress, condition)
    {
      bpId := CreateNewBreakpoint(bpAddress, condition);
    }

    /** `sendDzrpCmdRemoveBreakpoint`: delegates to `removeBreakpoint`. */
    method SendDzrpCmdRemoveBreakpoint(bpId: nat)
      requires Valid()
      modifies this`breakpointsMap
      ensures Valid()
      ensures Store() == RemoveBp(old(Store()), bpId)
    {
      RemoveBreakpoint(bpId);
    }

    /**
     * The table part of `sendDzrpCmdContinue`: a fresh 0x10000-entry table
     * where each stored breakpoint writes its condition at its address, in
     * the map's insertion order (ascending IDs).
     */
    method MaterializeBreakpoints()
      requires Valid()
      modifies this`tmpBreakpoints
      ensures fresh(tmpBreakpoints) && tmpBreakpoints.Length == TableSize
      ensures forall a: u16 :: tmpBreakpoints[a] == TableEntry(breakpointsMap, a, lastBpId)
    {
      var table := new Option<string>[TableSize](_ => None);
      var id := 1;
      while id <= lastBpId
        invariant 1 <= id <= lastBpId + 1
        invariant forall a: u16 :: table[a] == TableEntry(breakpointsMap, a, id - 1)
      {
        if id in breakpointsMap {
          var bp := breakpointsMap[id];
          table[bp.address] := Some(bp.condition);
        }
        id := id + 1;
      }
      tmpBreakpoints := table;
    }

    /**
     * `z80CpuContinue`: one burst of at most 100000 instructions against the
     * table of the current continue. On reschedule `cpuRunning` is kept;
     * on a stop it is cleared and the break reason is returned.
     */
    method Z80CpuContinue(bp1: int, bp2: int, step: Registers -> Step) returns (res: Burst)
      requires tmpBreakpoints.Length == TableSize
      modifies this`cpuRunning, cpu
      ensures var o := Run(old(cpu.Regs()), step, tmpBreakpoints[..], old(cpuRunning), bp1, bp2, BurstSize);
              res == o.result && cpu.Regs() == o.regs
      ensures cpuRunning == (res.Reschedule? && old(cpuRunning))
    {
      ghost var s0 := cpu.Regs();
      ghost var table := tmpBreakpoints[..];
      var breakReasonNumber := 0;
      var counter := BurstSize;
      var breakReason: Option<string> := None;
      while counter > 0
        invariant 0 <= counter <= BurstSize
        invariant cpuRunning == old(cpuRunning) && breakReason == None && breakReasonNumber == 0
        invariant var total := Run(s0, step, table, cpuRunning, bp1, bp2, BurstSize);
                  var rest := Run(cpu.Regs(), step, table, cpuRunning, bp1, bp2, counter);
                  total.regs == rest.regs && total.result == rest.result
                  && total.executed == BurstSize - counter + rest.executed
      {
        var st := step(cpu.Regs());
        if st.Fault? {
          cpu.Load(st.regs);
          breakReason := Some(ErrorPrefix + st.text);
          breakReasonNumber := 255;
          break;
        }
        cpu.Load(st.next);
        // A real breakpoint is checked before the other conditions (step-out).
        var pc := cpu.pc;
        if tmpBreakpoints[pc].Some? {
          breakReasonNumber := 2;
          break;
        }
        if !cpuRunning {
          breakReasonNumber := 1;
          break;
        }
        if pc == bp1 || pc == bp2 {
          break;
        }
        counter := counter - 1;
      }
      if counter == 0 {
        res := Reschedule;
      } else {
        cpuRunning := false;
        if breakReason == None {
          if breakReasonNumber == 1 {
            breakReason := Some(ManualBreak);
          } else if breakReasonNumber == 2 {
            breakReason := Some(BreakpointHit);
          }
        }
        res := Stopped(breakReason);
      }
    }

    /**
     * `sendDzrpCmdContinue`: builds the table, sets `cpuRunning` and runs the
     * first burst. The burst starts running whatever the flag was before, so a
     * pause issued while idle has no effect on it.
     */
    method SendDzrpCmdContinue(bp1Address: Option<int>, bp2Address: Option<int>, step: Registers -> Step)
      returns (res: Burst)
      requires Valid()
      modifies this`tmpBreakpoints, this`cpuRunning, cpu
      ensures Valid() && fresh(tmpBreakpoints) && tmpBreakpoints.Length == TableSize
      ensures forall a: u16 :: tmpBreakpoints[a] == TableEntry(breakpointsMap, a, lastBpId)
      ensures var o := Run(old(cpu.Regs()), step, tmpBreakpoints[..], true,
                           BoundaryAddr(bp1Address), BoundaryAddr(bp2Address), BurstSize);
              res == o.result && cpu.Regs() == o.regs
      ensures cpuRunning == res.Reschedule?
    {
      var bp1 := BoundaryAddr(bp1Address);
      var bp2 := BoundaryAddr(bp2Address);
      MaterializeBreakpoints();
      cpuRunning := true;
      res := Z80CpuContinue(bp1, bp2, step);
    }

    /** `sendDzrpCmdPause`: only clears the running flag. */
    method SendDzrpCmdPause()
      modifies this`cpuRunning
      ensures !cpuRunning
    {
      cpuRunning := false;
    }
  }
}
