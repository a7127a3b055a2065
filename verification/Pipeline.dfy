/** The five stages wired together (rtl/core/friscv_datapath.sv), with the register file and a data memory. */
module Pipeline {
  import opened Words
  import opened Isa
  import opened Decoder
  import ControlUnit
  import IfStage
  import IdStage
  import ExStage
  import MemStage
  import WbStage

  datatype Machine = Machine(fetch: IfStage.Regs, id: IdStage.Regs, ex: ExStage.Regs, mem: MemStage.Regs,
                             wb: WbStage.Regs, regs: RegFile, ram: Mem)

  /**
   * One cycle's environment: the two wait lines, and what the buses carry when they carry nothing defined
   * (a fetch that a redirect has overtaken, a data bus still waiting).
   */
  datatype Cycle = Cycle(imemWait: bool, dmemWait: bool, stale: Instr, junk: Word)

  function Reset(vector: Word, regs: RegFile, ram: Mem): Machine {
    Machine(IfStage.Reset(vector), IdStage.RESET, ExStage.RESET, MemStage.RESET, WbStage.RESET, regs, ram)
  }

  // ----- the data bus: whole words are read, the addressed lanes are written -----

  function BusRead(ram: Mem, addr: Word): Word {
    WordAt(ram, addr - addr % 4)
  }

  function BusWrite(ram: Mem, addr: Word, width: Width, data: Word): Mem {
    var lane := addr % 4;
    match width
    case I8 | U8 => ram[addr := ByteOf(data, lane)]
    case I16 | U16 =>
      var low := if lane < 2 then 0 else 2;
      ram[addr := ByteOf(data, low)][addr + 1 := ByteOf(data, low + 1)]
    case I32 =>
      ram[addr := ByteOf(data, 0)][addr + 1 := ByteOf(data, 1)]
         [addr + 2 := ByteOf(data, 2)][addr + 3 := ByteOf(data, 3)]
  }

  lemma LanesOfStore(width: Width, addr: Word, v: Word)
    requires Aligned(addr, width)
    ensures var data := ExStage.StoreLanes(width, addr, v);
            match width
            case I8 | U8 => ByteOf(data, addr % 4) == ByteOf(v, 0)
            case I16 | U16 =>
              addr % 4 <= 2 && ByteOf(data, addr % 4) == ByteOf(v, 0) && ByteOf(data, addr % 4 + 1) == ByteOf(v, 1)
            case I32 => data == v
  {
    match width
    case I8 | U8 => ByteInLane(addr % 4, v);
    case I16 | U16 =>
      HalfLanes(addr);
      HalfInLanes(v);
    case I32 =>
  }

  lemma ByteInLane(lane: nat, v: Word)
    requires lane < 4
    ensures ByteOf(v % 0x100 * (if lane == 0 then 1 else if lane == 1 then 0x100 else if lane == 2 then 0x1_0000
                                else 0x100_0000), lane) == ByteOf(v, 0)
  {
  }

  lemma HalfInLanes(v: Word)
    ensures var h := v % 0x1_0000;
            && h % 0x100 == v % 0x100 && h / 0x100 == v / 0x100 % 0x100
            && ByteOf(h, 0) == ByteOf(h * 0x1_0000, 2) == h % 0x100
            && ByteOf(h, 1) == ByteOf(h * 0x1_0000, 3) == h / 0x100
  {
    var h := v % 0x1_0000;
    WordOfHalves(h, v / 0x1_0000);
    WordOfHalves(h, 0);
    WordOfHalves(0, h);
  }

  lemma HalfLanes(addr: Word)
    requires addr % 2 == 0
    ensures addr % 4 == if addr / 2 % 2 == 1 then 2 else 0
  {
  }

  lemma LanesOfRead(ram: Mem, base: int)
    ensures var w := WordAt(ram, base);
            && ByteOf(w, 0) == Get(ram, base)
            && ByteOf(w, 1) == Get(ram, base + 1)
            && ByteOf(w, 2) == Get(ram, base + 2)
            && ByteOf(w, 3) == Get(ram, base + 3)
            && w % 0x1_0000 == HalfAt(ram, base)
            && w / 0x1_0000 == HalfAt(ram, base + 2)
  {
    WordOfHalves(HalfAt(ram, base), HalfAt(ram, base + 2));
  }

  /** Placing the store data in its lanes and writing those lanes is the byte store of the ISA. */
  lemma StoreReachesItsBytes(ram: Mem, addr: Word, width: Width, v: Word)
    requires Aligned(addr, width)
    ensures BusWrite(ram, addr, width, ExStage.StoreLanes(width, addr, v)) == StoreValue(ram, addr, width, v)
  {
    hide ByteOf, ExStage.StoreLanes;
    LanesOfStore(width, addr, v);
    if width == I16 || width == U16 { HalfLanes(addr); }
  }

  /** Reading the word and expanding the addressed lanes is the load of the ISA. */
  lemma LoadFindsItsBytes(ram: Mem, addr: Word, width: Width)
    requires Aligned(addr, width)
    ensures MemStage.Expand(width, addr, BusRead(ram, addr)) == LoadValue(ram, addr, width)
  {
    hide ByteOf, WordAt, HalfAt, Get;
    LanesOfRead(ram, addr - addr % 4);
    if width == I16 || width == U16 { HalfLanes(addr); }
  }

  // ----- wires -----

  function FetchData(code: Code, c: Machine, y: Cycle): Instr {
    if c.fetch.flushPending then y.stale else code(c.fetch.pc)
  }

  function BusData(c: Machine, y: Cycle): Word {
    if y.dmemWait then y.junk else BusRead(c.ram, MemStage.BusAddr(c.mem))
  }

  function MemIn(c: Machine, y: Cycle): MemStage.In {
    MemStage.In(y.imemWait || y.dmemWait, false, false, false, ExStage.Output(c.ex),
                false, false, 0, false, y.dmemWait, BusData(c, y))
  }

  function Rs1Value(c: Machine): Word {
    Read(c.regs, Rs1Sel(c.id.ir))
  }

  function Control(c: Machine, y: Cycle): ControlUnit.In {
    var wbValue := WbStage.Result(c.wb);
    ControlUnit.In(
      Rs1Sel(c.id.ir), Rs2Sel(c.id.ir),
      IdStage.JumpOk(c.id, Rs1Value(c), c.wb.rd, wbValue), IdStage.JumpTarget(c.id, Rs1Value(c), c.wb.rd, wbValue),
      ExStage.Output(c.ex).rd, ExStage.BranchOk(c.ex), ExStage.BranchTarget(c.ex.op), ExStage.MdActive(c.ex),
      MemStage.RdOut(c.mem, MemIn(c, y)), c.wb.rd, y.imemWait, y.dmemWait)
  }

  function FetchIn(code: Code, c: Machine, y: Cycle): IfStage.In {
    var u := Control(c, y);
    IfStage.In(ControlUnit.Flush(u), ControlUnit.IdStall(u), y.imemWait, ControlUnit.Flush(u),
               ControlUnit.JumpTarget(u), false, 0, false, 0, FetchData(code, c, y))
  }

  function IssueFromId(c: Machine): ExStage.Issue {
    var ir := c.id.ir;
    ExStage.Issue(c.id.pc, c.id.nextPc, Rs1Value(c), Read(c.regs, Rs2Sel(ir)), ImmOf(ir), RdSel(ir),
                  Decode(ir, c.id.valid))
  }

  function ToWb(c: Machine, y: Cycle): WbStage.Regs {
    var i, p := MemIn(c, y), c.mem.pipe;
    WbStage.Regs(p.nextPc, p.aluData, MemStage.LoadOut(c.mem, i), MemStage.ScOut(c.mem), p.wb,
                 MemStage.RdOut(c.mem, i), MemStage.ValidOut(c.mem, i))
  }

  // ----- one clock edge of every stage -----

  function NextRegs(c: Machine, stall: bool): (regs: RegFile) {
    if WbStage.Retires(c.wb, stall) then Write(c.regs, c.wb.rd, WbStage.Result(c.wb)) else c.regs
  }

  function NextRam(c: Machine, y: Cycle): Mem {
    if MemStage.Writes(c.mem) && !y.dmemWait then
      BusWrite(c.ram, MemStage.BusAddr(c.mem), c.mem.pipe.width, c.mem.pipe.storeData)
    else c.ram
  }

  function NextFetch(code: Code, c: Machine, y: Cycle): IfStage.Regs {
    IfStage.Next(c.fetch, FetchIn(code, c, y))
  }

  function NextId(code: Code, c: Machine, y: Cycle): IdStage.Regs {
    var u, f := Control(c, y), FetchIn(code, c, y);
    IdStage.Next(c.id, IdStage.In(ControlUnit.Flush(u), ControlUnit.IdStall(u), IfStage.Ir(c.fetch, f), c.fetch.pc,
                                  IfStage.NextPc(c.fetch)))
  }

  function NextEx(c: Machine, y: Cycle): ExStage.Regs {
    var u := Control(c, y);
    ExStage.Next(c.ex, ExStage.In(ControlUnit.ExStall(u), ControlUnit.FlushEx(u), false, IssueFromId(c)))
  }

  function Next(code: Code, c: Machine, y: Cycle): Machine {
    var stall := y.imemWait || y.dmemWait;
    Machine(NextFetch(code, c, y), NextId(code, c, y), NextEx(c, y), MemStage.Next(c.mem, MemIn(c, y)),
         WbStage.Next(c.wb, stall, ToWb(c, y)), NextRegs(c, stall), NextRam(c, y))
  }

  function Run(code: Code, c: Machine, ys: seq<Cycle>): Machine
    decreases ys
  {
    if ys == [] then c else Run(code, Next(code, c, ys[0]), ys[1..])
  }

  /** The datapath: the five stage objects, the register file, and the memory behind the data bus. */
  class Datapath {
    const fetch: IfStage.Stage
    const id: IdStage.Stage
    const ex: ExStage.Stage
    const mem: MemStage.Stage
    const wb: WbStage.Stage
    var regs: RegFile
    var ram: Mem

    function State(): Machine
      reads this, fetch, id, ex, ex.unit, mem, wb
    {
      Machine(fetch.State(), id.State(), ex.State(), mem.State(), wb.State(), regs, ram)
    }

    constructor (vector: Word, regs: RegFile, ram: Mem)
      ensures State() == Reset(vector, regs, ram)
    {
      fetch := new IfStage.Stage(vector);
      id := new IdStage.Stage();
      ex := new ExStage.Stage();
      mem := new MemStage.Stage();
      wb := new WbStage.Stage();
      this.regs, this.ram := regs, ram;
    }

    method ClockStages(fetchIn: IfStage.In, idIn: IdStage.In, exIn: ExStage.In, memIn: MemStage.In, stall: bool,
                       wbIn: WbStage.Regs)
      modifies fetch, id, ex, ex.unit, mem, wb
      ensures fetch.State() == IfStage.Next(old(fetch.State()), fetchIn)
              && id.State() == IdStage.Next(old(id.State()), idIn)
      ensures ex.State() == ExStage.Next(old(ex.State()), exIn) && mem.State() == MemStage.Next(old(mem.State()), memIn)
      ensures wb.State() == WbStage.Next(old(wb.State()), stall, wbIn)
    {
      hide IfStage.Next, IdStage.Next, ExStage.Next, MemStage.Next, WbStage.Next;
      fetch.Clock(fetchIn);
      id.Clock(idIn);
      ex.Clock(exIn);
      mem.Clock(memIn);
      wb.Clock(stall, wbIn);
    }

    method Clock(code: Code, y: Cycle)
      modifies this, fetch, id, ex, ex.unit, mem, wb
      ensures State() == Next(code, old(State()), y)
    {
      hide IfStage.Next, IdStage.Next, ExStage.Next, MemStage.Next, WbStage.Next, FetchIn, Control, MemIn, ToWb,
           IssueFromId, NextRegs, NextRam;
      var c, stall := State(), y.imemWait || y.dmemWait;
      var fetchIn, u := FetchIn(code, c, y), Control(c, y);
      var idIn := IdStage.In(ControlUnit.Flush(u), ControlUnit.IdStall(u), IfStage.Ir(c.fetch, fetchIn), c.fetch.pc,
                             IfStage.NextPc(c.fetch));
      var exIn := ExStage.In(ControlUnit.ExStall(u), ControlUnit.FlushEx(u), false, IssueFromId(c));
      ClockStages(fetchIn, idIn, exIn, MemIn(c, y), stall, ToWb(c, y));
      regs, ram := NextRegs(c, stall), NextRam(c, y);
    }
  }
}
