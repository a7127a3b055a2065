/** The bus arbiter between fetches and data accesses (rtl/core/friscv_arbiter.sv). */
module Arbiter {
  import opened Words
  import opened Isa
  import opened Decoder

  datatype Phase = Idle | HoldInst | HoldData

  datatype Request = Request(addr: Word, size: Width, wdata: Word, write: bool, amo: AmoOp)

  datatype Regs = Regs(phase: Phase, dataPriority: bool, instAddr: Word, data: Request)

  datatype In = In(instEn: bool, instAddr: Word, dataEn: bool, data: Request, wait: bool, err: bool)

  datatype Rw = RwIdle | RwRead | RwWrite

  datatype Command = Command(addr: Word, size: Width, wdata: Word, rw: Rw, amo: AmoOp)

  datatype Side = Inst | Data

  const NO_REQUEST: Request := Request(0, I32, 0, false, AmoNone)
  const RESET: Regs := Regs(Idle, false, 0, NO_REQUEST)
  const SILENT: Command := Command(0, I32, 0, RwIdle, AmoNone)

  // ----- issue selection -----

  predicate Takes(r: Regs, i: In, side: Side) {
    r.phase == Idle &&
    match side
    case Inst => i.instEn && !(i.dataEn && r.dataPriority)
    case Data => i.dataEn && !(i.instEn && !r.dataPriority)
  }

  predicate Held(r: Regs, side: Side) {
    r.phase == match side case Inst => HoldInst case Data => HoldData
  }

  /** The side's transaction is on the bus, newly issued or held. */
  predicate Busy(r: Regs, i: In, side: Side) {
    Takes(r, i, side) || Held(r, side)
  }

  predicate Done(r: Regs, i: In, side: Side) {
    Busy(r, i, side) && !i.wait
  }

  // ----- outputs -----

  function InstCommand(addr: Word): Command {
    Command(addr, I32, 0, RwRead, AmoNone)
  }

  function DataCommand(d: Request): Command {
    Command(d.addr, d.size, d.wdata, if d.write then RwWrite else RwRead, d.amo)
  }

  function Bus(r: Regs, i: In): Command {
    if Busy(r, i, Inst) then InstCommand(if Takes(r, i, Inst) then i.instAddr else r.instAddr)
    else if Busy(r, i, Data) then DataCommand(if Takes(r, i, Data) then i.data else r.data)
    else SILENT
  }

  predicate Wants(i: In, side: Side) {
    match side
    case Inst => i.instEn
    case Data => i.dataEn
  }

  function Other(side: Side): Side {
    if side == Inst then Data else Inst
  }

  /** The wait line of a side: its own transaction's, or high while it is queued. */
  predicate WaitOut(r: Regs, i: In, side: Side) {
    if Busy(r, i, side) then i.wait else Wants(i, side)
  }

  predicate ErrOut(r: Regs, i: In, side: Side) {
    Busy(r, i, side) && i.err
  }

  // ----- the clock edge -----

  function Next(r: Regs, i: In): Regs {
    var inst, data := Takes(r, i, Inst), Takes(r, i, Data);
    Regs(
      if r.phase == Idle then (if !i.wait then Idle else if inst then HoldInst else if data then HoldData else Idle)
      else if i.wait then r.phase
      else Idle,
      if Done(r, i, Inst) || Done(r, i, Data) then Busy(r, i, Inst) else r.dataPriority,
      if inst && i.wait then i.instAddr else r.instAddr,
      if data && i.wait then i.data else r.data)
  }

  class Unit {
    var phase: Phase
    var dataPriority: bool
    var instAddr: Word
    var data: Request

    function State(): Regs
      reads this
    {
      Regs(phase, dataPriority, instAddr, data)
    }

    constructor ()
      ensures State() == RESET
    {
      phase, dataPriority, instAddr, data := Idle, false, 0, NO_REQUEST;
    }

    method Clock(i: In)
      modifies this
      ensures State() == Next(old(State()), i)
    {
      var takeInst, takeData := false, false;
      if phase == Idle {
        if i.instEn && i.dataEn {
          takeInst, takeData := !dataPriority, dataPriority;
        } else {
          takeInst, takeData := i.instEn, i.dataEn;
        }
      }
      var busyInst, busyData := takeInst || phase == HoldInst, takeData || phase == HoldData;
      var park := (takeInst || takeData) && i.wait;
      if phase == Idle {
        if park { phase := if takeInst then HoldInst else HoldData; }
      } else if !i.wait {
        phase := Idle;
      }
      if park && takeInst { instAddr := i.instAddr; }
      if park && takeData { data := i.data; }
      if (busyInst || busyData) && !i.wait { dataPriority := busyInst; }
    }
  }

  // ----- runs -----

  function Run(r: Regs, ins: seq<In>): Regs
    decreases ins
  {
    if ins == [] then r else Run(Next(r, ins[0]), ins[1..])
  }

  /** At most one side is on the bus, and a command is on the bus exactly when one is. */
  lemma OneOwner(r: Regs, i: In)
    ensures !(Busy(r, i, Inst) && Busy(r, i, Data))
    ensures Bus(r, i).rw == RwIdle <==> !Busy(r, i, Inst) && !Busy(r, i, Data)
    ensures r.phase == Idle && (i.instEn || i.dataEn) ==> Busy(r, i, Inst) || Busy(r, i, Data)
    ensures forall side :: Takes(r, i, side) ==> Wants(i, side) && !Held(r, side)
  {
  }

  /** Completion is signalled to its owner only: a requesting side sees its wait line low exactly when it is done. */
  lemma WaitMeansOwnCompletion(r: Regs, i: In, side: Side)
    requires Wants(i, side)
    ensures !WaitOut(r, i, side) <==> Done(r, i, side)
    ensures Done(r, i, side) ==> WaitOut(r, i, Other(side)) == Wants(i, Other(side))
    ensures ErrOut(r, i, side) ==> !Busy(r, i, Other(side))
  {
  }

  /** A command the memory does not complete is driven again, whatever the inputs do. */
  lemma {:induction false} CommandConstant(r: Regs, i: In, more: seq<In>, last: In, side: Side)
    requires Busy(r, i, side) && i.wait && forall j :: 0 <= j < |more| ==> more[j].wait
    ensures var r' := Run(Next(r, i), more);
            Held(r', side) && Busy(r', last, side) && Bus(r', last) == Bus(r, i)
    decreases more
  {
    if more == [] {
    } else {
      CommandConstant(Next(r, i), more[0], more[1..], last, side);
    }
  }

  // ----- grants, completions and fairness -----

  function One(b: bool): nat {
    if b then 1 else 0
  }

  function Grants(r: Regs, ins: seq<In>, side: Side): nat
    decreases ins
  {
    if ins == [] then 0 else One(Takes(r, ins[0], side)) + Grants(Next(r, ins[0]), ins[1..], side)
  }

  function Completions(r: Regs, ins: seq<In>, side: Side): nat
    decreases ins
  {
    if ins == [] then 0 else One(Done(r, ins[0], side)) + Completions(Next(r, ins[0]), ins[1..], side)
  }

  /** Every granted transaction completes exactly once, except the one still held. */
  lemma {:induction false} GrantsComplete(r: Regs, ins: seq<In>, side: Side)
    ensures One(Held(r, side)) + Grants(r, ins, side) == Completions(r, ins, side) + One(Held(Run(r, ins), side))
    decreases ins
  {
    if ins == [] {
    } else {
      GrantsComplete(Next(r, ins[0]), ins[1..], side);
    }
  }

  // ----- what the memory gets is what was asked for -----

  /** The data requests granted, as the core puts them in the cycles of their grants. */
  function Asked(r: Regs, ins: seq<In>): seq<Request>
    decreases ins
  {
    if ins == [] then []
    else if Takes(r, ins[0], Data) then [ins[0].data] + Asked(Next(r, ins[0]), ins[1..])
    else Asked(Next(r, ins[0]), ins[1..])
  }

  function Fetched(r: Regs, ins: seq<In>): seq<Word>
    decreases ins
  {
    if ins == [] then []
    else if Takes(r, ins[0], Inst) then [ins[0].instAddr] + Fetched(Next(r, ins[0]), ins[1..])
    else Fetched(Next(r, ins[0]), ins[1..])
  }

  /** The commands of one side that the memory completes, as they stand on the bus. */
  function Served(r: Regs, ins: seq<In>, side: Side): seq<Command>
    decreases ins
  {
    if ins == [] then []
    else if Done(r, ins[0], side) then [Bus(r, ins[0])] + Served(Next(r, ins[0]), ins[1..], side)
    else Served(Next(r, ins[0]), ins[1..], side)
  }

  predicate Carries(c: Command, d: Request) {
    && c.addr == d.addr && c.size == d.size && c.wdata == d.wdata && c.amo == d.amo
    && c.rw == if d.write then RwWrite else RwRead
  }

  predicate ReadsWordAt(c: Command, addr: Word) {
    c.addr == addr && c.size == I32 && c.rw == RwRead && c.amo == AmoNone
  }

  /** The commands carry the first of the requests, in order. */
  predicate InOrder(cs: seq<Command>, ds: seq<Request>) {
    |cs| <= |ds| && forall k :: 0 <= k < |cs| ==> Carries(cs[k], ds[k])
  }

  predicate FetchesInOrder(cs: seq<Command>, addrs: seq<Word>) {
    |cs| <= |addrs| && forall k :: 0 <= k < |cs| ==> ReadsWordAt(cs[k], addrs[k])
  }

  /** With the request held, if there is one, first. */
  function AskedWithHeld(r: Regs, ins: seq<In>): seq<Request> {
    if Held(r, Data) then [r.data] + Asked(r, ins) else Asked(r, ins)
  }

  function FetchedWithHeld(r: Regs, ins: seq<In>): seq<Word> {
    if Held(r, Inst) then [r.instAddr] + Fetched(r, ins) else Fetched(r, ins)
  }

  function Oldest(r: Regs, i: In): Request {
    if Held(r, Data) then r.data else i.data
  }

  function OldestFetch(r: Regs, i: In): Word {
    if Held(r, Inst) then r.instAddr else i.instAddr
  }

  lemma CarriesOldest(r: Regs, i: In)
    ensures Done(r, i, Data) ==> Carries(Bus(r, i), Oldest(r, i))
    ensures Done(r, i, Inst) ==> ReadsWordAt(Bus(r, i), OldestFetch(r, i))
  {
  }

  /** A cycle that completes nothing leaves all requests; one that does takes the oldest. */
  lemma ServesOldest(r: Regs, ins: seq<In>)
    requires ins != []
    ensures var later := AskedWithHeld(Next(r, ins[0]), ins[1..]);
            AskedWithHeld(r, ins) == if Done(r, ins[0], Data) then [Oldest(r, ins[0])] + later else later
  {
    hide Next;
    DataMoves(r, ins[0]);
  }

  lemma DataMoves(r: Regs, i: In)
    ensures var r' := Next(r, i);
            && (Held(r', Data) <==> Busy(r, i, Data) && !Done(r, i, Data))
            && (Held(r', Data) ==> r'.data == Oldest(r, i))
            && !(Held(r, Data) && Takes(r, i, Data))
  {
  }

  lemma InstMoves(r: Regs, i: In)
    ensures var r' := Next(r, i);
            && (Held(r', Inst) <==> Busy(r, i, Inst) && !Done(r, i, Inst))
            && (Held(r', Inst) ==> r'.instAddr == OldestFetch(r, i))
            && !(Held(r, Inst) && Takes(r, i, Inst))
  {
  }

  lemma FetchesOldest(r: Regs, ins: seq<In>)
    requires ins != []
    ensures var later := FetchedWithHeld(Next(r, ins[0]), ins[1..]);
            FetchedWithHeld(r, ins) == if Done(r, ins[0], Inst) then [OldestFetch(r, ins[0])] + later else later
  {
    hide Next;
    InstMoves(r, ins[0]);
  }

  lemma OneMore(c: Command, cs: seq<Command>, d: Request, ds: seq<Request>)
    requires Carries(c, d) && InOrder(cs, ds)
    ensures InOrder([c] + cs, [d] + ds)
  {
    hide Carries;
  }

  lemma OneFetchMore(c: Command, cs: seq<Command>, addr: Word, addrs: seq<Word>)
    requires ReadsWordAt(c, addr) && FetchesInOrder(cs, addrs)
    ensures FetchesInOrder([c] + cs, [addr] + addrs)
  {
    hide ReadsWordAt;
  }

  lemma {:induction false} ServesHeldFirst(r: Regs, ins: seq<In>)
    ensures InOrder(Served(r, ins, Data), AskedWithHeld(r, ins))
    ensures |AskedWithHeld(r, ins)| == |Served(r, ins, Data)| + One(Held(Run(r, ins), Data))
    decreases ins
  {
    if ins == [] {
    } else {
      hide Next, Done, Bus, Carries, AskedWithHeld, InOrder, Asked, Held, Oldest;
      var r' := Next(r, ins[0]);
      ServesHeldFirst(r', ins[1..]);
      ServesOldest(r, ins);
      if Done(r, ins[0], Data) {
        CarriesOldest(r, ins[0]);
        OneMore(Bus(r, ins[0]), Served(r', ins[1..], Data), Oldest(r, ins[0]), AskedWithHeld(r', ins[1..]));
      }
    }
  }

  lemma {:induction false} FetchesHeldFirst(r: Regs, ins: seq<In>)
    ensures FetchesInOrder(Served(r, ins, Inst), FetchedWithHeld(r, ins))
    ensures |FetchedWithHeld(r, ins)| == |Served(r, ins, Inst)| + One(Held(Run(r, ins), Inst))
    decreases ins
  {
    if ins == [] {
    } else {
      hide Next, Done, Bus, ReadsWordAt, FetchedWithHeld, FetchesInOrder, Fetched, Held, OldestFetch;
      var r' := Next(r, ins[0]);
      FetchesHeldFirst(r', ins[1..]);
      FetchesOldest(r, ins);
      if Done(r, ins[0], Inst) {
        CarriesOldest(r, ins[0]);
        OneFetchMore(Bus(r, ins[0]), Served(r', ins[1..], Inst), OldestFetch(r, ins[0]),
                     FetchedWithHeld(r', ins[1..]));
      }
    }
  }

  /**
   * Over every run from reset the data commands the memory completes are the requests granted, in order and complete
   * but for the one still held: address, size, data and atomic operation of the request in the cycle of its grant, a
   * write exactly when it asks for one. The fetches are word reads at the addresses granted.
   */
  lemma ServesAsAsked(ins: seq<In>)
    ensures InOrder(Served(RESET, ins, Data), Asked(RESET, ins))
    ensures FetchesInOrder(Served(RESET, ins, Inst), Fetched(RESET, ins))
    ensures |Asked(RESET, ins)| == |Served(RESET, ins, Data)| + One(Held(Run(RESET, ins), Data))
    ensures |Fetched(RESET, ins)| == |Served(RESET, ins, Inst)| + One(Held(Run(RESET, ins), Inst))
  {
    ServesHeldFirst(RESET, ins);
    FetchesHeldFirst(RESET, ins);
  }

  predicate Favoured(r: Regs, side: Side) {
    Held(r, side) || (r.phase == Idle && r.dataPriority == (side == Data))
  }

  lemma {:induction false} FavouredIsNext(r: Regs, ins: seq<In>, side: Side)
    requires Favoured(r, side) && forall j :: 0 <= j < |ins| ==> Wants(ins[j], side)
    requires Completions(r, ins, side) == 0
    ensures Completions(r, ins, Other(side)) == 0
    decreases ins
  {
    if ins == [] {
    } else {
      FavouredIsNext(Next(r, ins[0]), ins[1..], side);
    }
  }

  /** A side that keeps requesting waits for at most one transaction of the other side, from any state. */
  lemma {:induction false} WaitsForAtMostOne(r: Regs, ins: seq<In>, side: Side)
    requires forall j :: 0 <= j < |ins| ==> Wants(ins[j], side)
    requires Completions(r, ins, side) == 0
    ensures Completions(r, ins, Other(side)) <= 1
    decreases ins
  {
    if ins == [] {
    } else {
      if Done(r, ins[0], Other(side)) {
        FavouredIsNext(Next(r, ins[0]), ins[1..], side);
      } else {
        WaitsForAtMostOne(Next(r, ins[0]), ins[1..], side);
      }
    }
  }
}
