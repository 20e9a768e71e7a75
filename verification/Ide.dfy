/** The IDE interrupt handshake: `irq_ready` and a semaphore between the interrupt handler of a channel
    and the one task that uses the channel, with the sector loops of that task, on top of the scheduler, and
    the disk at the other end.

    The other tasks and devices are arbitrary; they only keep off the channel's semaphore. */
module Ide {
  import opened Wrappers
  import opened Sched
  import opened SchedRuns
  import Kernel

  datatype Op = Identify | ReadSector | WriteSector

  /** Where the client is, for one sector.  Reading waits for the interrupt, polls and then transfers the
      data; writing polls, transfers and then waits. */
  datatype Pc = Between | Arming | Commanded | Moving | Filled | Waiting | Answered | Panicked

  /** What happened to the handshake; an interrupt is accepted after the command was written to the
      port, or in the short time between clearing irq_ready and writing it. */
  datatype Mark = Armed | Accepted(issued: bool) | Passed

  /** What the client is asked for, the sector it is at, and the sectors whose data it has moved. */
  datatype Request = Request(op: Op, first: nat, count: nat, index: nat, data: seq<nat>)

  /** The disk, as the ATA standard has it: it is busy from a command until it has the data (reading) or wants
      it (writing), and again while it stores what it got.  A command that it gets while it is not free has
      no defined effect. */
  datatype Disk = Free | Fetching(sector: nat) | HasData(sector: nat) | Preparing(sector: nat) | WantsData(sector: nat)
                | Storing(sector: nat) | Unknown

  /** Besides the disk: whether it asks for an interrupt, and the sectors it has finished to store, well or
      not, which the driver does not look at. */
  datatype Sys = Sys(k: State, irqReady: bool, req: Request, pc: Pc, commands: nat, log: seq<Mark>,
                     looks: nat, disk: Disk, line: bool, ended: seq<nat>)

  datatype Action = Begin(op: Op, first: nat, count: nat) | Arm | Issue | DownSem | Look(bsy: bool, drq: bool)
                    | Transfer(sector: nat) | Interrupt | DiskDone(ok: bool) | Other(e: Event)

  const MAX_LOOKS: nat := 1000

  /** The sector that the client is at. */
  function Sector(s: Sys): nat {
    s.req.first + s.req.index
  }

  /** The status bits that the disk may show. */
  predicate Shows(d: Disk, bsy: bool, drq: bool) {
    match d
    case Free => !bsy && !drq
    case HasData(_) => !bsy && drq
    case WantsData(_) => !bsy && drq
    case Unknown => true
    case _ => bsy
  }

  /** ide_is_device_ready comes before the transfer. */
  predicate Polls(s: Sys) {
    s.pc == if s.req.op == WriteSector then Commanded else Answered
  }

  /** The client's next action, if it runs; interrupts whenever they are enabled, asked for or not; and the
      disk whenever it is busy.  After a panic nothing happens. */
  predicate Can(s: Sys, a: Action, client: nat, sem: nat) {
    s.pc != Panicked
    && match a
       case Begin(op, _, count) =>
         s.k.current == client && s.pc == Between && s.req.index == s.req.count && (op == Identify ==> count == 1)
       case Arm => s.k.current == client && s.pc == Between && s.req.index < s.req.count
       case Issue => s.k.current == client && s.pc == Arming
       case DownSem => s.k.current == client && s.pc == if s.req.op == WriteSector then Filled else Commanded
       case Look(bsy, drq) => s.k.current == client && Polls(s) && Shows(s.disk, bsy, drq)
       case Transfer(sector) =>
         s.k.current == client && s.pc == Moving
         && if s.req.op == WriteSector then sector == Sector(s) else s.disk.HasData? ==> sector == s.disk.sector
       case Interrupt => s.k.intr
       case DiskDone(_) => s.disk.Fetching? || s.disk.Preparing? || s.disk.Storing?
       case Other(e) => Enabled(s.k, e) && e != SemDown(sem) && e != SemUp(sem) && e != DeviceIrq(sem)
  }

  /** The end of an iteration of the sector loop. */
  function NextSector(s: Sys): Sys {
    s.(pc := Between, req := s.req.(index := s.req.index + 1))
  }

  /** The down passes; for a write that ends the iteration. */
  function Pass(s: Sys): Sys {
    var s1 := s.(log := s.log + [Passed]);
    if s.req.op == WriteSector then NextSector(s1) else s1.(pc := Answered)
  }

  /** The command reaches the port, which also takes back a request for an interrupt. */
  function Command(s: Sys): Sys {
    var d := if !s.disk.Free? then Unknown else if s.req.op == WriteSector then Preparing(Sector(s))
             else Fetching(Sector(s));
    s.(pc := Commanded, disk := d, line := false)
  }

  /** One iteration of ide_is_device_ready; reading the status takes back a request for an interrupt.  If the
      disk is not busy, the answer is whether it has or wants data. */
  function Peek(s: Sys, bsy: bool, drq: bool): Sys {
    if bsy then s.(line := false, looks := s.looks + 1, pc := if s.looks + 1 < MAX_LOOKS then s.pc else Panicked)
    else s.(line := false, pc := if drq then Moving else Panicked)
  }

  /** The data of the sector moves; for a read that ends the iteration. */
  function Move(s: Sys, sector: nat): Sys {
    var s1 := s.(req := s.req.(data := s.req.data + [sector]));
    if s.req.op == WriteSector then
      s1.(pc := Filled, disk := if s.disk.WantsData? then Storing(sector) else Unknown)
    else NextSector(s1.(disk := if s.disk.HasData? then Free else Unknown))
  }

  /** The disk has done what it was busy with, or has failed; it asks for an interrupt unless it only wants
      the data now. */
  function Done(s: Sys, ok: bool): Sys {
    match s.disk
    case Fetching(x) => s.(disk := if ok then HasData(x) else Free, line := true)
    case Preparing(x) => if ok then s.(disk := WantsData(x)) else s.(disk := Free, line := true)
    case Storing(x) => s.(disk := Free, line := true, ended := s.ended + [x])
    case _ => s
  }

  /** __ide_irq_handler.  It reads the status only if it accepts the interrupt. */
  function Handle(s: Sys, sem: nat): Sys
    requires sem < |s.k.sems|
  {
    if s.irqReady then s
    else
      var s1 := s.(irqReady := true, k := Up(s.k, sem), log := s.log + [Accepted(s.pc != Arming)], line := false);
      if s.k.sems[sem].queue == [] then s1 else Pass(s1)
  }

  /** semaphore_down_nint by the client. */
  function Await(s: Sys, sem: nat): Sys
    requires sem < |s.k.sems|
  {
    var s1 := s.(k := Down(s.k, sem));
    if s.k.sems[sem].value > 0 then Pass(s1) else s1.(pc := Waiting)
  }

  function Act(s: Sys, a: Action, sem: nat): Sys
    requires sem < |s.k.sems|
  {
    match a
    case Begin(op, first, count) => s.(req := Request(op, first, count, 0, []))
    case Arm => s.(irqReady := false, pc := Arming, commands := s.commands + 1, log := s.log + [Armed], looks := 0)
    case Issue => Command(s)
    case DownSem => Await(s, sem)
    case Look(bsy, drq) => Peek(s, bsy, drq)
    case Transfer(sector) => Move(s, sector)
    case Interrupt => Handle(s, sem)
    case DiskDone(ok) => Done(s, ok)
    case Other(e) => s.(k := Apply(s.k, e))
  }

  // ----- the same in place

  /** struct ide_channel as far as the handshake goes; `port` collects what is written to the command
      port. */
  class Channel {
    const sem: nat
    var irqReady: bool
    var port: seq<bv8>

    /** __ide_channel_init, for a semaphore that semaphore_init has set to zero. */
    constructor (sem: nat)
      ensures this.sem == sem && irqReady && port == []
    {
      this.sem, irqReady, port := sem, true, [];
    }

    /** The channel and its client, the kernel's structures being in state k. */
    ghost function View(k: State, s: Sys): Sys
      reads this`irqReady
    {
      s.(k := k, irqReady := irqReady)
    }

    /** __ide_irq_handler: the state it leaves is that of the interrupt action, pc and log being the
        client's.  If the status port is read, the disk no longer asks for an interrupt. */
    method IrqHandler(kernel: Kernel.Scheduler, ghost s: Sys) returns (ghost statusRead: bool)
      requires kernel.Footprint() && Inv(kernel.Now()) && sem < |kernel.sems| && View(kernel.Now(), s) == s
      modifies this`irqReady, kernel`ready, kernel`intr, kernel.threads, kernel.sems
      ensures var s' := Act(s, Interrupt, sem); View(kernel.Now(), s') == s'
      ensures irqReady && kernel.intr == old(kernel.intr)
      ensures Act(s, Interrupt, sem).line == (s.line && !statusRead)
    {
      statusRead := false;
      if !irqReady {
        irqReady := true;
        kernel.SemaphoreUp(sem);
        statusRead := true;
      }
    }

    /** ide_send_cmd: it arms the channel first, which leaves the state `between`, and issues the command
        then. */
    method SendCmd(cmd: bv8) returns (ghost between: (bool, seq<bv8>))
      modifies this`irqReady, this`port
      ensures between == (false, old(port))
      ensures !irqReady && port == old(port) + [cmd]
    {
      irqReady := false;
      between := (irqReady, port);
      port := port + [cmd];
    }

    /** ide_is_device_ready, for the status bits that its looks at the status port would see: whether the
        first look that does not find the disk busy finds data to be moved. */
    method IsDeviceReady(bsy: seq<bool>, drq: seq<bool>) returns (ready: bool)
      requires |bsy| == |drq| == MAX_LOOKS
      ensures ready <==> ReadyAtSomeLook(bsy, drq)
    {
      var i := 0;
      while i < MAX_LOOKS
        invariant i <= MAX_LOOKS && forall j :: 0 <= j < i ==> bsy[j]
      {
        if !bsy[i] {
          return drq[i];
        }
        i := i + 1;
      }
      ready := false;
    }
  }

  /** Some look finds the disk with data to be moved, all before finding it busy. */
  ghost predicate ReadyAtSomeLook(bsy: seq<bool>, drq: seq<bool>)
    requires |drq| == |bsy|
  {
    exists i :: 0 <= i < |bsy| && !bsy[i] && drq[i] && forall j :: 0 <= j < i ==> bsy[j]
  }

  /** The client after n looks, of which those after the last that it needs are not made. */
  function Looked(s: Sys, bsy: seq<bool>, drq: seq<bool>, n: nat): Sys
    requires n <= |bsy| == |drq|
  {
    if n == 0 then s
    else
      var s1 := Looked(s, bsy, drq, n - 1);
      if Polls(s1) then Peek(s1, bsy[n - 1], drq[n - 1]) else s1
  }

  /** The looks of a run come to the same answer, after at most a thousand: the client goes on exactly when
      ide_is_device_ready says so, and panics otherwise. */
  lemma LooksDecide(s: Sys, bsy: seq<bool>, drq: seq<bool>)
    requires |bsy| == |drq| == MAX_LOOKS && Polls(s) && s.looks == 0
    ensures Looked(s, bsy, drq, MAX_LOOKS).pc == if ReadyAtSomeLook(bsy, drq) then Moving else Panicked
  {
    if i :| 0 <= i < |bsy| && !bsy[i] {
      var first := FirstIdle(bsy, i);
      DecidedAt(s, bsy, drq, first);
      hide Looked, Peek, Polls;
      assert ReadyAtSomeLook(bsy, drq) <==> drq[first];
    } else {
      AllBusy(s, bsy, drq, MAX_LOOKS - 1);
    }
  }

  lemma DecidedAt(s: Sys, bsy: seq<bool>, drq: seq<bool>, first: nat)
    requires |bsy| == |drq| == MAX_LOOKS && Polls(s) && s.looks == 0 && first < MAX_LOOKS
    requires !bsy[first] && forall j :: 0 <= j < first ==> bsy[j]
    ensures Looked(s, bsy, drq, MAX_LOOKS).pc == if drq[first] then Moving else Panicked
  {
    AllBusy(s, bsy, drq, first);
    OneMoreLook(s, bsy, drq, first);
    hide Looked;
    LooksEnd(s, bsy, drq, first + 1, MAX_LOOKS);
  }

  lemma OneMoreLook(s: Sys, bsy: seq<bool>, drq: seq<bool>, n: nat)
    requires n < |bsy| == |drq|
    ensures var s1 := Looked(s, bsy, drq, n);
            Looked(s, bsy, drq, n + 1) == if Polls(s1) then Peek(s1, bsy[n], drq[n]) else s1
  {
  }

  lemma {:induction false} FirstIdle(bsy: seq<bool>, i: nat) returns (first: nat)
    requires i < |bsy| && !bsy[i]
    ensures first <= i && !bsy[first] && forall j :: 0 <= j < first ==> bsy[j]
  {
    first := i;
    if j :| 0 <= j < i && !bsy[j] {
      first := FirstIdle(bsy, j);
    }
  }

  lemma {:induction false} AllBusy(s: Sys, bsy: seq<bool>, drq: seq<bool>, n: nat)
    requires |bsy| == |drq| == MAX_LOOKS && Polls(s) && s.looks == 0 && n < MAX_LOOKS
    requires forall j :: 0 <= j < n ==> bsy[j]
    ensures Looked(s, bsy, drq, n) == if n == 0 then s else s.(line := false, looks := n)
  {
    if n > 0 {
      AllBusy(s, bsy, drq, n - 1);
    }
  }

  lemma {:induction false} LooksEnd(s: Sys, bsy: seq<bool>, drq: seq<bool>, m: nat, n: nat)
    requires m <= n <= |bsy| == |drq| && !Polls(Looked(s, bsy, drq, m))
    ensures Looked(s, bsy, drq, n) == Looked(s, bsy, drq, m)
  {
    if m < n {
      LooksEnd(s, bsy, drq, m, n - 1);
    }
  }

  // ----- the invariant

  /** Every sector arms once, then one interrupt is accepted, then its down passes. */
  ghost predicate Cycle(log: seq<Mark>) {
    forall n :: 0 <= n < |log| ==>
      if n % 3 == 0 then log[n].Armed? else if n % 3 == 1 then log[n].Accepted? else log[n].Passed?
  }

  /** The sectors moved are those before the current one, in order, and for a write whose data is out
      already the current one too.  What is read from a disk in an undefined state may be anything. */
  ghost predicate SectorsOk(req: Request, pc: Pc, disk: Disk) {
    && req.index <= req.count && (pc != Between ==> req.index < req.count)
    && |req.data| == req.index + (if req.op == WriteSector && (pc == Filled || pc == Waiting) then 1 else 0)
    && (req.op == WriteSector || disk != Unknown ==> forall n :: 0 <= n < |req.data| ==> req.data[n] == req.first + n)
    && (pc == Filled ==> req.op == WriteSector) && (pc == Answered ==> req.op != WriteSector)
  }

  /** The disk is at the client's sector, at or after what the client has asked it for; only after a write may
      the client be ahead of it. */
  ghost predicate DiskOk(s: Sys) {
    var (d, x, write) := (s.disk, Sector(s), s.req.op == WriteSector);
    d == Unknown || (d == Free && s.pc != Moving)
    || match s.pc
       case Between => d.Storing?
       case Arming => d.Storing?
       case Moving => d == if write then WantsData(x) else HasData(x)
       case Panicked => true
       case _ =>
         if !write then d == Fetching(x) || d == HasData(x)
         else if s.pc == Commanded then d == Preparing(x) || d == WantsData(x)
         else d == Storing(x)
  }

  ghost predicate Handshake(s: Sys, client: nat, sem: nat) {
    && SectorsOk(s.req, s.pc, s.disk) && DiskOk(s)
    && Inv(s.k) && client != s.k.idle && sem < |s.k.sems|
    && Cycle(s.log) && s.k.sems[sem].initial == 0
    && s.commands == s.k.sems[sem].ups + (if s.irqReady then 0 else 1)
    && match s.pc
       case Between => Quiet(s, sem)
       case Answered => Quiet(s, sem) && s.log != []
       case Waiting => |s.log| % 3 == 1 && !s.irqReady && s.k.sems[sem].value == 0 && s.k.sems[sem].queue == [client]
       case Moving => if s.req.op == WriteSector then Open(s, sem) else Quiet(s, sem) && s.log != []
       case Panicked => s.k.sems[sem].value <= 1
       case _ => Open(s, sem)
  }

  /** An interrupt is outstanding, or the down that follows it. */
  ghost predicate Open(s: Sys, sem: nat)
    requires sem < |s.k.sems|
  {
    && s.k.sems[sem].queue == []
    && |s.log| % 3 == (if s.irqReady then 2 else 1)
    && s.k.sems[sem].value == if s.irqReady then 1 else 0
  }

  /** Nothing is outstanding. */
  ghost predicate Quiet(s: Sys, sem: nat)
    requires sem < |s.k.sems|
  {
    |s.log| % 3 == 0 && s.irqReady && s.k.sems[sem].value == 0 && s.k.sems[sem].queue == []
  }

  ghost predicate Initial(s: Sys, client: nat, sem: nat) {
    && Inv(s.k) && client != s.k.idle && sem < |s.k.sems|
    && s.k.sems[sem] == Sem(0, [], 0, 0, 0, [], []) && s.irqReady && s.pc == Between && s.commands == 0 && s.log == []
    && s.req.index == s.req.count == 0 && s.req.data == [] && s.disk == Free && !s.line && s.ended == []
    && s.looks == 0
  }

  /** Whoever else acts leaves the channel's semaphore alone. */
  lemma OtherKeepsSem(k: State, e: Event, sem: nat)
    requires Inv(k) && Enabled(k, e) && sem < |k.sems| && e != SemDown(sem) && e != SemUp(sem) && e != DeviceIrq(sem)
    ensures sem < |Apply(k, e).sems| && Apply(k, e).sems[sem] == k.sems[sem] && Apply(k, e).idle == k.idle
  {
    hide Schedule, QueuesOk, SemOk, ReadyOk;
    match e {
      case TimerTick =>
        CountKeeps(k);
        if k.tasks[k.current].ticks == 0 {
          LeaveBlocked(Count(k), Running, [true]);
          ScheduleKeeps(Leave(Count(k), Running, [true]));
        }
      case YieldCpu =>
        YieldSwitchable(k);
        ScheduleKeeps(Leave(k, Ready, [k.intr]).(ready := k.ready + [k.current]));
      case ParkCpu =>
        LeaveBlocked(k, Blocked, [k.intr]);
        ScheduleKeeps(Leave(k, Blocked, [k.intr]));
      case SemDown(j) =>
        if k.sems[j].value == 0 {
          JoinKeeps(k, j);
          ScheduleKeeps(Leave(k.(sems := k.sems[j := JoinQueue(k.sems[j], k.current)]), Blocked, [k.intr, false]));
        }
      case SemUp(_) =>
      case DeviceIrq(_) =>
      case NewTask(_) =>
      case SetIntr(_) =>
    }
  }

  lemma DownEffect(k: State, sem: nat)
    requires Inv(k) && sem < |k.sems| && k.current != k.idle
    ensures Inv(Down(k, sem)) && Down(k, sem).idle == k.idle && |Down(k, sem).sems| == |k.sems|
    ensures var (a, b) := (k.sems[sem], Down(k, sem).sems[sem]);
            && b.ups == a.ups && b.initial == a.initial
            && (a.value > 0 ==> b.value == a.value - 1 && b.queue == a.queue)
            && (a.value == 0 ==> b.value == 0 && b.queue == a.queue + [k.current])
  {
    hide Schedule, Shared;
    DownKeeps(k, sem);
    if k.sems[sem].value == 0 {
      JoinKeeps(k, sem);
      ScheduleKeeps(Leave(k.(sems := k.sems[sem := JoinQueue(k.sems[sem], k.current)]), Blocked, [k.intr, false]));
    }
  }

  lemma MoveKeepsSectors(s: Sys, sector: nat, client: nat, sem: nat)
    requires SectorsOk(s.req, s.pc, s.disk) && DiskOk(s) && Can(s, Transfer(sector), client, sem)
    ensures var s' := Move(s, sector); SectorsOk(s'.req, s'.pc, s'.disk)
  {
    hide Enabled, Shows;
  }

  lemma ActKeepsSectors(s: Sys, a: Action, client: nat, sem: nat)
    requires SectorsOk(s.req, s.pc, s.disk) && DiskOk(s) && Can(s, a, client, sem)
    requires sem < |s.k.sems| && (s.k.sems[sem].queue != [] ==> s.pc == Waiting)
    ensures var s' := Act(s, a, sem); SectorsOk(s'.req, s'.pc, s'.disk)
  {
    hide Apply, Down, Up, Enabled, Shows;
    if a.Transfer? {
      MoveKeepsSectors(s, a.sector, client, sem);
    } else {
      hide DiskOk, Move;
    }
  }

  lemma ActKeepsDisk(s: Sys, a: Action, client: nat, sem: nat)
    requires SectorsOk(s.req, s.pc, s.disk) && DiskOk(s) && Can(s, a, client, sem)
    requires sem < |s.k.sems| && (s.k.sems[sem].queue != [] ==> s.pc == Waiting)
    ensures DiskOk(Act(s, a, sem))
  {
    hide Apply, Down, Up, Enabled;
    assert (s.pc == Filled ==> s.req.op == WriteSector) && (s.pc == Answered ==> s.req.op != WriteSector);
    hide SectorsOk;
    if a.Look? {
      PeekKeepsDisk(s, a.bsy, a.drq);
    } else {
      hide Shows, Peek;
    }
  }

  lemma PeekKeepsDisk(s: Sys, bsy: bool, drq: bool)
    requires DiskOk(s) && Polls(s) && Shows(s.disk, bsy, drq)
    ensures DiskOk(Peek(s, bsy, drq))
  {
  }

  lemma InterruptKeeps(s: Sys, client: nat, sem: nat)
    requires Handshake(s, client, sem) && Can(s, Interrupt, client, sem)
    requires SectorsOk(Handle(s, sem).req, Handle(s, sem).pc, Handle(s, sem).disk) && DiskOk(Handle(s, sem))
    ensures Handshake(Handle(s, sem), client, sem)
  {
    hide Inv, SectorsOk, DiskOk;
    if !s.irqReady {
      UpKeeps(s.k, sem);
    }
  }

  lemma AwaitKeeps(s: Sys, client: nat, sem: nat)
    requires Handshake(s, client, sem) && Can(s, DownSem, client, sem)
    requires SectorsOk(Await(s, sem).req, Await(s, sem).pc, Await(s, sem).disk) && DiskOk(Await(s, sem))
    ensures Handshake(Await(s, sem), client, sem)
  {
    hide Inv, Down, SectorsOk, DiskOk;
    DownEffect(s.k, sem);
  }

  lemma ActKeeps(s: Sys, a: Action, client: nat, sem: nat)
    requires Handshake(s, client, sem) && Can(s, a, client, sem)
    ensures Handshake(Act(s, a, sem), client, sem)
  {
    ActKeepsSectors(s, a, client, sem);
    ActKeepsDisk(s, a, client, sem);
    hide Inv, Apply, Down, Enabled, SectorsOk, DiskOk, Shows, Handle, Await;
    match a {
      case Interrupt => InterruptKeeps(s, client, sem);
      case DownSem => AwaitKeeps(s, client, sem);
      case Other(e) =>
        OtherKeepsSem(s.k, e, sem);
        StepKeepsInv(s.k, e);
      case _ =>
    }
  }

  // ----- whole runs

  ghost predicate Trace(states: seq<Sys>, actions: seq<Action>, client: nat, sem: nat) {
    && |states| == |actions| + 1 && Initial(states[0], client, sem)
    && forall n :: 0 <= n < |actions| ==>
         && Can(states[n], actions[n], client, sem) && sem < |states[n].k.sems|
         && states[n + 1] == Act(states[n], actions[n], sem)
  }

  lemma {:induction false} TraceKeeps(states: seq<Sys>, actions: seq<Action>, client: nat, sem: nat, n: nat)
    requires Trace(states, actions, client, sem) && n < |states|
    ensures Handshake(states[n], client, sem)
  {
    hide Act, Can;
    if n == 0 {
    } else {
      TraceKeeps(states, actions, client, sem, n - 1);
      ActKeeps(states[n - 1], actions[n - 1], client, sem);
    }
  }

  /** For every interleaving: the semaphore is never above one, at most one command is unanswered and
      irq_ready tells whether one is, and the client leaves every sector with nothing outstanding. */
  lemma AtMostOneOutstanding(states: seq<Sys>, actions: seq<Action>, client: nat, sem: nat, n: nat)
    requires Trace(states, actions, client, sem) && n < |states|
    ensures sem < |states[n].k.sems|
    ensures var (s, irqSem) := (states[n], states[n].k.sems[sem]);
            && irqSem.value <= 1
            && s.commands == irqSem.ups + (if s.irqReady then 0 else 1)
            && (s.pc == Between ==> s.irqReady && irqSem.value == 0 && irqSem.queue == []
                                    && s.commands == irqSem.ups == irqSem.passed + |irqSem.granted|)
  {
    hide Act, Can;
    TraceKeeps(states, actions, client, sem, n);
    assert SemOk(states[n].k.sems[sem]);
  }

  /** Every down passes on an interrupt of its own: the handshakes' history is a repetition of arming,
      accepting one interrupt, passing the down. */
  lemma EveryDownHasItsInterrupt(states: seq<Sys>, actions: seq<Action>, client: nat, sem: nat, n: nat)
    requires Trace(states, actions, client, sem) && n < |states|
    ensures Cycle(states[n].log)
    ensures states[n].pc == Between ==> |states[n].log| % 3 == 0
  {
    hide Act, Can;
    TraceKeeps(states, actions, client, sem, n);
  }

  /** No wake-up is lost: while the client waits, the next interrupt is accepted and makes it ready. */
  lemma WaiterIsWoken(states: seq<Sys>, actions: seq<Action>, client: nat, sem: nat, n: nat)
    requires Trace(states, actions, client, sem) && n < |actions|
    requires states[n].pc == Waiting && actions[n] == Interrupt
    ensures client in states[n + 1].k.ready
              && states[n + 1].pc == if states[n].req.op == WriteSector then Between else Answered
  {
    TraceKeeps(states, actions, client, sem, n);
    UpKeeps(states[n].k, sem);
  }

  /** A sector's data is read only after an interrupt that was accepted since the sector's command was
      announced, and with nothing outstanding. */
  lemma ReadFollowsItsInterrupt(states: seq<Sys>, actions: seq<Action>, client: nat, sem: nat, n: nat)
    requires Trace(states, actions, client, sem) && n < |actions|
    requires actions[n].Transfer? && states[n].req.op != WriteSector
    ensures var log := states[n].log;
            && |log| >= 3 && log[|log| - 3].Armed? && log[|log| - 2].Accepted? && log[|log| - 1].Passed?
            && states[n].irqReady
  {
    TraceKeeps(states, actions, client, sem, n);
    hide Handshake, Act, Initial;
    assert Can(states[n], actions[n], client, sem);
    hide Trace;
    AnsweredMeans(states[n], client, sem);
  }

  lemma AnsweredMeans(s: Sys, client: nat, sem: nat)
    requires Handshake(s, client, sem) && (s.pc == Answered || (s.pc == Moving && s.req.op != WriteSector))
    ensures var log := s.log;
            && |log| >= 3 && log[|log| - 3].Armed? && log[|log| - 2].Accepted? && log[|log| - 1].Passed?
            && s.irqReady
  {
    hide Inv, SectorsOk, DiskOk;
  }

  // ----- the window inside ide_send_cmd

  /** An interrupt while the command has been announced but not written yet. */
  ghost predicate InWindow(s: Sys, a: Action) {
    a == Interrupt && s.pc == Arming && !s.irqReady
  }

  /** Some interrupt was accepted before its command reached the port. */
  ghost predicate AcceptedEarly(log: seq<Mark>) {
    exists m :: 0 <= m < |log| && log[m] == Accepted(false)
  }

  ghost predicate SomeInWindow(states: seq<Sys>, actions: seq<Action>, n: nat)
    requires n <= |states| && n <= |actions|
  {
    exists m :: 0 <= m < n && InWindow(states[m], actions[m])
  }

  /** A down passes on an interrupt that was accepted before its command reached the port exactly if an
      interrupt came between the two writes of ide_send_cmd. */
  lemma {:induction false} EarlyIffInWindow(states: seq<Sys>, actions: seq<Action>, client: nat, sem: nat, n: nat)
    requires Trace(states, actions, client, sem) && n < |states|
    ensures AcceptedEarly(states[n].log) <==> SomeInWindow(states, actions, n)
  {
    hide Can, Act, InWindow, AcceptedEarly, Initial, SomeInWindow;
    if n == 0 {
      NothingEarly(states, actions, client, sem);
    } else {
      EarlyIffInWindow(states, actions, client, sem, n - 1);
      EarlyStep(states[n - 1], actions[n - 1], sem);
      OneMoreAction(states, actions, n - 1);
    }
  }

  lemma NothingEarly(states: seq<Sys>, actions: seq<Action>, client: nat, sem: nat)
    requires Trace(states, actions, client, sem)
    ensures !AcceptedEarly(states[0].log) && !SomeInWindow(states, actions, 0)
  {
  }

  lemma OneMoreAction(states: seq<Sys>, actions: seq<Action>, n: nat)
    requires n < |states| && n < |actions|
    ensures SomeInWindow(states, actions, n + 1)
       <==> SomeInWindow(states, actions, n) || InWindow(states[n], actions[n])
  {
    hide InWindow;
  }

  lemma EarlyStep(s: Sys, a: Action, sem: nat)
    requires sem < |s.k.sems|
    ensures AcceptedEarly(Act(s, a, sem).log) <==> AcceptedEarly(s.log) || InWindow(s, a)
  {
    hide Apply, Up, Down;
    var log := Act(s, a, sem).log;
    assert s.log <= log;
    assert forall m :: 0 <= m < |s.log| ==> log[m] == s.log[m];
    if InWindow(s, a) {
      assert log[|s.log|] == Accepted(false);
    } else {
      assert forall m :: |s.log| <= m < |log| ==> log[m] != Accepted(false);
    }
  }

  /** Masking is enough: if interrupts are off whenever a command is announced but not yet written, no
      interrupt from before a command ever answers it. */
  lemma MaskedWindowIsSafe(states: seq<Sys>, actions: seq<Action>, client: nat, sem: nat, n: nat)
    requires Trace(states, actions, client, sem) && n < |states|
    requires forall m :: 0 <= m < n && states[m].pc == Arming ==> !states[m].k.intr
    ensures !AcceptedEarly(states[n].log)
  {
    hide Act, AcceptedEarly;
    EarlyIffInWindow(states, actions, client, sem, n);
  }

  /** Masking is necessary: from every trace that reaches the window with interrupts on, an interrupt is
      possible, and after it one has been accepted too early. */
  lemma OpenWindowIsHit(states: seq<Sys>, actions: seq<Action>, client: nat, sem: nat)
    requires Trace(states, actions, client, sem)
    requires var s := states[|actions|]; s.pc == Arming && s.k.intr
    ensures sem < |states[|actions|].k.sems|
    ensures var next := Act(states[|actions|], Interrupt, sem);
            Trace(states + [next], actions + [Interrupt], client, sem) && AcceptedEarly(next.log)
  {
    hide AcceptedEarly, Up, Inv;
    var s := states[|actions|];
    TraceKeeps(states, actions, client, sem, |actions|);
    TraceExtended(states, actions, Interrupt, client, sem);
    EarlyStep(s, Interrupt, sem);
    if s.irqReady {
      hide Act, Handshake, Trace, Can;
      ReadyMeansEarly(states, actions, client, sem, |actions|);
    }
  }

  lemma TraceExtended(states: seq<Sys>, actions: seq<Action>, a: Action, client: nat, sem: nat)
    requires Trace(states, actions, client, sem) && sem < |states[|actions|].k.sems|
    requires Can(states[|actions|], a, client, sem)
    ensures Trace(states + [Act(states[|actions|], a, sem)], actions + [a], client, sem)
  {
    hide Act, Can, Initial;
  }

  /** While the window is open, irq_ready is set only by an interrupt that was accepted in it. */
  lemma {:induction false} ReadyMeansEarly(states: seq<Sys>, actions: seq<Action>, client: nat, sem: nat, n: nat)
    requires Trace(states, actions, client, sem) && n < |states|
    requires states[n].pc == Arming && states[n].irqReady
    ensures AcceptedEarly(states[n].log)
  {
    hide AcceptedEarly, Act, Can, InWindow;
    if n > 0 {
      EarlyStep(states[n - 1], actions[n - 1], sem);
      ReadyStep(states[n - 1], actions[n - 1], client, sem);
      if states[n - 1].pc == Arming && states[n - 1].irqReady {
        ReadyMeansEarly(states, actions, client, sem, n - 1);
      }
    }
  }

  lemma ReadyStep(s: Sys, a: Action, client: nat, sem: nat)
    requires sem < |s.k.sems| && Can(s, a, client, sem)
    requires Act(s, a, sem).pc == Arming && Act(s, a, sem).irqReady
    ensures (s.pc == Arming && s.irqReady) || InWindow(s, a)
  {
    hide Apply, Up, Down, Enabled, Shows;
  }

  // ----- the poll

  /** The looks that have found the disk busy since the client last armed the channel. */
  function BusyLooks(actions: seq<Action>): nat {
    if actions == [] then 0
    else
      var (last, rest) := (actions[|actions| - 1], actions[..|actions| - 1]);
      if last == Arm then 0 else BusyLooks(rest) + if last.Look? && last.bsy then 1 else 0
  }

  /** They are counted, for each sector anew, and there are never more than a thousand. */
  lemma {:induction false} LooksAreCounted(states: seq<Sys>, actions: seq<Action>, client: nat, sem: nat, n: nat)
    requires Trace(states, actions, client, sem) && n < |states|
    ensures states[n].looks == BusyLooks(actions[..n])
    ensures states[n].looks < MAX_LOOKS || (states[n].looks == MAX_LOOKS && states[n].pc == Panicked)
  {
    hide Act, Can;
    if n > 0 {
      assert actions[..n][..n - 1] == actions[..n - 1];
      LooksAreCounted(states, actions, client, sem, n - 1);
      StepCountsLooks(states[n - 1], actions[n - 1], client, sem);
    }
  }

  lemma StepCountsLooks(s: Sys, a: Action, client: nat, sem: nat)
    requires Can(s, a, client, sem) && sem < |s.k.sems| && s.looks <= MAX_LOOKS
    ensures var s' := Act(s, a, sem);
            if a == Arm then s'.looks == 0
            else if a.Look? && a.bsy then
              s'.looks == s.looks + 1 && (s'.looks < MAX_LOOKS || s'.pc == Panicked)
            else s'.looks == s.looks
    ensures s.pc != Panicked
  {
    hide Apply, Up, Down, Enabled, Shows;
  }

  /** So wherever a run comes to the poll, ide_is_device_ready decides how it goes on. */
  lemma PollDecides(states: seq<Sys>, actions: seq<Action>, client: nat, sem: nat, n: nat,
                    bsy: seq<bool>, drq: seq<bool>)
    requires Trace(states, actions, client, sem) && n < |states| && |bsy| == |drq| == MAX_LOOKS
    requires Polls(states[n]) && BusyLooks(actions[..n]) == 0
    ensures Looked(states[n], bsy, drq, MAX_LOOKS).pc == if ReadyAtSomeLook(bsy, drq) then Moving else Panicked
  {
    hide Trace, Looked, Peek, ReadyAtSomeLook;
    LooksAreCounted(states, actions, client, sem, n);
    LooksDecide(states[n], bsy, drq);
  }

  // ----- what was asked for

  /** The last request that was made. */
  function LastRequest(actions: seq<Action>): (r: Option<Action>)
    ensures r.Some? ==> r.value.Begin? && r.value in actions
  {
    if actions == [] then None
    else
      var last := actions[|actions| - 1];
      if last.Begin? then Some(last) else LastRequest(actions[..|actions| - 1])
  }

  /** Over every interleaving, the client works on what was asked for last. */
  lemma {:induction false} WorksOnLastRequest(states: seq<Sys>, actions: seq<Action>, client: nat, sem: nat, n: nat)
    requires Trace(states, actions, client, sem) && n < |states|
    ensures match LastRequest(actions[..n])
            case None => states[n].req.count == 0
            case Some(a) =>
              states[n].req.op == a.op && states[n].req.first == a.first && states[n].req.count == a.count
  {
    hide Act, Can;
    if n > 0 {
      assert actions[..n][..n - 1] == actions[..n - 1];
      WorksOnLastRequest(states, actions, client, sem, n - 1);
      StepKeepsRequest(states[n - 1], actions[n - 1], sem);
    }
  }

  lemma StepKeepsRequest(s: Sys, a: Action, sem: nat)
    requires sem < |s.k.sems|
    ensures var (q, q') := (s.req, Act(s, a, sem).req);
            if a.Begin? then q' == Request(a.op, a.first, a.count, 0, [])
            else q'.op == q.op && q'.first == q.first && q'.count == q.count
  {
    hide Apply, Up, Down;
  }

  // ----- what the disk makes of it

  /** The client has gone on although the disk is still storing what it got. */
  predicate Overrun(s: Sys) {
    s.pc == Between && s.disk.Storing?
  }

  /** Reading waits for the disk, whatever interrupts came: the data of a sector is moved only when the disk
      has it, or after a command that came while the disk was not free. */
  lemma ReadWaitsForDisk(states: seq<Sys>, actions: seq<Action>, client: nat, sem: nat, n: nat)
    requires Trace(states, actions, client, sem) && n < |actions|
    requires actions[n].Transfer? && states[n].req.op != WriteSector
    ensures states[n].disk == Unknown
         || (states[n].disk == HasData(Sector(states[n])) && actions[n].sector == Sector(states[n]))
  {
    TraceKeeps(states, actions, client, sem, n);
  }

  /** Such a command is possible only after an overrun. */
  lemma {:induction false} UnknownMeansOverrun(states: seq<Sys>, actions: seq<Action>, client: nat, sem: nat, n: nat)
    requires Trace(states, actions, client, sem) && n < |states|
    requires forall m :: 0 <= m < n ==> !Overrun(states[m])
    ensures states[n].disk != Unknown && (states[n].pc == Arming ==> states[n].disk == Free)
  {
    hide Act, Can, Handshake;
    if n > 0 {
      UnknownMeansOverrun(states, actions, client, sem, n - 1);
      TraceKeeps(states, actions, client, sem, n - 1);
      KnownStep(states[n - 1], actions[n - 1], client, sem);
    }
  }

  lemma KnownStep(s: Sys, a: Action, client: nat, sem: nat)
    requires Handshake(s, client, sem) && Can(s, a, client, sem) && !Overrun(s)
    requires s.disk != Unknown && (s.pc == Arming ==> s.disk == Free)
    ensures Act(s, a, sem).disk != Unknown && (Act(s, a, sem).pc == Arming ==> Act(s, a, sem).disk == Free)
  {
    HandshakePoints(s, client, sem);
    assert DiskOk(s);
    hide Handshake, Apply, Up, Down, Enabled, Shows;
  }

  /** A request ends with exactly the sectors moved that were asked for, in order, unless it reads after an
      overrun. */
  lemma RequestMovesItsSectors(states: seq<Sys>, actions: seq<Action>, client: nat, sem: nat, n: nat,
                               op: Op, first: nat, count: nat)
    requires Trace(states, actions, client, sem) && n < |states|
    requires LastRequest(actions[..n]) == Some(Begin(op, first, count))
    requires states[n].pc == Between && states[n].req.index == states[n].req.count
    ensures |states[n].req.data| == count
    ensures op == WriteSector || (forall m :: 0 <= m < n ==> !Overrun(states[m])) ==>
              forall m :: 0 <= m < count ==> states[n].req.data[m] == first + m
  {
    hide Act, Can, Overrun;
    WorksOnLastRequest(states, actions, client, sem, n);
    TraceKeeps(states, actions, client, sem, n);
    if forall m :: 0 <= m < n ==> !Overrun(states[m]) {
      UnknownMeansOverrun(states, actions, client, sem, n);
    }
  }

  /** Before that it is at the sector after those that it has moved, and there are fewer than were asked
      for. */
  lemma RequestInProgress(states: seq<Sys>, actions: seq<Action>, client: nat, sem: nat, n: nat,
                          op: Op, first: nat, count: nat)
    requires Trace(states, actions, client, sem) && n < |states|
    requires LastRequest(actions[..n]) == Some(Begin(op, first, count))
    ensures states[n].pc != Between ==> first <= Sector(states[n]) < first + count
    ensures |states[n].req.data| <= count
  {
    hide Act, Can;
    WorksOnLastRequest(states, actions, client, sem, n);
    TraceKeeps(states, actions, client, sem, n);
  }

  /** And after an overrun the next command does go to a disk that is not free. */
  lemma OverrunConfuses(states: seq<Sys>, actions: seq<Action>, client: nat, sem: nat)
    requires Trace(states, actions, client, sem)
    requires var s := states[|actions|]; Overrun(s) && s.k.current == client && s.req.index < s.req.count
    ensures sem < |states[|actions|].k.sems|
    ensures var s1 := Act(states[|actions|], Arm, sem); sem < |s1.k.sems|
    ensures var s1 := Act(states[|actions|], Arm, sem);
            var s2 := Act(s1, Issue, sem);
            Trace(states + [s1] + [s2], actions + [Arm] + [Issue], client, sem) && s2.disk == Unknown
  {
    hide Inv;
    TraceKeeps(states, actions, client, sem, |actions|);
    TraceExtended(states, actions, Arm, client, sem);
    var s1 := Act(states[|actions|], Arm, sem);
    hide Trace;
    TraceExtended(states + [s1], actions + [Arm], Issue, client, sem);
  }

  // ----- runs in which only the disk interrupts

  /** An interrupt is accepted that the disk has not asked for. */
  predicate Unasked(s: Sys, a: Action) {
    a == Interrupt && !s.irqReady && !s.line
  }

  /** The last n sectors that the disk has stored are those from `first` on. */
  ghost predicate Stored(first: nat, ended: seq<nat>, n: nat) {
    n <= |ended| && ended[|ended| - n..] == Sectors(first, n)
  }

  function Sectors(first: nat, n: nat): seq<nat> {
    seq(n, m requires 0 <= m < n => first + m)
  }

  lemma OneMoreStored(first: nat, ended: seq<nat>, n: nat)
    requires Stored(first, ended, n)
    ensures Stored(first, ended + [first + n], n + 1)
  {
    assert (ended + [first + n])[|ended| - n..] == ended[|ended| - n..] + [first + n];
    assert Sectors(first, n + 1) == Sectors(first, n) + [first + n];
  }

  lemma NothingStored(first: nat, ended: seq<nat>)
    ensures Stored(first, ended, 0)
  {
    assert ended[|ended|..] == Sectors(first, 0);
  }

  /** The interrupt comes when the disk is done, and not before. */
  ghost predicate InStep(s: Sys) {
    var (d, x, write) := (s.disk, Sector(s), s.req.op == WriteSector);
    && (write && s.pc != Panicked ==>
          Stored(s.req.first, s.ended, if IsStored(s) then s.req.index + 1 else s.req.index))
    && match s.pc
       case Between => d == Free && !s.line
       case Arming => d == Free && !s.line && !s.irqReady
       case Moving => !s.line && d == (if write then WantsData(x) else HasData(x)) && s.irqReady == !write
       case Answered => (d == HasData(x) || d == Free) && !s.line
       case Panicked => d != Unknown
       case _ =>
         if write && s.pc != Commanded then
           if d == Storing(x) then !s.line && !s.irqReady else d == Free && s.line == !s.irqReady
         else if write then
           if d == Preparing(x) || d == WantsData(x) then !s.line && !s.irqReady
           else d == Free && s.line == !s.irqReady
         else if d == Fetching(x) then !s.line && !s.irqReady
         else (d == HasData(x) || d == Free) && s.line == !s.irqReady
  }

  /** The data of the client's sector is out, and the disk has stored it. */
  predicate IsStored(s: Sys) {
    s.req.op == WriteSector && (s.pc == Filled || s.pc == Waiting) && s.disk == Free
  }

  /** What the handshake's invariant says of the points at which downs and interrupts matter. */
  ghost predicate Points(s: Sys, sem: nat)
    requires sem < |s.k.sems|
  {
    && (s.pc == Filled ==> s.req.op == WriteSector) && (s.pc == Answered ==> s.req.op != WriteSector)
    && (s.k.sems[sem].queue != [] <==> s.pc == Waiting) && (s.pc == Waiting ==> !s.irqReady)
    && (s.pc == Commanded || s.pc == Filled ==> (s.k.sems[sem].value > 0 <==> s.irqReady))
    && (s.pc == Between || s.pc == Answered || (s.pc == Moving && s.req.op != WriteSector) ==> s.irqReady)
  }

  lemma HandshakePoints(s: Sys, client: nat, sem: nat)
    requires Handshake(s, client, sem) && s.pc != Panicked
    ensures sem < |s.k.sems| && Points(s, sem)
  {
    hide Inv, DiskOk;
  }

  lemma InterruptInStep(s: Sys, sem: nat)
    requires sem < |s.k.sems| && Points(s, sem) && InStep(s) && !Unasked(s, Interrupt) && s.pc != Panicked
    ensures InStep(Handle(s, sem))
  {
    hide Up, Stored;
  }

  lemma DoneInStep(s: Sys, ok: bool)
    requires InStep(s) && s.pc != Panicked
    ensures InStep(Done(s, ok))
  {
    hide Stored;
    if s.disk == Storing(Sector(s)) && s.req.op == WriteSector {
      OneMoreStored(s.req.first, s.ended, s.req.index);
    }
  }

  lemma LookInStep(s: Sys, bsy: bool, drq: bool)
    requires InStep(s) && Polls(s) && Shows(s.disk, bsy, drq) && (s.pc == Answered ==> s.irqReady)
    ensures InStep(Peek(s, bsy, drq))
  {
    hide Stored;
  }

  lemma AwaitInStep(s: Sys, sem: nat)
    requires sem < |s.k.sems| && Points(s, sem) && InStep(s)
    requires s.pc == if s.req.op == WriteSector then Filled else Commanded
    ensures InStep(Await(s, sem))
  {
    hide Down, Stored;
  }

  lemma ClientInStep(s: Sys, a: Action, client: nat, sem: nat)
    requires sem < |s.k.sems| && Points(s, sem) && InStep(s) && Can(s, a, client, sem)
    requires a != Interrupt && !a.DiskDone? && !a.Look? && a != DownSem
    ensures InStep(Act(s, a, sem))
  {
    hide Apply, Enabled, Stored, Points;
    if a.Begin? {
      NothingStored(a.first, s.ended);
    }
  }

  lemma ActKeepsInStep(s: Sys, a: Action, client: nat, sem: nat)
    requires Handshake(s, client, sem) && InStep(s) && Can(s, a, client, sem) && !Unasked(s, a)
    ensures InStep(Act(s, a, sem))
  {
    HandshakePoints(s, client, sem);
    assert a.Look? && s.pc == Answered ==> s.irqReady;
    hide Handshake, InStep, Handle, Done, Points, Unasked, Peek, Await;
    match a {
      case Interrupt => InterruptInStep(s, sem);
      case DiskDone(ok) => DoneInStep(s, ok);
      case Look(bsy, drq) => LookInStep(s, bsy, drq);
      case DownSem => AwaitInStep(s, sem);
      case _ => ClientInStep(s, a, client, sem);
    }
  }

  /** If every interrupt that is accepted was asked for, a write is over only when the disk has stored its
      sectors, and no command ever goes to a disk that is not free, whether interrupts are off in
      ide_send_cmd or not. */
  lemma {:induction false} AskedKeepsInStep(states: seq<Sys>, actions: seq<Action>, client: nat, sem: nat, n: nat)
    requires Trace(states, actions, client, sem) && n < |states|
    requires forall m :: 0 <= m < n ==> !Unasked(states[m], actions[m])
    ensures InStep(states[n])
  {
    hide Act, Can, InStep, Unasked;
    if n == 0 {
      StartsInStep(states[0], client, sem);
    } else {
      AskedKeepsInStep(states, actions, client, sem, n - 1);
      TraceKeeps(states, actions, client, sem, n - 1);
      ActKeepsInStep(states[n - 1], actions[n - 1], client, sem);
    }
  }

  lemma StartsInStep(s: Sys, client: nat, sem: nat)
    requires Initial(s, client, sem)
    ensures InStep(s)
  {
    hide Inv, Sectors;
    NothingStored(s.req.first, s.ended);
  }

  lemma AskedWritesAreStored(states: seq<Sys>, actions: seq<Action>, client: nat, sem: nat, n: nat)
    requires Trace(states, actions, client, sem) && n < |states|
    requires forall m :: 0 <= m < n ==> !Unasked(states[m], actions[m])
    ensures !Overrun(states[n]) && states[n].disk != Unknown && !AcceptedEarly(states[n].log)
    ensures states[n].pc == Between && states[n].req.op == WriteSector ==>
              var s := states[n];
              s.req.index <= |s.ended| && s.ended[|s.ended| - s.req.index..] == s.req.data
  {
    hide Act, Can, Unasked, AcceptedEarly;
    AskedKeepsInStep(states, actions, client, sem, n);
    TraceKeeps(states, actions, client, sem, n);
    AskedIsNotEarly(states, actions, client, sem, n);
    hide Handshake, InStep;
    assert states[n].req.data == Sectors(states[n].req.first, |states[n].req.data|);
  }

  lemma {:induction false} AskedIsNotEarly(states: seq<Sys>, actions: seq<Action>, client: nat, sem: nat, n: nat)
    requires Trace(states, actions, client, sem) && n < |states|
    requires forall m :: 0 <= m < n ==> !Unasked(states[m], actions[m])
    ensures !AcceptedEarly(states[n].log)
  {
    hide Act, Can, AcceptedEarly;
    if n == 0 {
      NothingEarly(states, actions, client, sem);
    } else {
      AskedIsNotEarly(states, actions, client, sem, n - 1);
      AskedKeepsInStep(states, actions, client, sem, n - 1);
      EarlyStep(states[n - 1], actions[n - 1], sem);
    }
  }

  /** In such a run, when a write request is over, the last sectors that the disk has stored are exactly those
      that were asked for, in order. */
  lemma RequestIsStored(states: seq<Sys>, actions: seq<Action>, client: nat, sem: nat, n: nat, first: nat, count: nat)
    requires Trace(states, actions, client, sem) && n < |states|
    requires forall m :: 0 <= m < n ==> !Unasked(states[m], actions[m])
    requires LastRequest(actions[..n]) == Some(Begin(WriteSector, first, count))
    requires states[n].pc == Between && states[n].req.index == states[n].req.count
    ensures var ended := states[n].ended;
            |ended| >= count && ended[|ended| - count..] == Sectors(first, count)
  {
    hide Trace, Unasked, Handshake;
    AskedKeepsInStep(states, actions, client, sem, n);
    WorksOnLastRequest(states, actions, client, sem, n);
  }

  /** An interrupt that was not asked for does harm: while a write waits for the disk to store its data, it
      ends the wait. */
  lemma UnaskedOverruns(states: seq<Sys>, actions: seq<Action>, client: nat, sem: nat)
    requires Trace(states, actions, client, sem)
    requires var s := states[|actions|]; s.pc == Waiting && s.disk.Storing? && s.k.intr
    ensures sem < |states[|actions|].k.sems|
    ensures var next := Act(states[|actions|], Interrupt, sem);
            Trace(states + [next], actions + [Interrupt], client, sem) && Overrun(next)
  {
    hide Up, Inv;
    TraceKeeps(states, actions, client, sem, |actions|);
    TraceExtended(states, actions, Interrupt, client, sem);
  }

  // ----- a write that ends before the disk has stored its data

  /** kmain runs with interrupts on, idle is ready, the channel's semaphore is the only one, and the disk is
      free. */
  function Booting(): Sys {
    var tasks := [Task(Running, 31, 31, 0, []), Task(Ready, 10, 10, 0, [true])];
    var k := State(tasks, [1], 0, 1, [Sem(0, [], 0, 0, 0, [], [])], 0, true);
    Sys(k, true, Request(Identify, 0, 0, 0, []), Between, 0, [], 0, Free, false, [])
  }

  /** One sector is written, and an interrupt comes between the two writes of ide_send_cmd. */
  function EarlyWrite(): (r: seq<Action>)
    ensures |r| == 8
  {
    [Begin(WriteSector, 0, 1), Arm, Interrupt, Issue, DiskDone(true), Look(false, true), Transfer(0), DownSem]
  }

  /** The states that this goes through. */
  function EarlyStates(): (r: seq<Sys>)
    ensures |r| == 9
  {
    var s1 := Booting().(req := Request(WriteSector, 0, 1, 0, []));
    var s2 := s1.(irqReady := false, pc := Arming, commands := 1, log := [Armed]);
    var s3 := s2.(irqReady := true, k := s2.k.(sems := [Sem(1, [], 0, 1, 0, [], [])]), log := [Armed, Accepted(false)]);
    var s4 := s3.(pc := Commanded, disk := Preparing(0));
    var s5 := s4.(disk := WantsData(0));
    var s6 := s5.(pc := Moving);
    var s7 := s6.(pc := Filled, disk := Storing(0), req := Request(WriteSector, 0, 1, 0, [0]));
    var s8 := s7.(k := s7.k.(sems := [Sem(0, [], 0, 1, 1, [], [])]), pc := Between,
                  req := Request(WriteSector, 0, 1, 1, [0]), log := [Armed, Accepted(false), Passed]);
    [Booting(), s1, s2, s3, s4, s5, s6, s7, s8]
  }

  lemma EarlyWriteStep(n: nat)
    requires n < 8
    ensures var (s, a, s') := (EarlyStates()[n], EarlyWrite()[n], EarlyStates()[n + 1]);
            Can(s, a, 0, 0) && 0 < |s.k.sems| && s' == Act(s, a, 0)
  {
    hide Apply, Enabled, Schedule, Unpark;
    assert n == 0 || n == 1 || n == 2 || n == 3 || n == 4 || n == 5 || n == 6 || n == 7;
  }

  /** The write is over, and no command is unanswered, but the disk has stored nothing yet. */
  lemma WriteEndsBeforeItIsStored()
    ensures Trace(EarlyStates(), EarlyWrite(), 0, 0)
    ensures var s := EarlyStates()[8];
            && s.pc == Between && s.req.index == s.req.count == 1 && s.log == [Armed, Accepted(false), Passed]
            && Overrun(s) && s.ended == []
  {
    var (states, k) := (EarlyStates(), Booting().k);
    BootStateOk(k.tasks[0], k.tasks[1], k.sems);
    StepKeepsInv(k.(intr := false), SetIntr(true));
    assert states[0] == Booting() && Initial(states[0], 0, 0);
    hide Can, Act, EarlyStates, EarlyWrite, Initial;
    forall n | 0 <= n < 8
      ensures Can(states[n], EarlyWrite()[n], 0, 0) && 0 < |states[n].k.sems|
                && states[n + 1] == Act(states[n], EarlyWrite()[n], 0)
    {
      EarlyWriteStep(n);
    }
  }
}
