/** The link cable. Each console runs two threads: the CPU thread, inside `transfer`,
    `handlePending` and `finishTransfer`, and the server thread, inside `serverLoop`. They share
    the atomic tx and rx slots; the two server threads share a byte stream in each direction.
    Every atomic load or store, every stream operation and every memory-mapped side effect is a
    step of its own, and the steps of the four threads interleave freely. */
module SerialLink {
  import opened Bytes

  /** What the CPU thread does next. `Free` and `Waiting` are the game's own code, without and with
      a transfer pending. */
  datatype CpuPc =
    | Free | StoreTxData | StoreTxReady | Waiting
    | PollRx | ClearRx | LoadRx | WriteSb | ClearBit | Raise

  /** What the server thread does next. */
  datatype ServerPc =
    | PollTx | CheckRx | ClearTx | LoadTx | Send | Receive | StoreRxData | StoreRxReady

  /** What has happened so far on one console. */
  datatype History = History(
    started: seq<byte>,   // argument of each `transfer`
    sent: seq<byte>,      // bytes handed to `wr`
    received: seq<byte>,  // bytes obtained from `rd`
    finished: seq<byte>,  // SB as each `finishTransfer` left it
    cleared: nat,         // times the transfer bit was cleared
    raised: nat,          // times the serial interrupt was requested
    acknowledged: nat,    // of which the game had cleared when it last cleared the interrupt bit
    lowered: bool,        // the game itself cleared the transfer bit since the last start
    txStores: nat, txLoads: nat, rxStores: nat, rxLoads: nat)

  datatype Console = Console(
    cpu: CpuPc, server: ServerPc,
    txReady: bool, txData: byte, rxReady: bool, rxData: byte,
    cpuData: byte, serverData: byte,        // the locals named `data`
    sb: byte, transferBit: bool, irq: bool, // SB, bit 7 of SC, the serial bit of IF
    h: History)

  datatype Action =
    | Start             // the game writes SC with bit 7 set
    | LowerBit          // the game writes SC with bit 7 clear
    | WriteData(v: byte) // the game writes SB
    | Acknowledge       // the game clears its serial interrupt bit
    | CpuStep
    | ServerStep

  /** A console after a step, whether the step took a byte from the incoming stream, and the bytes
      it put on the outgoing one. */
  datatype Outcome = Outcome(c: Console, took: bool, put: seq<byte>)

  function Quiet(c: Console): Outcome {
    Outcome(c, false, [])
  }

  /** One step of the CPU thread (`transfer`, `handlePending`, `finishTransfer`). */
  function CpuNext(c: Console): Console {
    match c.cpu
    case Free => c
    case StoreTxData =>
      c.(txData := c.cpuData, h := c.h.(txStores := c.h.txStores + 1), cpu := StoreTxReady)
    case StoreTxReady => c.(txReady := true, cpu := Waiting)
    case Waiting => c.(cpu := PollRx)
    case PollRx => if c.rxReady then c.(cpu := ClearRx) else c
    case ClearRx => c.(rxReady := false, cpu := LoadRx)
    case LoadRx =>
      c.(cpuData := c.rxData, h := c.h.(rxLoads := c.h.rxLoads + 1), cpu := WriteSb)
    case WriteSb => c.(sb := c.cpuData, cpu := ClearBit)
    case ClearBit =>
      c.(transferBit := false, h := c.h.(cleared := c.h.cleared + 1), cpu := Raise)
    case Raise =>
      c.(irq := true,
         h := c.h.(raised := c.h.raised + 1, finished := c.h.finished + [c.sb]),
         cpu := Free)
  }

  /** One step of the server thread (`serverLoop`); `rd` blocks while the stream is empty. */
  function ServerNext(c: Console, incoming: seq<byte>): (o: Outcome)
    ensures o.took ==> incoming != []
  {
    match c.server
    case PollTx => Quiet(if c.txReady then c.(server := CheckRx) else c)
    case CheckRx => Quiet(c.(server := if c.rxReady then PollTx else ClearTx))
    case ClearTx => Quiet(c.(txReady := false, server := LoadTx))
    case LoadTx =>
      Quiet(c.(serverData := c.txData, h := c.h.(txLoads := c.h.txLoads + 1), server := Send))
    case Send =>
      Outcome(c.(h := c.h.(sent := c.h.sent + [c.serverData]), server := Receive), false, [c.serverData])
    case Receive =>
      if incoming == [] then Quiet(c)
      else Outcome(c.(serverData := incoming[0],
                      h := c.h.(received := c.h.received + [incoming[0]]),
                      server := StoreRxData), true, [])
    case StoreRxData =>
      Quiet(c.(rxData := c.serverData, h := c.h.(rxStores := c.h.rxStores + 1), server := StoreRxReady))
    case StoreRxReady => Quiet(c.(rxReady := true, server := PollTx))
  }

  /** One step of one console. The game starts no transfer while one is pending, and its code runs
      only outside the calls into the link. */
  function ConsoleNext(c: Console, incoming: seq<byte>, action: Action): (o: Outcome)
    ensures o.took ==> incoming != []
  {
    match action
    case Start =>
      if c.cpu == Free then
        Quiet(c.(cpu := StoreTxData, cpuData := c.sb, transferBit := true,
                 h := c.h.(started := c.h.started + [c.sb], lowered := false)))
      else Quiet(c)
    case LowerBit =>
      if c.cpu in {Free, Waiting} then Quiet(c.(transferBit := false, h := c.h.(lowered := true))) else Quiet(c)
    case WriteData(v) => if c.cpu in {Free, Waiting} then Quiet(c.(sb := v)) else Quiet(c)
    case Acknowledge =>
      if c.cpu in {Free, Waiting} then Quiet(c.(irq := false, h := c.h.(acknowledged := c.h.raised))) else Quiet(c)
    case CpuStep => Quiet(CpuNext(c))
    case ServerStep => ServerNext(c, incoming)
  }

  /** The connected session: the two consoles and the bytes in flight each way. */
  datatype Link = Link(a: Console, b: Console, ab: seq<byte>, ba: seq<byte>) {
    /** The same session seen from the other end. */
    function Flip(): Link { Link(b, a, ba, ab) }
  }

  datatype Side = A | B

  datatype Event = Event(side: Side, action: Action)

  /** Console `a` has made the step `o`. */
  function Deliver(l: Link, o: Outcome): Link
    requires o.took ==> l.ba != []
  {
    Link(o.c, l.b, l.ab + o.put, if o.took then l.ba[1..] else l.ba)
  }

  function NextA(l: Link, action: Action): Link {
    Deliver(l, ConsoleNext(l.a, l.ba, action))
  }

  function Next(l: Link, e: Event): Link {
    match e.side
    case A => NextA(l, e.action)
    case B => NextA(l.Flip(), e.action).Flip()
  }

  /** The session after the steps of a schedule, any interleaving of the four threads. */
  function Run(l: Link, schedule: seq<Event>): Link
    decreases |schedule|
  {
    if schedule == [] then l else Run(Next(l, schedule[0]), schedule[1..])
  }

  /** A fresh connection: both threads at rest, all four ready flags false, slots arbitrary. */
  predicate AtRest(c: Console) {
    && c.cpu == Free && c.server == PollTx && !c.txReady && !c.rxReady && !c.transferBit
    && c.h == History([], [], [], [], 0, 0, 0, false, 0, 0, 0, 0)
  }

  predicate Fresh(l: Link) {
    AtRest(l.a) && AtRest(l.b) && l.ab == [] && l.ba == []
  }

  // ---- The invariant -------------------------------------------------------------------------

  /** Transfers the CPU thread has completed. */
  function Done(c: Console): nat { |c.h.finished| }

  /** The CPU thread is between the `tx.ready` store and the `rx.ready` clear. */
  predicate Pending(c: Console) {
    c.cpu in {Waiting, PollRx}
  }

  /** How far the server thread is, by the number of bytes it has sent and received. */
  predicate ServerAt(c: Console, sent: nat, received: nat, txLoads: nat, rxStores: nat) {
    && |c.h.sent| == sent && |c.h.received| == received
    && c.h.txLoads == txLoads && c.h.rxStores == rxStores
  }

  /** The server thread while the CPU thread waits for transfer number `n`: each slot still holds the
      byte that belongs in it although its `ready` flag may already be down. */
  predicate ServerPending(c: Console)
    requires Done(c) < |c.h.started|
  {
    var n := Done(c);
    match c.server
    case PollTx =>
      if c.txReady then ServerAt(c, n, n, n, n) && !c.rxReady && c.txData == c.h.started[n]
      else ServerAt(c, n + 1, n + 1, n + 1, n + 1) && c.rxReady && c.rxData == c.h.received[n]
    case CheckRx => ServerAt(c, n, n, n, n) && c.txReady && !c.rxReady && c.txData == c.h.started[n]
    case ClearTx => ServerAt(c, n, n, n, n) && c.txReady && !c.rxReady && c.txData == c.h.started[n]
    case LoadTx => ServerAt(c, n, n, n, n) && !c.txReady && !c.rxReady && c.txData == c.h.started[n]
    case Send => ServerAt(c, n, n, n + 1, n) && !c.txReady && !c.rxReady && c.serverData == c.h.started[n]
    case Receive => ServerAt(c, n + 1, n, n + 1, n) && !c.txReady && !c.rxReady
    case StoreRxData =>
      ServerAt(c, n + 1, n + 1, n + 1, n) && !c.txReady && !c.rxReady && c.serverData == c.h.received[n]
    case StoreRxReady =>
      ServerAt(c, n + 1, n + 1, n + 1, n + 1) && !c.txReady && !c.rxReady && c.rxData == c.h.received[n]
  }

  /** The server thread is back at its first load, having dealt with exactly `n` transfers. */
  predicate ServerIdle(c: Console, n: nat) {
    c.server == PollTx && !c.txReady && ServerAt(c, n, n, n, n)
  }

  /** What holds of the CPU thread's own program point. */
  predicate CpuInv(c: Console) {
    var n := Done(c);
    && |c.h.started| == (if c.cpu == Free then n else n + 1)
    && match c.cpu
       case Free => ServerIdle(c, n) && !c.rxReady
       case StoreTxData => ServerIdle(c, n) && !c.rxReady && c.cpuData == c.h.started[n]
       case StoreTxReady => ServerIdle(c, n) && !c.rxReady && c.txData == c.h.started[n]
       case Waiting => ServerPending(c)
       case PollRx => ServerPending(c)
       case ClearRx => ServerIdle(c, n + 1) && c.rxReady && c.rxData == c.h.received[n]
       case LoadRx => ServerIdle(c, n + 1) && !c.rxReady && c.rxData == c.h.received[n]
       case WriteSb => ServerIdle(c, n + 1) && !c.rxReady && c.cpuData == c.h.received[n]
       case ClearBit => ServerIdle(c, n + 1) && !c.rxReady && c.sb == c.h.received[n]
       case Raise => ServerIdle(c, n + 1) && !c.rxReady && c.sb == c.h.received[n]
  }

  /** How often each effect of the CPU thread has happened. */
  predicate Counts(c: Console) {
    var n := Done(c);
    && c.h.raised == n
    && c.h.cleared == (if c.cpu == Raise then n + 1 else n)
    && c.h.txStores == (if c.cpu in {Free, StoreTxData} then n else n + 1)
    && c.h.rxLoads == (if c.cpu in {WriteSb, ClearBit, Raise} then n + 1 else n)
    && c.transferBit == (c.cpu != Free && c.cpu != Raise && !c.h.lowered)
    && c.h.acknowledged <= n
    && (c.h.acknowledged < n ==> c.irq)
  }

  /** Everything sent was started, and everything finished was received, in order. */
  predicate Flow(c: Console) {
    && |c.h.sent| <= |c.h.started| && c.h.sent == c.h.started[..|c.h.sent|]
    && |c.h.finished| <= |c.h.received| && c.h.finished == c.h.received[..|c.h.finished|]
  }

  predicate ConsoleInv(c: Console) {
    CpuInv(c) && Counts(c) && Flow(c)
  }

  /** One direction of the stream: received, then still in flight, is exactly what was sent. */
  predicate Stream(from: Console, to: Console, inFlight: seq<byte>) {
    to.h.received + inFlight == from.h.sent
  }

  predicate Inv(l: Link) {
    && ConsoleInv(l.a) && ConsoleInv(l.b)
    && Stream(l.a, l.b, l.ab) && Stream(l.b, l.a, l.ba)
  }

  /** The CPU thread hands its byte over, or waits. */
  lemma CpuSends(c: Console)
    requires ConsoleInv(c) && c.cpu in {Free, StoreTxData, StoreTxReady}
    ensures CpuInv(CpuNext(c)) && Counts(CpuNext(c))
  {
  }

  lemma CpuWaits(c: Console)
    requires ConsoleInv(c) && Pending(c)
    ensures CpuInv(CpuNext(c)) && Counts(CpuNext(c))
  {
  }

  /** The CPU thread takes the byte that came in and finishes. */
  lemma CpuReceives(c: Console)
    requires ConsoleInv(c) && c.cpu in {ClearRx, LoadRx, WriteSb}
    ensures CpuInv(CpuNext(c)) && Counts(CpuNext(c))
  {
  }

  lemma CpuFinishes(c: Console)
    requires ConsoleInv(c) && c.cpu in {ClearBit, Raise}
    ensures CpuInv(CpuNext(c)) && Counts(CpuNext(c))
  {
  }

  lemma CpuNextFlow(c: Console)
    requires ConsoleInv(c)
    ensures Flow(CpuNext(c)) && CpuNext(c).h.sent == c.h.sent && CpuNext(c).h.received == c.h.received
  {
  }

  lemma CpuNextKeeps(c: Console)
    requires ConsoleInv(c)
    ensures ConsoleInv(CpuNext(c))
    ensures CpuNext(c).h.sent == c.h.sent && CpuNext(c).h.received == c.h.received
  {
    match c.cpu {
      case Free => CpuSends(c);
      case StoreTxData => CpuSends(c);
      case StoreTxReady => CpuSends(c);
      case Waiting => CpuWaits(c);
      case PollRx => CpuWaits(c);
      case ClearBit => CpuFinishes(c);
      case Raise => CpuFinishes(c);
      case _ => CpuReceives(c);
    }
    CpuNextFlow(c);
  }

  /** Whenever the server thread can move at all, the CPU thread is waiting for it. */
  lemma ServerMovesOnlyWhilePending(c: Console)
    requires ConsoleInv(c)
    requires c.server != PollTx || c.txReady
    ensures Pending(c) && ServerPending(c)
  {
  }

  lemma ServerNextKeepsPending(c: Console, incoming: seq<byte>)
    requires Pending(c) && ConsoleInv(c)
    ensures var d := ServerNext(c, incoming).c; Pending(d) && CpuInv(d) && Counts(d)
  {
    match c.server
    case Send => ServerSends(c, incoming);
    case Receive => ServerReceives(c, incoming);
    case StoreRxData => ServerStores(c, incoming);
    case StoreRxReady => ServerStores(c, incoming);
    case _ => ServerClaims(c, incoming);
  }

  lemma ServerClaims(c: Console, incoming: seq<byte>)
    requires Pending(c) && ConsoleInv(c) && c.server in {PollTx, CheckRx, ClearTx, LoadTx}
    ensures var d := ServerNext(c, incoming).c; Pending(d) && CpuInv(d) && Counts(d)
  {
  }

  lemma ServerSends(c: Console, incoming: seq<byte>)
    requires Pending(c) && ConsoleInv(c) && c.server == Send
    ensures var d := ServerNext(c, incoming).c; Pending(d) && CpuInv(d) && Counts(d)
  {
  }

  lemma ServerReceives(c: Console, incoming: seq<byte>)
    requires Pending(c) && ConsoleInv(c) && c.server == Receive
    ensures var d := ServerNext(c, incoming).c; Pending(d) && CpuInv(d) && Counts(d)
  {
  }

  lemma ServerStores(c: Console, incoming: seq<byte>)
    requires Pending(c) && ConsoleInv(c) && (c.server == StoreRxData || c.server == StoreRxReady)
    ensures var d := ServerNext(c, incoming).c; Pending(d) && CpuInv(d) && Counts(d)
  {
  }

  lemma ServerNextFlow(c: Console, incoming: seq<byte>)
    requires Pending(c) && ConsoleInv(c)
    ensures var o := ServerNext(c, incoming);
            && Flow(o.c)
            && o.c.h.sent == c.h.sent + o.put
            && o.c.h.received == c.h.received + (if o.took then [incoming[0]] else [])
  {
    var o := ServerNext(c, incoming);
    assert o.c.h.started == c.h.started && o.c.h.finished == c.h.finished;
    if c.server == Send {
      var n := Done(c);
      assert c.h.started[..n + 1] == c.h.started[..n] + [c.h.started[n]];
    }
  }

  lemma ServerNextKeeps(c: Console, incoming: seq<byte>)
    requires ConsoleInv(c)
    ensures var o := ServerNext(c, incoming);
            && ConsoleInv(o.c)
            && o.c.h.sent == c.h.sent + o.put
            && o.c.h.received == c.h.received + (if o.took then [incoming[0]] else [])
  {
    if c.server != PollTx || c.txReady {
      ServerMovesOnlyWhilePending(c);
      ServerNextKeepsPending(c, incoming);
      ServerNextFlow(c, incoming);
    }
  }

  /** Starting a transfer, writing SB and clearing the interrupt bit. */
  lemma GameKeeps(c: Console, incoming: seq<byte>, action: Action)
    requires ConsoleInv(c)
    requires !action.CpuStep? && !action.ServerStep?
    ensures var o := ConsoleNext(c, incoming, action);
            && ConsoleInv(o.c) && o.put == [] && !o.took
            && o.c.h.sent == c.h.sent && o.c.h.received == c.h.received
  {
    if action.Start? && c.cpu == Free {
      StartKeeps(c, incoming);
    } else if !action.Start? && c.cpu in {Free, Waiting} {
      GameCodeKeeps(c, ConsoleNext(c, incoming, action).c);
    }
  }

  lemma StartKeeps(c: Console, incoming: seq<byte>)
    requires ConsoleInv(c) && c.cpu == Free
    ensures var o := ConsoleNext(c, incoming, Start);
            && ConsoleInv(o.c) && o.put == [] && !o.took
            && o.c.h.sent == c.h.sent && o.c.h.received == c.h.received
  {
  }

  /** The game's own code between starts changes nothing that the two threads exchange. */
  lemma GameCodeKeeps(c: Console, d: Console)
    requires ConsoleInv(c) && c.cpu in {Free, Waiting}
    requires d == c.(sb := d.sb, transferBit := d.transferBit, irq := d.irq,
                     h := c.h.(lowered := d.h.lowered, acknowledged := d.h.acknowledged))
    requires d.transferBit == (c.transferBit && !(d.h.lowered && !c.h.lowered)) && (c.h.lowered ==> d.h.lowered)
    requires c.h.acknowledged <= d.h.acknowledged <= c.h.raised
    requires d.irq == c.irq || d.h.acknowledged == c.h.raised
    ensures ConsoleInv(d)
  {
    if c.cpu == Waiting {
      assert ServerPending(d);
    } else {
      assert ServerIdle(d, Done(d));
    }
  }

  lemma ConsoleNextKeeps(c: Console, incoming: seq<byte>, action: Action)
    requires ConsoleInv(c)
    ensures var o := ConsoleNext(c, incoming, action);
            && ConsoleInv(o.c)
            && o.c.h.sent == c.h.sent + o.put
            && o.c.h.received == c.h.received + (if o.took then [incoming[0]] else [])
  {
    match action
    case CpuStep => CpuNextKeeps(c);
    case ServerStep => ServerNextKeeps(c, incoming);
    case _ => GameKeeps(c, incoming, action);
  }

  /** Handing a byte to the stream or taking one from it keeps both directions in order. */
  lemma DeliverKeeps(l: Link, o: Outcome)
    requires Stream(l.a, l.b, l.ab) && Stream(l.b, l.a, l.ba)
    requires o.took ==> l.ba != []
    requires o.c.h.sent == l.a.h.sent + o.put
    requires o.c.h.received == l.a.h.received + (if o.took then [l.ba[0]] else [])
    ensures var m := Deliver(l, o); Stream(m.a, m.b, m.ab) && Stream(m.b, m.a, m.ba)
  {
    assert l.b.h.received + (l.ab + o.put) == (l.b.h.received + l.ab) + o.put;
    if o.took {
      assert (l.a.h.received + [l.ba[0]]) + l.ba[1..] == l.a.h.received + l.ba;
    }
  }

  lemma NextAKeeps(l: Link, action: Action)
    requires Inv(l)
    ensures Inv(NextA(l, action))
  {
    ConsoleNextKeeps(l.a, l.ba, action);
    DeliverKeeps(l, ConsoleNext(l.a, l.ba, action));
  }

  lemma NextKeeps(l: Link, e: Event)
    requires Inv(l)
    ensures Inv(Next(l, e))
  {
    match e.side
    case A => NextAKeeps(l, e.action);
    case B => NextAKeeps(l.Flip(), e.action);
  }

  lemma {:induction false} RunKeeps(l: Link, schedule: seq<Event>)
    requires Inv(l)
    ensures Inv(Run(l, schedule))
    decreases |schedule|
  {
    if schedule == [] {
    } else {
      NextKeeps(l, schedule[0]);
      RunKeeps(Next(l, schedule[0]), schedule[1..]);
    }
  }

  lemma FreshInv(l: Link)
    requires Fresh(l)
    ensures Inv(l)
  {
  }

  // ---- Safety --------------------------------------------------------------------------------

  /** In every interleaving, the n-th byte either console finishes with is the n-th byte the other
      one started with. */
  lemma ExchangeIsSafe(l0: Link, schedule: seq<Event>)
    requires Fresh(l0)
    ensures var l := Run(l0, schedule);
            && l.a.h.finished <= l.b.h.started
            && l.b.h.finished <= l.a.h.started
  {
    FreshInv(l0);
    RunKeeps(l0, schedule);
    var l := Run(l0, schedule);
    assert l.a.h.received <= l.b.h.sent && l.b.h.received <= l.a.h.sent;
  }

  /** A slot is stored to only when every earlier store has been loaded, and a load finds the byte of
      the matching store. */
  predicate SlotsSafe(c: Console) {
    && (c.cpu == StoreTxData ==> c.h.txStores == c.h.txLoads)
    && (c.server == LoadTx ==>
          c.h.txStores == c.h.txLoads + 1 == |c.h.started| && c.txData == c.h.started[c.h.txLoads])
    && (c.server == StoreRxData ==> c.h.rxStores == c.h.rxLoads)
    && (c.cpu == LoadRx ==>
          c.h.rxStores == c.h.rxLoads + 1 == |c.h.received| && c.rxData == c.h.received[c.h.rxLoads])
  }

  /** Although both sides lower `ready` before they load `data`, no byte is lost or read twice. */
  lemma SlotsAreSafe(l0: Link, schedule: seq<Event>)
    requires Fresh(l0)
    ensures var l := Run(l0, schedule); SlotsSafe(l.a) && SlotsSafe(l.b)
  {
    FreshInv(l0);
    RunKeeps(l0, schedule);
    var l := Run(l0, schedule);
    ConsoleSlotsSafe(l.a);
    ConsoleSlotsSafe(l.b);
  }

  lemma ConsoleSlotsSafe(c: Console)
    requires ConsoleInv(c)
    ensures SlotsSafe(c)
  {
  }

  /** Each transfer requests the serial interrupt once and clears the transfer bit once. The bit is set
      from the start of a transfer until then, or until the game clears it itself, which ends neither
      the transfer nor its effects; a requested interrupt stays until the game clears it. */
  predicate EffectsOnce(c: Console) {
    && c.h.raised == |c.h.finished|
    && |c.h.finished| <= c.h.cleared <= |c.h.started| <= |c.h.finished| + 1
    && (c.cpu == Free ==> c.h.raised == c.h.cleared == |c.h.started| && !c.transferBit)
    && (c.transferBit <==> c.h.cleared < |c.h.started| && !c.h.lowered)
    && (c.h.acknowledged < c.h.raised ==> c.irq)
  }

  lemma EffectsHappenOnce(l0: Link, schedule: seq<Event>)
    requires Fresh(l0)
    ensures var l := Run(l0, schedule); EffectsOnce(l.a) && EffectsOnce(l.b)
  {
    FreshInv(l0);
    RunKeeps(l0, schedule);
  }

  predicate Lowered(l: Link) {
    l.a.h.lowered || l.b.h.lowered
  }

  /** While the game leaves the transfer bit alone, it is set exactly during transfers. */
  lemma TransferBitMarksTransfers(l0: Link, schedule: seq<Event>)
    requires Fresh(l0) && forall e | e in schedule :: e.action != LowerBit
    ensures var l := Run(l0, schedule);
            && (l.a.transferBit <==> l.a.h.cleared < |l.a.h.started|)
            && (l.b.transferBit <==> l.b.h.cleared < |l.b.h.started|)
  {
    EffectsHappenOnce(l0, schedule);
    NeverLowered(l0, schedule);
  }

  lemma {:induction false} NeverLowered(l: Link, schedule: seq<Event>)
    requires !Lowered(l) && forall e | e in schedule :: e.action != LowerBit
    ensures !Lowered(Run(l, schedule))
    decreases |schedule|
  {
    if schedule == [] {
    } else {
      assert schedule[0] in schedule && forall e | e in schedule[1..] :: e in schedule;
      match schedule[0].side {
        case A => NotLowered(l.a, l.ba, schedule[0].action);
        case B => NotLowered(l.b, l.ab, schedule[0].action);
      }
      NeverLowered(Next(l, schedule[0]), schedule[1..]);
    }
  }

  lemma NotLowered(c: Console, incoming: seq<byte>, action: Action)
    requires !c.h.lowered && action != LowerBit
    ensures !ConsoleNext(c, incoming, action).c.h.lowered
  {
  }

  // ---- Progress ------------------------------------------------------------------------------

  /** CPU-thread steps left in the current transfer. */
  function CpuWork(pc: CpuPc): nat {
    match pc
    case Free => 0 case StoreTxData => 9 case StoreTxReady => 8 case Waiting => 7 case PollRx => 6
    case ClearRx => 5 case LoadRx => 4 case WriteSb => 3 case ClearBit => 2 case Raise => 1
  }

  /** Server-thread steps left in the current transfer. */
  function ServerWork(c: Console): nat {
    match c.server
    case PollTx => if |c.h.received| > Done(c) then 0 else 8
    case CheckRx => 7 case ClearTx => 6 case LoadTx => 5 case Send => 4
    case Receive => 3 case StoreRxData => 2 case StoreRxReady => 1
  }

  /** Steps left until `c` has finished `n` transfers, the n-th being started already. */
  function ConsoleWork(c: Console, n: nat): nat {
    if Done(c) >= n then 0 else CpuWork(c.cpu) + ServerWork(c)
  }

  function Work(l: Link, n: nat): nat {
    ConsoleWork(l.a, n) + ConsoleWork(l.b, n)
  }

  predicate BothStarted(l: Link, n: nat) {
    |l.a.h.started| >= n && |l.b.h.started| >= n
  }

  predicate BothFinished(l: Link, n: nat) {
    Done(l.a) >= n && Done(l.b) >= n
  }

  /** The step is more than a failed poll, a blocked `rd` or the game's own code. */
  predicate Effective(c: Console, incoming: seq<byte>, action: Action) {
    match action
    case CpuStep => c.cpu != Free && (c.cpu == PollRx ==> c.rxReady)
    case ServerStep => (c.server == PollTx ==> c.txReady) && (c.server == Receive ==> incoming != [])
    case _ => false
  }

  /** The step is an effective step of a console that has not finished `n` transfers. */
  predicate Useful(l: Link, e: Event, n: nat) {
    match e.side
    case A => Done(l.a) < n && Effective(l.a, l.ba, e.action)
    case B => Done(l.b) < n && Effective(l.b, l.ab, e.action)
  }

  lemma CpuStepWorks(c: Console, n: nat)
    requires ConsoleInv(c) && |c.h.started| >= n
    ensures var d := CpuNext(c);
            |d.h.started| >= n &&
            ConsoleWork(d, n) == ConsoleWork(c, n) - (if Done(c) < n && Effective(c, [], CpuStep) then 1 else 0)
  {
    if c.cpu == Raise {
      FinishWorks(c, n);
    } else {
      assert ServerWork(CpuNext(c)) == ServerWork(c) && Done(CpuNext(c)) == Done(c);
    }
  }

  lemma FinishWorks(c: Console, n: nat)
    requires ConsoleInv(c) && |c.h.started| >= n && c.cpu == Raise
    ensures var d := CpuNext(c);
            |d.h.started| >= n && ConsoleWork(d, n) == ConsoleWork(c, n) - (if Done(c) < n then 1 else 0)
  {
  }

  lemma ServerStepWorks(c: Console, incoming: seq<byte>, n: nat)
    requires ConsoleInv(c) && |c.h.started| >= n
    ensures var d := ServerNext(c, incoming).c;
            |d.h.started| >= n &&
            ConsoleWork(d, n) ==
            ConsoleWork(c, n) - (if Done(c) < n && Effective(c, incoming, ServerStep) then 1 else 0)
  {
    if c.server != PollTx || c.txReady {
      ServerMovesOnlyWhilePending(c);
    }
  }

  lemma GameStepWorks(c: Console, incoming: seq<byte>, action: Action, n: nat)
    requires ConsoleInv(c) && |c.h.started| >= n
    requires !action.CpuStep? && !action.ServerStep?
    ensures var d := ConsoleNext(c, incoming, action).c;
            |d.h.started| >= n && ConsoleWork(d, n) == ConsoleWork(c, n)
  {
  }

  lemma StepWorksA(l: Link, action: Action, n: nat)
    requires Inv(l) && BothStarted(l, n)
    ensures var m := NextA(l, action);
            && BothStarted(m, n)
            && Work(m, n) == Work(l, n) - (if Useful(l, Event(A, action), n) then 1 else 0)
  {
    match action
    case CpuStep => CpuStepWorks(l.a, n);
    case ServerStep => ServerStepWorks(l.a, l.ba, n);
    case _ => GameStepWorks(l.a, l.ba, action, n);
  }

  /** A useful step takes one off the work left; no other step, of any thread, changes it. */
  lemma StepWorks(l: Link, e: Event, n: nat)
    requires Inv(l) && BothStarted(l, n)
    ensures var m := Next(l, e);
            && BothStarted(m, n)
            && Work(m, n) == Work(l, n) - (if Useful(l, e, n) then 1 else 0)
  {
    match e.side
    case A => StepWorksA(l, e.action, n);
    case B => StepWorksA(l.Flip(), e.action, n);
  }

  /** Useful steps in a schedule. */
  function UsefulSteps(l: Link, schedule: seq<Event>, n: nat): nat
    decreases |schedule|
  {
    if schedule == [] then 0
    else (if Useful(l, schedule[0], n) then 1 else 0) + UsefulSteps(Next(l, schedule[0]), schedule[1..], n)
  }

  lemma {:induction false} RunWorks(l: Link, schedule: seq<Event>, n: nat)
    requires Inv(l) && BothStarted(l, n)
    ensures var m := Run(l, schedule);
            && Inv(m) && BothStarted(m, n)
            && Work(m, n) + UsefulSteps(l, schedule, n) == Work(l, n)
    decreases |schedule|
  {
    if schedule == [] {
    } else {
      var m := Next(l, schedule[0]);
      NextKeeps(l, schedule[0]);
      StepWorks(l, schedule[0], n);
      RunWorks(m, schedule[1..], n);
    }
  }

  lemma NoWorkMeansFinished(l: Link, n: nat)
    requires Inv(l) && BothStarted(l, n)
    ensures Work(l, n) == 0 <==> BothFinished(l, n)
    ensures Work(l, n) <= 34
  {
  }

  /** A console that still has work and cannot make an effective step is blocked in `rd`. */
  lemma StuckMeansReceiving(c: Console, incoming: seq<byte>, n: nat)
    requires ConsoleInv(c) && Done(c) < n <= |c.h.started|
    requires !Effective(c, incoming, CpuStep) && !Effective(c, incoming, ServerStep)
    ensures c.server == Receive && incoming == [] && |c.h.received| == n - 1
  {
  }

  /** A console that has started its n-th transfer but not sent its byte is not in `rd`. */
  lemma NotSentMeansNotReceiving(c: Console, n: nat)
    requires ConsoleInv(c) && n <= |c.h.started| && |c.h.sent| < n
    ensures Done(c) < n && c.server != Receive
  {
  }

  lemma UnfinishedCanMove(l: Link, n: nat)
    requires Inv(l) && BothStarted(l, n) && Done(l.a) < n
    ensures exists e :: Useful(l, e, n)
  {
    if Effective(l.a, l.ba, CpuStep) {
      assert Useful(l, Event(A, CpuStep), n);
    } else if Effective(l.a, l.ba, ServerStep) {
      assert Useful(l, Event(A, ServerStep), n);
    } else {
      StuckMeansReceiving(l.a, l.ba, n);
      assert |l.b.h.sent| < n;
      NotSentMeansNotReceiving(l.b, n);
      if Effective(l.b, l.ab, CpuStep) {
        assert Useful(l, Event(B, CpuStep), n);
      } else {
        assert Effective(l.b, l.ab, ServerStep) by {
          if !Effective(l.b, l.ab, ServerStep) { StuckMeansReceiving(l.b, l.ab, n); }
        }
        assert Useful(l, Event(B, ServerStep), n);
      }
    }
  }

  /** There is no deadlock: as long as a transfer both consoles have started is unfinished, one of
      the four threads has a useful step to make. */
  lemma NoDeadlock(l0: Link, schedule: seq<Event>, n: nat)
    requires Fresh(l0)
    requires BothStarted(Run(l0, schedule), n) && !BothFinished(Run(l0, schedule), n)
    ensures exists e :: Useful(Run(l0, schedule), e, n)
  {
    FreshInv(l0);
    RunKeeps(l0, schedule);
    var e := SomeUsefulStep(Run(l0, schedule), n);
  }

  /** Once both consoles have started their n-th transfer, a continuation leaves both finished
      exactly when it contains as many useful steps as there was work, which is never above 34. */
  lemma ExchangeFinishes(l0: Link, schedule: seq<Event>, rest: seq<Event>, n: nat)
    requires Fresh(l0) && BothStarted(Run(l0, schedule), n)
    ensures var l := Run(l0, schedule);
            && UsefulSteps(l, rest, n) <= Work(l, n) <= 34
            && (BothFinished(Run(l, rest), n) <==> UsefulSteps(l, rest, n) == Work(l, n))
  {
    FreshInv(l0);
    RunKeeps(l0, schedule);
    var l := Run(l0, schedule);
    RunWorks(l, rest, n);
    NoWorkMeansFinished(l, n);
    NoWorkMeansFinished(Run(l, rest), n);
  }

  // ---- Fair schedules ------------------------------------------------------------------------

  /** No other thread, and no step of the game, takes a useful step away from its thread. */
  lemma UsefulStepsWait(l: Link, e: Event, f: Event, n: nat)
    requires Inv(l) && Useful(l, e, n) && f != e
    ensures Useful(Next(l, f), e, n)
  {
    if e.side == f.side {
      match e.side
      case A => StaysEffective(l.a, l.ba, e.action, f.action, n);
      case B => StaysEffective(l.b, l.ab, e.action, f.action, n);
    }
  }

  lemma StaysEffective(c: Console, incoming: seq<byte>, action: Action, other: Action, n: nat)
    requires ConsoleInv(c) && Done(c) < n && Effective(c, incoming, action) && other != action
    ensures var o := ConsoleNext(c, incoming, other);
            Done(o.c) < n && Effective(o.c, if o.took then incoming[1..] else incoming, action)
  {
    match action
    case CpuStep => CpuStepStays(c, incoming, other, n);
    case ServerStep =>
      ServerMovesOnlyWhilePending(c);
      ServerStepStays(c, incoming, other, n);
    case _ =>
  }

  lemma CpuStepStays(c: Console, incoming: seq<byte>, other: Action, n: nat)
    requires Done(c) < n && Effective(c, incoming, CpuStep) && other != CpuStep
    ensures var d := ConsoleNext(c, incoming, other).c; Done(d) < n && Effective(d, incoming, CpuStep)
  {
  }

  lemma ServerStepStays(c: Console, incoming: seq<byte>, other: Action, n: nat)
    requires Done(c) < n && Effective(c, incoming, ServerStep) && Pending(c) && other != ServerStep
    ensures var o := ConsoleNext(c, incoming, other);
            !o.took && Done(o.c) < n && Effective(o.c, incoming, ServerStep)
  {
  }

  /** A stretch of the schedule in which the thread gets its turn makes progress. */
  lemma {:induction false} TurnMakesProgress(l: Link, stretch: seq<Event>, e: Event, n: nat)
    requires Inv(l) && BothStarted(l, n) && Useful(l, e, n) && e in stretch
    ensures UsefulSteps(l, stretch, n) > 0
    decreases |stretch|
  {
    if stretch[0] == e {
    } else {
      NextKeeps(l, stretch[0]);
      StepWorks(l, stretch[0], n);
      UsefulStepsWait(l, e, stretch[0], n);
      TurnMakesProgress(Next(l, stretch[0]), stretch[1..], e, n);
    }
  }

  /** Each of the four threads takes a step, in any order, among any other steps. */
  predicate AllTakeTurns(round: seq<Event>) {
    && Event(A, CpuStep) in round && Event(A, ServerStep) in round
    && Event(B, CpuStep) in round && Event(B, ServerStep) in round
  }

  lemma RoundMakesProgress(l: Link, round: seq<Event>, n: nat)
    requires Inv(l) && BothStarted(l, n) && AllTakeTurns(round)
    ensures BothFinished(l, n) || UsefulSteps(l, round, n) > 0
  {
    if !BothFinished(l, n) {
      var e := SomeUsefulStep(l, n);
      TurnMakesProgress(l, round, e, n);
    }
  }

  lemma SomeUsefulStep(l: Link, n: nat) returns (e: Event)
    requires Inv(l) && BothStarted(l, n) && !BothFinished(l, n)
    ensures Useful(l, e, n)
  {
    if Done(l.a) < n {
      UnfinishedCanMove(l, n);
      e :| Useful(l, e, n);
    } else {
      UnfinishedCanMove(l.Flip(), n);
      var f :| Useful(l.Flip(), f, n);
      e := Event(if f.side == A then B else A, f.action);
    }
  }

  /** Rounds one after the other. */
  function Rounds(rounds: seq<seq<Event>>): seq<Event> {
    if rounds == [] then [] else rounds[0] + Rounds(rounds[1..])
  }

  lemma {:induction false} RunConcat(l: Link, s: seq<Event>, t: seq<Event>)
    ensures Run(l, s + t) == Run(Run(l, s), t)
    decreases |s|
  {
    if s == [] {
      assert s + t == t;
    } else {
      assert (s + t)[1..] == s[1..] + t;
      RunConcat(Next(l, s[0]), s[1..], t);
    }
  }

  /** Every round takes at least one off the work left. */
  lemma {:induction false} RoundsFinish(l: Link, rounds: seq<seq<Event>>, n: nat)
    requires Inv(l) && BothStarted(l, n) && |rounds| >= Work(l, n)
    requires forall r | r in rounds :: AllTakeTurns(r)
    ensures BothFinished(Run(l, Rounds(rounds)), n)
    decreases |rounds|
  {
    NoWorkMeansFinished(l, n);
    if rounds == [] {
    } else {
      var m := Run(l, rounds[0]);
      assert rounds[0] in rounds;
      RunWorks(l, rounds[0], n);
      RoundMakesProgress(l, rounds[0], n);
      RoundsFinish(m, rounds[1..], n);
      RunConcat(l, rounds[0], Rounds(rounds[1..]));
    }
  }

  /** Any schedule finishes the exchange that is fair for long enough: once both consoles have started
      their n-th transfer, 34 rounds in which each thread gets a turn leave both finished, whatever
      comes before, between and after. */
  lemma FairSchedulesFinish(l0: Link, schedule: seq<Event>, rounds: seq<seq<Event>>, rest: seq<Event>, n: nat)
    requires Fresh(l0) && BothStarted(Run(l0, schedule), n)
    requires |rounds| >= 34 && forall r | r in rounds :: AllTakeTurns(r)
    ensures BothFinished(Run(l0, schedule + Rounds(rounds) + rest), n)
  {
    FreshInv(l0);
    RunKeeps(l0, schedule);
    var l := Run(l0, schedule);
    NoWorkMeansFinished(l, n);
    RoundsFinish(l, rounds, n);
    RunWorks(l, Rounds(rounds), n);
    var m := Run(l, Rounds(rounds));
    RunWorks(m, rest, n);
    NoWorkMeansFinished(m, n);
    NoWorkMeansFinished(Run(m, rest), n);
    RunConcat(l0, schedule, Rounds(rounds));
    RunConcat(l0, schedule + Rounds(rounds), rest);
  }

  // ---- What the threads amount to --------------------------------------------------------------

  /** One console as its game sees it: SB, the bytes of the transfers begun, and what those that ended
      brought. */
  datatype Half = Half(sb: byte, begun: seq<byte>, ended: seq<byte>)

  /** Two consoles without threads, slots or streams. */
  datatype Exchange = Exchange(a: Half, b: Half) {
    function Flip(): Exchange { Exchange(b, a) }
  }

  /** What the game can tell of a step. */
  datatype Visible = Nothing | Wrote(v: byte) | Began | Ended

  /** A transfer begins with the byte in SB, and ends by putting the other console's byte of the same
      number there. */
  function Move(x: Exchange, e: Visible): Exchange {
    match e
    case Nothing => x
    case Wrote(v) => x.(a := x.a.(sb := v))
    case Began => x.(a := x.a.(begun := x.a.begun + [x.a.sb]))
    case Ended =>
      var n := |x.a.ended|;
      if n < |x.b.begun| then x.(a := x.a.(sb := x.b.begun[n], ended := x.a.ended + [x.b.begun[n]])) else x
  }

  function MoveSide(x: Exchange, side: Side, e: Visible): Exchange {
    match side
    case A => Move(x, e)
    case B => Move(x.Flip(), e).Flip()
  }

  function Seen(c: Console, action: Action): Visible {
    match action
    case Start => if c.cpu == Free then Began else Nothing
    case WriteData(v) => if c.cpu == Free || c.cpu == Waiting then Wrote(v) else Nothing
    case CpuStep => if c.cpu == WriteSb then Ended else Nothing
    case _ => Nothing
  }

  function SeenOf(l: Link, e: Event): Visible {
    Seen(if e.side == A then l.a else l.b, e.action)
  }

  function HalfOf(c: Console): Half {
    Half(c.sb, c.h.started, if c.cpu == ClearBit || c.cpu == Raise then c.h.finished + [c.sb] else c.h.finished)
  }

  function ExchangeOf(l: Link): Exchange {
    Exchange(HalfOf(l.a), HalfOf(l.b))
  }

  /** The two consoles after the visible steps of a schedule. */
  function Moves(x: Exchange, l: Link, schedule: seq<Event>): Exchange
    decreases |schedule|
  {
    if schedule == [] then x
    else Moves(MoveSide(x, schedule[0].side, SeenOf(l, schedule[0])), Next(l, schedule[0]), schedule[1..])
  }

  /** The byte a transfer writes to SB is the other console's byte of the same number. */
  lemma EndsWithItsByte(l: Link)
    requires Inv(l) && l.a.cpu == WriteSb
    ensures var n := Done(l.a); n < |l.b.h.started| && l.a.cpuData == l.b.h.started[n]
  {
    var n := Done(l.a);
    assert l.a.cpuData == l.a.h.received[n];
    assert (l.a.h.received + l.ba)[n] == l.b.h.sent[n];
  }

  lemma CpuStepMoves(l: Link)
    requires Inv(l)
    ensures ExchangeOf(NextA(l, CpuStep)) == Move(ExchangeOf(l), Seen(l.a, CpuStep))
  {
    if l.a.cpu == WriteSb { EndsWithItsByte(l); }
  }

  lemma OtherStepMoves(l: Link, action: Action)
    requires Inv(l) && action != CpuStep
    ensures ExchangeOf(NextA(l, action)) == Move(ExchangeOf(l), Seen(l.a, action))
  {
    match action
    case ServerStep => ServerKeepsHalf(l.a, l.ba);
    case Start => StartMovesHalf(l.a, l.ba);
    case _ => GameMovesHalf(l.a, l.ba, action);
  }

  lemma ServerKeepsHalf(c: Console, incoming: seq<byte>)
    ensures var d := ServerNext(c, incoming).c; HalfOf(d) == HalfOf(c) && d.h.started == c.h.started
  {
    ServerKeepsCpu(c, incoming);
    ServerKeepsGame(c, incoming);
  }

  lemma ServerKeepsCpu(c: Console, incoming: seq<byte>)
    ensures var d := ServerNext(c, incoming).c; d.cpu == c.cpu && d.sb == c.sb
  {
  }

  lemma ServerKeepsGame(c: Console, incoming: seq<byte>)
    ensures var d := ServerNext(c, incoming).c; d.h.started == c.h.started && d.h.finished == c.h.finished
  {
    var d := ServerNext(c, incoming).c;
    match c.server
    case LoadTx => assert d.h == c.h.(txLoads := c.h.txLoads + 1);
    case Send => assert d.h == c.h.(sent := c.h.sent + [c.serverData]);
    case Receive => assert d.h == if incoming == [] then c.h else c.h.(received := c.h.received + [incoming[0]]);
    case StoreRxData => assert d.h == c.h.(rxStores := c.h.rxStores + 1);
    case _ => assert d.h == c.h;
  }

  lemma StartMovesHalf(c: Console, incoming: seq<byte>)
    ensures HalfOf(ConsoleNext(c, incoming, Start).c) ==
            if c.cpu == Free then HalfOf(c).(begun := HalfOf(c).begun + [c.sb]) else HalfOf(c)
  {
  }

  lemma GameMovesHalf(c: Console, incoming: seq<byte>, action: Action)
    requires !action.Start? && !action.CpuStep? && !action.ServerStep?
    ensures HalfOf(ConsoleNext(c, incoming, action).c) ==
            match Seen(c, action) case Wrote(v) => HalfOf(c).(sb := v) case _ => HalfOf(c)
  {
  }

  lemma NextMoves(l: Link, e: Event)
    requires Inv(l)
    ensures ExchangeOf(Next(l, e)) == MoveSide(ExchangeOf(l), e.side, SeenOf(l, e))
  {
    var m := if e.side == A then l else l.Flip();
    if e.action == CpuStep {
      CpuStepMoves(m);
    } else {
      OtherStepMoves(m, e.action);
    }
  }

  /** The four threads amount to the two consoles: in every interleaving each transfer begins with the
      byte then in SB, which the game wrote or an earlier transfer brought, and ends with the byte that
      the other console's transfer of the same number began with. */
  lemma {:induction false} ThreadsAmountToExchange(l: Link, schedule: seq<Event>)
    requires Inv(l)
    ensures ExchangeOf(Run(l, schedule)) == Moves(ExchangeOf(l), l, schedule)
    decreases |schedule|
  {
    if schedule == [] {
    } else {
      NextKeeps(l, schedule[0]);
      NextMoves(l, schedule[0]);
      ThreadsAmountToExchange(Next(l, schedule[0]), schedule[1..]);
    }
  }

  /** A game that writes a byte and starts sends this byte. */
  lemma StartSendsWhatWasWritten(c: Console, v: byte, incoming: seq<byte>)
    requires c.cpu == Free
    ensures var d := ConsoleNext(ConsoleNext(c, incoming, WriteData(v)).c, incoming, Start).c;
            d.h.started == c.h.started + [v] && d.cpu == StoreTxData && d.h.finished == c.h.finished
  {
  }

  /** Both games write a byte and start. */
  function BothStart(v: byte, w: byte): seq<Event> {
    [Event(A, WriteData(v)), Event(A, Start), Event(B, WriteData(w)), Event(B, Start)]
  }

  lemma BothHaveStarted(l: Link, v: byte, w: byte)
    requires l.a.cpu == Free && l.b.cpu == Free
    ensures var m := Run(l, BothStart(v, w));
            && m.a.h.started == l.a.h.started + [v] && m.b.h.started == l.b.h.started + [w]
  {
    var s1 := BothStart(v, w)[1..];
    var s2 := s1[1..];
    var s3 := s2[1..];
    var l1 := Next(l, Event(A, WriteData(v)));
    var l2 := Next(l1, Event(A, Start));
    var l3 := Next(l2, Event(B, WriteData(w)));
    StartSendsWhatWasWritten(l.a, v, l.ba);
    StartSendsWhatWasWritten(l2.b, w, l2.ab);
    assert Run(l, BothStart(v, w)) == Run(l1, s1);
    assert s1[0] == Event(A, Start) && Run(l1, s1) == Run(l2, s2);
    assert s2[0] == Event(B, WriteData(w)) && Run(l2, s2) == Run(l3, s3);
    assert s3 == [Event(B, Start)] && s3[1..] == [];
    assert Run(l3, s3) == Run(Next(l3, Event(B, Start)), []);
  }

  /** End to end: whatever happened before, if both games are free after equally many transfers, and one
      writes `v` and starts, and the other writes `w` and starts, then the first finishes with `w` and
      the second with `v`. */
  lemma BytesAreExchanged(l0: Link, before: seq<Event>, v: byte, w: byte, rounds: seq<seq<Event>>, rest: seq<Event>)
    requires Fresh(l0) && |rounds| >= 34 && forall r | r in rounds :: AllTakeTurns(r)
    requires var l := Run(l0, before); l.a.cpu == Free && l.b.cpu == Free && Done(l.a) == Done(l.b)
    ensures var n := Done(Run(l0, before).a);
            var m := Run(l0, before + BothStart(v, w) + Rounds(rounds) + rest);
            Done(m.a) > n && m.a.h.finished[n] == w && Done(m.b) > n && m.b.h.finished[n] == v
  {
    var l, n := Run(l0, before), Done(Run(l0, before).a);
    var started := before + BothStart(v, w);
    FreshInv(l0);
    RunKeeps(l0, before);
    RunConcat(l0, before, BothStart(v, w));
    BothHaveStarted(l, v, w);
    FairSchedulesFinish(l0, started, rounds, rest, n + 1);
    ExchangeIsSafe(l0, started + Rounds(rounds) + rest);
    assert started + Rounds(rounds) + rest == started + (Rounds(rounds) + rest);
    RunConcat(l0, started, Rounds(rounds) + rest);
    StartedStays(Run(l0, started), Rounds(rounds) + rest);
  }

  /** What was started stays so. */
  lemma {:induction false} StartedStays(l: Link, schedule: seq<Event>)
    ensures var m := Run(l, schedule); l.a.h.started <= m.a.h.started && l.b.h.started <= m.b.h.started
    decreases |schedule|
  {
    if schedule == [] {
    } else {
      var e := schedule[0];
      match e.side {
        case A => OneStartedStays(l.a, l.ba, e.action);
        case B => OneStartedStays(l.b, l.ab, e.action);
      }
      StartedStays(Next(l, e), schedule[1..]);
    }
  }

  lemma OneStartedStays(c: Console, incoming: seq<byte>, action: Action)
    ensures c.h.started <= ConsoleNext(c, incoming, action).c.h.started
  {
    match action
    case CpuStep => assert CpuNext(c).h.started == c.h.started;
    case ServerStep => ServerKeepsHalf(c, incoming);
    case Start => StartMovesHalf(c, incoming);
    case _ => GameMovesHalf(c, incoming, action);
  }
}
