/** The embedded controller behind ports 0x66 and 0x62, and the host side that polls it.

    `Advance` is one step of a conforming controller (section 12.3 of ACPI 6.5) between two port
    accesses. `Next` is one step of the system that controller and driver make, a single port access
    or a wait that ends, in time or not. The class `Host` carries out the driver's calls; each is a
    run of that system. */
module Ec {
  import opened Bits
  import opened PkgLength
  import opened Regions

  type Ram = s: seq<Byte> | |s| == 256 witness seq(256, i => 0)
  type EventByte = b: Byte | b != 0 witness 1

  datatype Input = Command(b: Byte) | Data(b: Byte)
  datatype Phase = Idle | ReadAddress | WriteAddress | WriteData(addr: Byte) | Answer(b: Byte)

  /** `input` is the byte the host wrote last, while IBF is set; `out` the byte it may read,
      while OBF is set. */
  datatype Dev = Dev(ram: Ram, queue: seq<EventByte>, phase: Phase, input: Option<Input>, out: Option<Byte>)

  const CMD_READ: Byte := 0x80
  const CMD_WRITE: Byte := 0x81
  const CMD_QUERY: Byte := 0x84

  /** What the controller does on its own: take in a byte, put out an answer, note an event. */
  datatype Move = Consume | Emit | Event(q: EventByte)

  function Advance(d: Dev, m: Move): (r: Dev)
  {
    match m
    case Event(q) => d.(queue := d.queue + [q])
    case Emit => if d.phase.Answer? && d.out.None? then d.(phase := Idle, out := Some(d.phase.b)) else d
    case Consume =>
      if d.input.None? || d.phase.Answer? then d
      else TakeIn(d.(input := None), d.input.value)
  }

  function TakeIn(d: Dev, i: Input): (r: Dev)
  {
    match i
    case Command(c) =>
      if c == 0x80 then d.(phase := ReadAddress)
      else if c == 0x81 then d.(phase := WriteAddress)
      else if c == 0x84 then
        if d.queue == [] then d.(phase := Answer(0)) else d.(phase := Answer(d.queue[0]), queue := d.queue[1..])
      else d.(phase := Idle)
    case Data(b) =>
      match d.phase
      case ReadAddress => d.(phase := Answer(d.ram[b]))
      case WriteAddress => d.(phase := WriteData(b))
      case WriteData(a) => d.(phase := Idle, ram := d.ram[a as nat := b])
      case _ => d
  }

  /** Ready for a transaction: nothing under way and no byte in either register. */
  predicate Calm(d: Dev) { d.phase == Idle && d.input.None? && d.out.None? }

  /** Nothing under way, but an old answer still waits to be read. */
  predicate Stale(d: Dev) { d.phase == Idle && d.input.None? && d.out.Some? }

  // ----- transactions -----

  datatype Request = Read(addr: Byte) | Write(addr: Byte, val: Byte) | Query

  /** The bytes of a request, each sent when IBF is clear. */
  function Bytes(req: Request): (s: seq<Input>)
    ensures 1 <= |s| <= 3
  {
    match req
    case Read(a) => [Command(CMD_READ), Data(a)]
    case Write(a, v) => [Command(CMD_WRITE), Data(a), Data(v)]
    case Query => [Command(CMD_QUERY)]
  }

  /** What the host waits for once `sent` bytes have gone out. */
  predicate Granted(d: Dev, req: Request, sent: nat)
  {
    if sent < |Bytes(req)| || req.Write? then d.input.None? else d.out.Some?
  }

  // ----- what a controller owes -----

  /** An answer still to be read: a byte that is settled, or the oldest event when it is asked for. */
  datatype Due = Fixed(b: Byte) | Oldest

  /** The answers worked out but not read, the older first. */
  function InFlight(d: Dev): (s: seq<Byte>)
  {
    (if d.out.Some? then [d.out.value] else []) + if d.phase.Answer? then [d.phase.b] else []
  }

  /** The answer that taking in the waiting byte will produce. */
  function Pending(d: Dev): (s: seq<Due>)
  {
    if d.input.None? then []
    else match d.input.value
      case Command(c) => if c == 0x84 then [Oldest] else []
      case Data(a) => if d.phase == ReadAddress then [Fixed(d.ram[a])] else []
  }

  function Settled(bs: seq<Byte>): (s: seq<Due>)
    ensures |s| == |bs| && forall i :: 0 <= i < |bs| ==> s[i] == Fixed(bs[i])
  {
    seq(|bs|, i requires 0 <= i < |bs| => Fixed(bs[i]))
  }

  /** Every answer the controller still owes the host, the oldest first. */
  function Owed(d: Dev): (s: seq<Due>) { Settled(InFlight(d)) + Pending(d) }

  /** The memory once the waiting byte is taken in. */
  function Memory(d: Dev): (ram: Ram)
  {
    if d.phase.WriteData? && d.input.Some? && d.input.value.Data? then d.ram[d.phase.addr as nat := d.input.value.b]
    else d.ram
  }

  /** What the controller does on its own settles at most one answer, the one pending, and changes
      neither the others nor the memory. */
  lemma AdvanceOwes(d: Dev, m: Move)
    ensures var e := Advance(d, m);
            && Memory(e) == Memory(d)
            && (d.input.None? ==> e.input.None?) && (d.out.Some? ==> e.out == d.out)
            && (if Pending(e) == Pending(d) then
                  InFlight(e) == InFlight(d) && e.queue == d.queue + if m.Event? then [m.q] else []
                else
                  && m.Consume? && |Pending(d)| == 1 && Pending(e) == []
                  && var c := if Pending(d)[0].Fixed? then Pending(d)[0].b else if d.queue == [] then 0 else d.queue[0];
                     && InFlight(e) == InFlight(d) + [c]
                     && e.queue == if Pending(d)[0].Fixed? || d.queue == [] then d.queue else d.queue[1..])
  {
  }

  // ----- a call under way -----

  /** Where the last bytes sent have brought the controller, `sent` of them being out. */
  predicate Progress(d: Dev, req: Request, sent: nat)
    requires sent <= |Bytes(req)|
  {
    if sent == 0 then true
    else if sent == |Bytes(req)| then
      || (d.input == Some(Bytes(req)[sent - 1]) && d.phase == Before(req, sent - 1, d.phase))
      || (d.input.None? && (d.phase == Idle || (d.phase.Answer? && !req.Write?)))
    else
      || (d.input == Some(Bytes(req)[sent - 1]) && d.phase == Before(req, sent - 1, d.phase))
      || (d.input.None? && d.phase == Before(req, sent, d.phase))
  }

  /** The phase in which byte `i` of a request is taken in; the first may be taken in during any. */
  function Before(req: Request, i: nat, any: Phase): (p: Phase)
  {
    if i == 0 then any
    else match req
      case Read(_) => ReadAddress
      case Write(a, _) => if i == 1 then WriteAddress else WriteData(a)
      case Query => any
  }

  lemma ProgressKept(d: Dev, m: Move, req: Request, sent: nat)
    requires sent <= |Bytes(req)| && Progress(d, req, sent)
    ensures Progress(Advance(d, m), req, sent)
    ensures Granted(d, req, sent) ==> Granted(Advance(d, m), req, sent)
  {
  }

  function Send(d: Dev, i: Input): (r: Dev) { d.(input := Some(i)) }

  /** The memory a request leaves. */
  function RamThen(ram: Ram, req: Request): (r: Ram) { if req.Write? then ram[req.addr as nat := req.val] else ram }

  /** The answer a request is owed. */
  function DueOf(ram: Ram, req: Request): (s: seq<Due>)
  {
    match req
    case Read(a) => [Fixed(ram[a])]
    case Write(_, _) => []
    case Query => [Oldest]
  }

  /** A request takes effect when its last byte goes out, and not before. */
  lemma SendOwes(d: Dev, req: Request, sent: nat)
    requires sent < |Bytes(req)| && Progress(d, req, sent) && d.input.None?
    ensures var e := Send(d, Bytes(req)[sent]);
            && Progress(e, req, sent + 1) && InFlight(e) == InFlight(d) && Pending(d) == [] && e.queue == d.queue
            && Pending(e) == (if sent + 1 == |Bytes(req)| then DueOf(Memory(d), req) else [])
            && Memory(e) == if sent + 1 == |Bytes(req)| then RamThen(Memory(d), req) else Memory(d)
  {
  }

  function Reply(d: Dev, req: Request): (b: Byte) { if req.Write? || d.out.None? then 0 else d.out.value }
  function Finish(d: Dev, req: Request): (r: Dev) { if req.Write? then d else d.(out := None) }

  // ----- the whole system -----

  /** The host between calls, or inside one: `sent` bytes are out, and `ready` says that the wait before
      the next access is over. When the call began the events `waiting` were queued, `behind` answers
      were owed, and `begun` had been worked out since the start. */
  datatype HostState = Free | Busy(req: Request, sent: nat, ready: bool, waiting: seq<EventByte>, behind: nat,
      begun: nat)

  /** A call that succeeded: it was request `at` to go out whole, and its reply is answer `slot`. */
  datatype Done = Done(req: Request, reply: Byte, waiting: seq<EventByte>, behind: nat, at: nat, slot: nat)

  /** `sent` are the requests that went out whole, `taken` the answers read, `lost` counts the calls
      given up after their last byte while an answer was owed, `drained` the answers read away. */
  datatype System = System(dev: Dev, host: HostState, sent: seq<Request>, taken: seq<Byte>, log: seq<Done>,
                           arrived: seq<EventByte>, lost: nat, drained: nat)

  function Start(d: Dev): (s: System) { System(d, Free, [], [], [], d.queue, 0, 0) }

  /** One step of either side. A wait may be given up only while it is not granted. */
  datatype Label = Device(m: Move) | Begin(req: Request) | HostStep | Timeout | Drain

  function AnswersOf(s: System): (bs: seq<Byte>) { s.taken + InFlight(s.dev) }

  /** One more answer is owed because this call's last byte is out. */
  function Mine(h: HostState): (n: nat)
  {
    if h.Busy? && !h.req.Write? && h.sent == |Bytes(h.req)| then 1 else 0
  }

  function Next(s: System, l: Label): (r: System)
  {
    match l
    case Device(m) => s.(dev := Advance(s.dev, m), arrived := if m.Event? then s.arrived + [m.q] else s.arrived)
    case Begin(req) =>
      if s.host.Free? then s.(host := Busy(req, 0, false, s.dev.queue, |Owed(s.dev)|, |AnswersOf(s)|)) else s
    case Timeout =>
      if s.host.Busy? && !s.host.ready && !Granted(s.dev, s.host.req, s.host.sent) then
        s.(host := Free, lost := s.lost + Mine(s.host))
      else s
    case Drain =>
      if s.host.Free? && s.dev.out.Some? then
        s.(dev := s.dev.(out := None), taken := s.taken + [s.dev.out.value], drained := s.drained + 1)
      else s
    case HostStep =>
      if s.host.Free? then s
      else if !s.host.ready then if Granted(s.dev, s.host.req, s.host.sent) then s.(host := s.host.(ready := true))
          else s
      else if s.host.sent < |Bytes(s.host.req)| then Sending(s) else Finishing(s)
  }

  function Sending(s: System): (r: System)
    requires s.host.Busy? && s.host.sent < |Bytes(s.host.req)|
  {
    var h := s.host;
    s.(dev := Send(s.dev, Bytes(h.req)[h.sent]), host := h.(sent := h.sent + 1, ready := false),
       sent := if h.sent + 1 == |Bytes(h.req)| then s.sent + [h.req] else s.sent)
  }

  function Finishing(s: System): (r: System)
    requires s.host.Busy?
  {
    var h := s.host;
    var reply := Reply(s.dev, h.req);
    s.(dev := Finish(s.dev, h.req), host := Free, taken := if h.req.Write? then s.taken else s.taken + [reply],
       log := s.log + [Done(h.req, reply, h.waiting, h.behind, |s.sent|, |s.taken|)])
  }

  function Run(s: System, ls: seq<Label>): (r: System)
  {
    if ls == [] then s else Next(Run(s, ls[..|ls| - 1]), ls[|ls| - 1])
  }

  // ----- what the requests sent so far should have brought -----

  function MemAfter(ram: Ram, sent: seq<Request>): (r: Ram)
  {
    if sent == [] then ram else RamThen(MemAfter(ram, sent[..|sent| - 1]), sent[|sent| - 1])
  }

  function Dues(ram: Ram, sent: seq<Request>): (s: seq<Due>)
  {
    if sent == [] then []
    else
      var front := sent[..|sent| - 1];
      Dues(ram, front) + DueOf(MemAfter(ram, front), sent[|sent| - 1])
  }

  /** Where a run began: the memory and the answers already owed. */
  datatype Origin = Origin(ram: Ram, owed: seq<Due>)

  function OriginOf(d: Dev): (o: Origin) { Origin(Memory(d), Owed(d)) }

  /** Every answer asked for, the oldest first. */
  function Asks(o: Origin, sent: seq<Request>): (s: seq<Due>) { o.owed + Dues(o.ram, sent) }

  lemma AsksGrow(o: Origin, sent: seq<Request>, req: Request)
    ensures MemAfter(o.ram, sent + [req]) == RamThen(MemAfter(o.ram, sent), req)
    ensures Asks(o, sent + [req]) == Asks(o, sent) + DueOf(MemAfter(o.ram, sent), req)
  {
    assert (sent + [req])[..|sent|] == sent;
  }

  /** The answers are those asked for, in that order. */
  predicate Fits(asks: seq<Due>, answers: seq<Byte>)
  {
    |answers| <= |asks| && forall i :: 0 <= i < |answers| && asks[i].Fixed? ==> answers[i] == asks[i].b
  }

  /** The events among the answers from number `from` on. */
  function Events(asks: seq<Due>, answers: seq<Byte>, from: nat): (s: seq<EventByte>)
    requires |answers| <= |asks|
    decreases |answers|
  {
    if |answers| <= from then []
    else
      var n := |answers| - 1;
      Events(asks, answers[..n], from) + if asks[n].Oldest? && answers[n] != 0 then [answers[n]] else []
  }

  lemma EventsNext(asks: seq<Due>, answers: seq<Byte>, c: Byte, from: nat)
    requires |answers| < |asks|
    ensures Events(asks, answers + [c], from) ==
            Events(asks, answers, from) + if |answers| >= from && asks[|answers|].Oldest? && c != 0 then [c] else []
  {
    assert (answers + [c])[..|answers|] == answers;
  }

  lemma {:induction false} EventsMore(asks: seq<Due>, more: seq<Due>, answers: seq<Byte>, from: nat)
    requires |answers| <= |asks|
    ensures Events(asks + more, answers, from) == Events(asks, answers, from)
    decreases |answers|
  {
    if |answers| > from { EventsMore(asks, more, answers[..|answers| - 1], from); }
  }

  lemma {:induction false} EventsHead(asks: seq<Due>, answers: seq<Byte>, from: nat)
    requires from < |answers| <= |asks| && asks[from].Oldest? && answers[from] != 0
    ensures |Events(asks, answers, from)| > 0 && Events(asks, answers, from)[0] == answers[from]
    decreases |answers|
  {
    if |answers| > from + 1 { EventsHead(asks, answers[..|answers| - 1], from); }
  }

  lemma {:induction false} NoEvents(asks: seq<Due>, answers: seq<Byte>, from: nat)
    requires |answers| <= |asks| && forall i :: from <= i < |answers| ==> asks[i].Fixed?
    ensures Events(asks, answers, from) == []
    decreases |answers|
  {
    if |answers| > from { NoEvents(asks, answers[..|answers| - 1], from); }
  }

  /** The events `q`, queued when answer number `from` was the next, leave the queue in order, and zero
      is answered only when none of them is left. */
  predicate InOrder(asks: seq<Due>, answers: seq<Byte>, from: nat, q: seq<EventByte>, queue: seq<EventByte>)
  {
    && from <= |answers| <= |asks| && q <= Events(asks, answers, from) + queue
    && forall i :: from <= i < |answers| && asks[i].Oldest? && answers[i] == 0 ==> q <= Events(asks, answers[..i], from)
  }

  lemma InOrderNext(asks: seq<Due>, answers: seq<Byte>, from: nat, q: seq<EventByte>, queue: seq<EventByte>,
                    c: Byte, rest: seq<EventByte>)
    requires InOrder(asks, answers, from, q, queue) && |answers| < |asks|
    requires if asks[|answers|].Fixed? then rest == queue
             else if queue == [] then c == 0 && rest == [] else c == queue[0] && rest == queue[1..]
    ensures InOrder(asks, answers + [c], from, q, rest)
  {
    var more := answers + [c];
    EventsNext(asks, answers, c, from);
    assert queue != [] ==> queue == [queue[0]] + queue[1..];
    forall i | from <= i < |more| && asks[i].Oldest? && more[i] == 0 ensures q <= Events(asks, more[..i], from) {
      assert more[..i] == answers[..i];
      if i == |answers| { assert answers[..i] == answers; }
    }
  }

  lemma InOrderMore(asks: seq<Due>, more: seq<Due>, answers: seq<Byte>, from: nat, q: seq<EventByte>,
                    queue: seq<EventByte>)
    requires InOrder(asks, answers, from, q, queue)
    ensures InOrder(asks + more, answers, from, q, queue)
  {
    EventsMore(asks, more, answers, from);
    forall i | from <= i < |answers| && (asks + more)[i].Oldest? && answers[i] == 0
      ensures q <= Events(asks + more, answers[..i], from)
    {
      EventsMore(asks, more, answers[..i], from);
    }
  }

  lemma InOrderEvent(asks: seq<Due>, answers: seq<Byte>, from: nat, q: seq<EventByte>, queue: seq<EventByte>,
                     e: EventByte)
    requires InOrder(asks, answers, from, q, queue)
    ensures InOrder(asks, answers, from, q, queue + [e])
  {
    var ev := Events(asks, answers, from);
    assert ev + (queue + [e]) == (ev + queue) + [e];
  }

  // ----- the invariant -----

  /** `b` answers a query put when `q` was queued: the oldest event, or zero if there was none. */
  predicate Popped(q: seq<EventByte>, b: Byte, queue: seq<EventByte>)
  {
    if b == 0 then q == [] else q <= [b] + queue
  }

  predicate Right(ram: Ram, q: seq<EventByte>, req: Request, reply: Byte)
  {
    && (req.Read? ==> reply == ram[req.addr])
    && (req.Query? ==> (q != [] ==> reply == q[0]) && (reply == 0 ==> q == []))
  }

  /** What a logged call stands for. Begun when nothing was owed, its reply is right; otherwise it is the
      answer to the request as many places earlier as answers were owed. */
  predicate Legal(e: Done, o: Origin, sent: seq<Request>, taken: seq<Byte>)
  {
    && 1 <= e.at <= |sent| && sent[e.at - 1] == e.req
    && (e.behind == 0 ==> Right(MemAfter(o.ram, sent[..e.at]), e.waiting, e.req, e.reply))
    && (!e.req.Write? ==>
          e.slot < |taken| && taken[e.slot] == e.reply && e.slot + e.behind + 1 == |Asks(o, sent[..e.at])|)
  }

  predicate AllLegal(s: System, o: Origin)
  {
    forall k :: 0 <= k < |s.log| ==> Legal(s.log[k], o, s.sent, s.taken)
  }

  /** The call under way: its bytes, and what it will find in front of its own answer. */
  predicate Midway(s: System, asks: seq<Due>)
    requires s.host.Busy?
  {
    var h := s.host;
    && h.sent <= |Bytes(h.req)| && Progress(s.dev, h.req, h.sent) && (h.ready ==> Granted(s.dev, h.req, h.sent))
    && (h.sent == |Bytes(h.req)| ==> s.sent != [] && s.sent[|s.sent| - 1] == h.req)
    && |s.taken| + h.behind + Mine(h) == |asks|
    && |s.taken| <= h.begun && (h.behind == 0 ==> h.begun == |s.taken|)
    && InOrder(asks, AnswersOf(s), h.begun, h.waiting, s.dev.queue)
  }

  predicate Sound(s: System, o: Origin)
  {
    var asks, answers := Asks(o, s.sent), AnswersOf(s);
    && Fits(asks, answers) && asks[|answers|..] == Pending(s.dev)
    && s.arrived == Events(asks, answers, 0) + s.dev.queue
    && Memory(s.dev) == MemAfter(o.ram, s.sent)
    && |asks| + s.drained == |s.taken| + |o.owed| + s.lost + Mine(s.host)
    && AllLegal(s, o)
    && (s.host.Busy? ==> Midway(s, asks))
  }

  lemma SoundStart(d: Dev)
    ensures Sound(Start(d), OriginOf(d))
  {
    hide InFlight, Pending, Memory, Events, Legal;
    var asks, answers := Asks(OriginOf(d), []), AnswersOf(Start(d));
    assert answers == InFlight(d) && asks == Owed(d);
    assert asks[|answers|..] == Pending(d);
    NoEvents(asks, answers, 0);
  }

  /** The answers asked for and not read are the answers owed. */
  lemma OwedNow(s: System, o: Origin)
    requires Sound(s, o)
    ensures var asks := Asks(o, s.sent);
            && |asks| == |s.taken| + |Owed(s.dev)|
            && forall i :: 0 <= i < |Owed(s.dev)| && asks[|s.taken| + i].Fixed? ==>
               Owed(s.dev)[i] == asks[|s.taken| + i]
  {
    hide Events, AllLegal, Midway, MemAfter, Dues;
    var asks, answers := Asks(o, s.sent), AnswersOf(s);
    forall i | 0 <= i < |Owed(s.dev)| && asks[|s.taken| + i].Fixed? ensures Owed(s.dev)[i] == asks[|s.taken| + i] {
      if i < |InFlight(s.dev)| {
        assert answers[|s.taken| + i] == InFlight(s.dev)[i];
      } else {
        assert asks[|answers|..][i - |InFlight(s.dev)|] == asks[|s.taken| + i];
      }
    }
  }

  lemma LegalGrows(log: seq<Done>, o: Origin, sent: seq<Request>, taken: seq<Byte>, sent': seq<Request>,
                   taken': seq<Byte>)
    requires forall k :: 0 <= k < |log| ==> Legal(log[k], o, sent, taken)
    requires sent <= sent' && taken <= taken'
    ensures forall k :: 0 <= k < |log| ==> Legal(log[k], o, sent', taken')
  {
    hide MemAfter, Asks, Right;
    forall k | 0 <= k < |log| ensures Legal(log[k], o, sent', taken') {
      assert sent'[..log[k].at] == sent[..log[k].at];
    }
  }

  lemma SoundDevice(s: System, m: Move, o: Origin)
    requires Sound(s, o)
    ensures Sound(Next(s, Device(m)), o) && AnswersOf(s) <= AnswersOf(Next(s, Device(m)))
  {
    hide Advance, Events, MemAfter, Asks, Legal, Progress, Granted, InFlight, Pending, Memory, Owed, InOrder;
    var n := Next(s, Device(m));
    var asks, answers := Asks(o, s.sent), AnswersOf(s);
    AdvanceOwes(s.dev, m);
    if s.host.Busy? { ProgressKept(s.dev, m, s.host.req, s.host.sent); }
    if Pending(n.dev) == Pending(s.dev) {
      if m.Event? {
        assert Events(asks, answers, 0) + n.dev.queue == (Events(asks, answers, 0) + s.dev.queue) + [m.q];
        if s.host.Busy? { InOrderEvent(asks, answers, s.host.begun, s.host.waiting, s.dev.queue, m.q); }
      } else {
        assert n.dev.queue == s.dev.queue;
      }
    } else {
      var c := InFlight(n.dev)[|InFlight(s.dev)|];
      assert AnswersOf(n) == answers + [c];
      assert asks[|answers|] == Pending(s.dev)[0] by { assert asks[|answers|..][0] == asks[|answers|]; }
      SettleNext(asks, answers, s.dev.queue, c, n.dev.queue);
      if s.host.Busy? {
        InOrderNext(asks, answers, s.host.begun, s.host.waiting, s.dev.queue, c, n.dev.queue);
      }
    }
  }

  /** The pending answer is settled: it fits, and the events stay in order. */
  lemma SettleNext(asks: seq<Due>, answers: seq<Byte>, queue: seq<EventByte>, c: Byte, rest: seq<EventByte>)
    requires Fits(asks, answers) && |asks| == |answers| + 1
    requires if asks[|answers|].Fixed? then c == asks[|answers|].b && rest == queue
             else if queue == [] then c == 0 && rest == [] else c == queue[0] && rest == queue[1..]
    ensures Fits(asks, answers + [c]) && asks[|answers + [c]|..] == []
    ensures Events(asks, answers + [c], 0) + rest == Events(asks, answers, 0) + queue
  {
    hide Events;
    EventsNext(asks, answers, c, 0);
    assert queue != [] ==> queue == [queue[0]] + queue[1..];
  }

  lemma SoundBegin(s: System, req: Request, o: Origin)
    requires Sound(s, o) && s.host.Free?
    ensures Sound(Next(s, Begin(req)), o)
  {
    hide MemAfter, Dues, Legal, Memory, Owed, InFlight;
    OwedNow(s, o);
    NoEventsPast(Asks(o, s.sent), AnswersOf(s));
    assert |Owed(s.dev)| >= |InFlight(s.dev)| by { OwedParts(s.dev); }
  }

  lemma OwedParts(d: Dev)
    ensures |Owed(d)| == |InFlight(d)| + |Pending(d)|
  {
  }

  lemma NoEventsPast(asks: seq<Due>, answers: seq<Byte>)
    requires |answers| <= |asks|
    ensures Events(asks, answers, |answers|) == []
  {
  }

  lemma SoundSend(s: System, o: Origin)
    requires Sound(s, o) && s.host.Busy? && s.host.ready && s.host.sent < |Bytes(s.host.req)|
    ensures Sound(Sending(s), o) && AnswersOf(Sending(s)) == AnswersOf(s)
  {
    hide Events, MemAfter, Dues, Legal, Progress, InFlight, Pending, Memory, InOrder, Asks;
    var h, n := s.host, Sending(s);
    var asks, answers := Asks(o, s.sent), AnswersOf(s);
    SendOwes(s.dev, h.req, h.sent);
    if h.sent + 1 == |Bytes(h.req)| {
      var due := DueOf(Memory(s.dev), h.req);
      AsksGrow(o, s.sent, h.req);
      LegalGrows(s.log, o, s.sent, s.taken, n.sent, s.taken);
      EventsMore(asks, due, answers, 0);
      InOrderMore(asks, due, answers, h.begun, h.waiting, s.dev.queue);
      assert (asks + due)[|answers|..] == due;
    }
  }

  /** Reading the oldest answer moves it from the controller to the host. */
  lemma TakeAnswer(s: System, d: Dev, taken: seq<Byte>)
    requires s.dev.out.Some? && d == s.dev.(out := None) && taken == s.taken + [s.dev.out.value]
    ensures taken + InFlight(d) == AnswersOf(s) && Pending(d) == Pending(s.dev) && Memory(d) == Memory(s.dev)
    ensures AnswersOf(s)[|s.taken|] == s.dev.out.value
  {
  }

  /** A call begun when nothing was owed ends with the right reply. */
  lemma FinishRight(s: System, o: Origin)
    requires Sound(s, o) && s.host.Busy? && s.host.ready && s.host.sent == |Bytes(s.host.req)| && s.host.behind == 0
    ensures Right(MemAfter(o.ram, s.sent), s.host.waiting, s.host.req, Reply(s.dev, s.host.req))
    ensures Calm(Finishing(s).dev)
    ensures var b := Reply(s.dev, s.host.req);
            if s.host.req.Query? then Popped(s.host.waiting, b, s.dev.queue) else s.host.waiting <= s.dev.queue
  {
    hide MemAfter, Dues, AllLegal, Progress, InFlight, Pending, Memory, Events, Asks;
    var h := s.host;
    var asks, answers := Asks(o, s.sent), AnswersOf(s);
    var front := s.sent[..|s.sent| - 1];
    assert s.sent == front + [h.req];
    AsksGrow(o, front, h.req);
    FinishCalm(s, o);
    if h.req.Write? {
      NoEventsPast(asks, answers);
    } else {
      EventsNext(asks, s.taken, s.dev.out.value, h.begun);
      assert answers[..|s.taken|] == s.taken;
      NoEventsPast(asks, s.taken);
    }
  }

  /** Nothing is left of a call begun when nothing was owed. */
  lemma FinishCalm(s: System, o: Origin)
    requires Sound(s, o) && s.host.Busy? && s.host.ready && s.host.sent == |Bytes(s.host.req)| && s.host.behind == 0
    ensures Calm(Finishing(s).dev)
    ensures AnswersOf(s) == if s.host.req.Write? then s.taken else s.taken + [s.dev.out.value]
  {
    hide MemAfter, Dues, AllLegal, Memory, Events, Asks, InOrder;
    OwedNow(s, o);
    assert |Owed(s.dev)| == Mine(s.host);
  }

  lemma SoundFinish(s: System, o: Origin)
    requires Sound(s, o) && s.host.Busy? && s.host.ready && s.host.sent == |Bytes(s.host.req)|
    ensures Sound(Finishing(s), o) && AnswersOf(Finishing(s)) == AnswersOf(s)
  {
    hide Events, MemAfter, Dues, Legal, Asks, Progress, InOrder, InFlight, Pending, Memory;
    var h, n := s.host, Finishing(s);
    if !h.req.Write? { TakeAnswer(s, n.dev, n.taken); }
    if h.behind == 0 { FinishRight(s, o); }
    LegalGrows(s.log, o, s.sent, s.taken, s.sent, n.taken);
    LegalNow(s, o);
  }

  lemma LegalNow(s: System, o: Origin)
    requires Sound(s, o) && s.host.Busy? && s.host.ready && s.host.sent == |Bytes(s.host.req)|
    requires s.host.behind == 0 ==> Right(MemAfter(o.ram, s.sent), s.host.waiting, s.host.req, Reply(s.dev, s.host.req))
    ensures var n := Finishing(s); Legal(n.log[|s.log|], o, n.sent, n.taken)
  {
    hide Events, MemAfter, Dues, Progress, InOrder, AllLegal, Right;
    assert s.sent[..|s.sent|] == s.sent;
  }

  lemma SoundDrain(s: System, o: Origin)
    requires Sound(s, o) && s.host.Free? && s.dev.out.Some?
    ensures Sound(Next(s, Drain), o) && AnswersOf(Next(s, Drain)) == AnswersOf(s)
  {
    hide Events, MemAfter, Dues, Legal, Asks, InFlight, Pending, Memory;
    var n := Next(s, Drain);
    TakeAnswer(s, n.dev, n.taken);
    LegalGrows(s.log, o, s.sent, s.taken, s.sent, n.taken);
  }

  lemma SoundKept(s: System, l: Label, o: Origin)
    requires Sound(s, o)
    ensures Sound(Next(s, l), o) && AnswersOf(s) <= AnswersOf(Next(s, l))
  {
    match l
    case Device(m) => SoundDevice(s, m, o);
    case Begin(req) => if s.host.Free? { SoundBegin(s, req, o); }
    case Timeout => SoundWait(s, l, o);
    case Drain => if s.host.Free? && s.dev.out.Some? { SoundDrain(s, o); }
    case HostStep =>
      if s.host.Busy? {
        if !s.host.ready { SoundWait(s, l, o); }
        else if s.host.sent < |Bytes(s.host.req)| { SoundSend(s, o); }
        else { SoundFinish(s, o); }
      }
  }

  lemma SoundWait(s: System, l: Label, o: Origin)
    requires Sound(s, o) && (l.Timeout? || (l.HostStep? && s.host.Busy? && !s.host.ready))
    ensures Sound(Next(s, l), o) && AnswersOf(Next(s, l)) == AnswersOf(s)
  {
    hide Events, MemAfter, Dues, Legal, Asks, Progress, InOrder, InFlight, Pending, Memory;
  }

  // ----- whole runs -----

  /** In every run from every controller state, however the two sides interleave and however many waits
      are given up: the answers read are those asked for, in order; a request has taken effect exactly
      if its last byte went out; no event is lost, reordered or invented; a call begun when nothing was
      owed has the right reply; and any other has the answer to an earlier request. */
  lemma {:induction false} EveryRun(d: Dev, ls: seq<Label>)
    ensures var r, o := Run(Start(d), ls), OriginOf(d);
            var asks := Asks(o, r.sent);
            && Fits(asks, AnswersOf(r)) && |asks| == |r.taken| + |Owed(r.dev)|
            && Memory(r.dev) == MemAfter(Memory(d), r.sent)
            && r.arrived == Events(asks, AnswersOf(r), 0) + r.dev.queue
            && (forall k :: 0 <= k < |r.log| ==> Legal(r.log[k], o, r.sent, r.taken))
    ensures Sound(Run(Start(d), ls), OriginOf(d))
  {
    hide Sound;
    if ls == [] {
      SoundStart(d);
    } else {
      EveryRun(d, ls[..|ls| - 1]);
      SoundKept(Run(Start(d), ls[..|ls| - 1]), ls[|ls| - 1], OriginOf(d));
    }
    SoundMeans(Run(Start(d), ls), OriginOf(d));
  }

  lemma SoundMeans(s: System, o: Origin)
    requires Sound(s, o)
    ensures Fits(Asks(o, s.sent), AnswersOf(s)) && |Asks(o, s.sent)| == |s.taken| + |Owed(s.dev)|
    ensures Memory(s.dev) == MemAfter(o.ram, s.sent)
    ensures s.arrived == Events(Asks(o, s.sent), AnswersOf(s), 0) + s.dev.queue
    ensures forall k :: 0 <= k < |s.log| ==> Legal(s.log[k], o, s.sent, s.taken)
  {
    hide Events, MemAfter, Dues, Legal, Midway;
    OwedNow(s, o);
  }

  /** The answers owed are those owed at the start and one for each ask given up too late, less those
      drained: a call that succeeds leaves the debt as it found it. */
  lemma DebtCount(d: Dev, ls: seq<Label>)
    ensures var r := Run(Start(d), ls);
            && |Owed(r.dev)| + r.drained == |Owed(d)| + r.lost + Mine(r.host)
            && (r.host.Busy? ==> r.host.behind + r.drained == |Owed(d)| + r.lost)
  {
    hide Run, Events, MemAfter, Dues, Legal;
    EveryRun(d, ls);
    OwedNow(Run(Start(d), ls), OriginOf(d));
  }

  /** Without a timeout, from a calm controller, every reply is right and the controller is calm again
      after every call. */
  lemma {:induction false} QuietRun(d: Dev, ls: seq<Label>)
    requires Calm(d) && forall i :: 0 <= i < |ls| ==> !ls[i].Timeout?
    ensures var r := Run(Start(d), ls);
            && r.lost == 0 && (r.host.Free? ==> Calm(r.dev) && r.dev.ram == MemAfter(d.ram, r.sent))
            && forall k :: 0 <= k < |r.log| ==>
                 r.log[k].behind == 0 && r.log[k].at <= |r.sent| &&
                 Right(MemAfter(d.ram, r.sent[..r.log[k].at]), r.log[k].waiting, r.log[k].req, r.log[k].reply)
  {
    hide Sound, MemAfter, Legal, Asks, Events, Fits, AllLegal, Right, Owed;
    EveryRun(d, ls);
    if ls != [] {
      var front := ls[..|ls| - 1];
      QuietRun(d, front);
      QuietStep(d, front, ls[|ls| - 1]);
    }
    var r := Run(Start(d), ls);
    forall k | 0 <= k < |r.log|
      ensures r.log[k].behind == 0 && r.log[k].at <= |r.sent|
      ensures Right(MemAfter(d.ram, r.sent[..r.log[k].at]), r.log[k].waiting, r.log[k].req, r.log[k].reply)
    {
      assert r.log[k].behind == 0;
      LegalMeans(r.log[k], OriginOf(d), r.sent, r.taken);
    }
  }

  lemma LegalMeans(e: Done, o: Origin, sent: seq<Request>, taken: seq<Byte>)
    requires Legal(e, o, sent, taken) && e.behind == 0
    ensures e.at <= |sent| && Right(MemAfter(o.ram, sent[..e.at]), e.waiting, e.req, e.reply)
  {
  }

  lemma QuietStep(d: Dev, ls: seq<Label>, l: Label)
    requires Calm(d) && !l.Timeout?
    requires var r := Run(Start(d), ls); r.lost == 0 && (r.host.Free? ==> Calm(r.dev))
    requires var r := Run(Start(d), ls); forall k :: 0 <= k < |r.log| ==> r.log[k].behind == 0
    ensures var r := Next(Run(Start(d), ls), l);
            && r.lost == 0 && (r.host.Free? ==> Calm(r.dev) && r.dev.ram == Memory(r.dev))
            && forall k :: 0 <= k < |r.log| ==> r.log[k].behind == 0
  {
    hide Run, MemAfter, Legal, Asks, Events, Fits, AllLegal, InOrder, Progress;
    EveryRun(d, ls);
    DebtCount(d, ls);
    var s := Run(Start(d), ls);
    if l.HostStep? && s.host.Busy? && s.host.ready && s.host.sent == |Bytes(s.host.req)| {
      FinishRight(s, OriginOf(d));
    }
  }

  ghost predicate CanReach(s: System, r: System) { exists ls: seq<Label> :: Run(s, ls) == r }

  lemma CanReachSelf(s: System)
    ensures CanReach(s, s)
  {
    assert Run(s, []) == s;
  }

  lemma {:induction false} RunOn(s: System, a: seq<Label>, b: seq<Label>)
    ensures Run(s, a + b) == Run(Run(s, a), b)
    decreases |b|
  {
    hide Next;
    if b == [] {
      assert a + b == a;
    } else {
      assert (a + b)[..|a + b| - 1] == a + b[..|b| - 1];
      RunOn(s, a, b[..|b| - 1]);
    }
  }

  lemma CanReachTrans(s: System, r: System, t: System)
    requires CanReach(s, r) && CanReach(r, t)
    ensures CanReach(s, t)
  {
    hide Run;
    var a: seq<Label> :| Run(s, a) == r;
    var b: seq<Label> :| Run(r, b) == t;
    RunOn(s, a, b);
  }

  lemma Step(s: System, r: System, l: Label) returns (n: System)
    requires CanReach(s, r)
    ensures n == Next(r, l) && CanReach(s, n)
  {
    var ls: seq<Label> :| Run(s, ls) == r;
    assert (ls + [l])[..|ls|] == ls;
    assert Run(s, ls + [l]) == Next(r, l);
    n := Next(r, l);
  }

  /** The host polls, sends a byte, and the controller takes it in. */
  lemma Deliver(s: System, r: System) returns (n: System)
    requires CanReach(s, r) && r.host.Busy? && !r.host.ready && r.host.sent < |Bytes(r.host.req)|
    requires r.dev.input.None? && !r.dev.phase.Answer?
    ensures CanReach(s, n) && n.log == r.log && n.lost == r.lost && n.host == r.host.(sent := r.host.sent + 1)
    ensures n.dev == TakeIn(r.dev, Bytes(r.host.req)[r.host.sent])
  {
    n := Step(s, r, HostStep);
    n := Step(s, n, HostStep);
    n := Step(s, n, Device(Consume));
  }

  /** From a calm controller every request can run to its end. */
  lemma Completes(s: System, req: Request)
    requires s.host.Free? && Calm(s.dev)
    ensures exists r :: CanReach(s, r) && r.host.Free? && |r.log| == |s.log| + 1 && r.log[|s.log|].req == req
  {
    hide CanReach;
    CanReachSelf(s);
    var r := Step(s, s, Begin(req));
    r := Deliver(s, r);
    if !req.Query? { r := Deliver(s, r); }
    if req.Write? { r := Deliver(s, r); } else { r := Step(s, r, Device(Emit)); }
    r := Step(s, r, HostStep);
    r := Step(s, r, HostStep);
  }

  /** The driver can lose an answer: a read of `a` given up after its second byte leaves its answer to
      the next read, of whatever address. */
  lemma LostAnswer(d: Dev, a: Byte, b: Byte)
    requires Calm(d)
    ensures exists r :: CanReach(Start(d), r) && r.host.Free? && r.lost == 1 && |r.log| == 1
                        && r.log[0].req == Read(b) && r.log[0].reply == d.ram[a]
  {
    hide CanReach;
    var s := Start(d);
    CanReachSelf(s);
    var r := Step(s, s, Begin(Read(a)));
    r := Deliver(s, r);
    r := Step(s, r, HostStep);
    r := Step(s, r, HostStep);
    r := Step(s, r, Timeout);
    r := Step(s, r, Device(Consume));
    r := Step(s, r, Device(Emit));
    assert r.dev == d.(out := Some(d.ram[a])) && r.lost == 1 && r.log == [];
    r := Step(s, r, Begin(Read(b)));
    r := Deliver(s, r);
    r := Deliver(s, r);
    r := Step(s, r, HostStep);
    r := Step(s, r, HostStep);
  }

  // ----- one call -----

  /** `b` pays the debt `due`, the events `q` having been queued. */
  predicate Repays(due: Due, q: seq<EventByte>, b: Byte)
  {
    if due.Fixed? then b == due.b else (q != [] ==> b == q[0]) && (b == 0 ==> q == [])
  }

  /** `f` is the system before the last access of a call that began in `a`. */
  ghost predicate CallFrom(a: System, f: System)
  {
    && a.host.Free? && f.host.Busy? && f.host.ready && f.host.sent == |Bytes(f.host.req)|
    && f.host.waiting == a.dev.queue && f.host.behind == |Owed(a.dev)| && f.host.begun == |AnswersOf(a)|
    && f.sent == a.sent + [f.host.req] && f.taken == a.taken && AnswersOf(a) <= AnswersOf(f)
  }

  /** A call begun while answers are owed reads the oldest of them. */
  lemma OldestRead(a: System, f: System, o: Origin)
    requires Sound(a, o) && Sound(f, o) && CallFrom(a, f) && !f.host.req.Write? && Owed(a.dev) != []
    ensures f.dev.out.Some? && Repays(Owed(a.dev)[0], a.dev.queue, f.dev.out.value)
  {
    hide MemAfter, Dues, AllLegal, Memory, Events, Asks, Progress, Pending;
    var asks, k := Asks(o, f.sent), |a.taken|;
    var b := f.dev.out.value;
    assert AnswersOf(f)[k] == b;
    if InFlight(a.dev) != [] {
      assert AnswersOf(a)[k] == InFlight(a.dev)[0];
    } else {
      assert AnswersOf(a) == a.taken;
      AsksGrow(o, a.sent, f.host.req);
      assert asks[k] == Asks(o, a.sent)[k..][0] == Owed(a.dev)[0];
      if asks[k].Oldest? {
        NoEventsPast(asks, AnswersOf(f)[..k]);
        if b != 0 { EventsHead(asks, AnswersOf(f), k); }
      }
    }
  }

  /** The debt and the memory after a call, by whether its last byte went out and an answer was read. */
  lemma DebtAfter(a: System, b: System, o: Origin)
    requires Sound(a, o) && Sound(b, o)
    ensures b.sent == a.sent ==>
              Memory(b.dev) == Memory(a.dev) && |Owed(b.dev)| + |b.taken| == |Owed(a.dev)| + |a.taken|
    ensures |b.sent| == |a.sent| + 1 && a.sent <= b.sent ==>
              var req := b.sent[|a.sent|];
              && Memory(b.dev) == RamThen(Memory(a.dev), req)
              && |Owed(b.dev)| + |b.taken| == |Owed(a.dev)| + |a.taken| + |DueOf(Memory(a.dev), req)|
              && (req.Read? && Owed(b.dev) != [] ==> Owed(b.dev)[|Owed(b.dev)| - 1] == Fixed(Memory(a.dev)[req.addr]))
  {
    hide MemAfter, Dues, AllLegal, Memory, Events, Asks, Midway, Owed, InFlight, Pending;
    OwedNow(a, o);
    OwedNow(b, o);
    if |b.sent| == |a.sent| + 1 && a.sent <= b.sent {
      assert b.sent == a.sent + [b.sent[|a.sent|]];
      AsksGrow(o, a.sent, b.sent[|a.sent|]);
    }
  }

  // ----- the driver -----

  const EC_CMD_PORT: nat := 0x66
  const EC_DATA_PORT: nat := 0x62
  const DELAY_PORT: nat := 0x80
  const EC_OBF: Byte := 0x01
  const EC_IBF: Byte := 0x02

  /** The status register; the bits above OBF and IBF are whatever the controller likes. */
  function StatusByte(d: Dev, noise: Byte): (b: Byte)
  {
    4 * (noise / 4) + (if d.input.Some? then 2 else 0) + if d.out.Some? then 1 else 0
  }

  lemma StatusBits(d: Dev, noise: Byte)
    ensures And(StatusByte(d, noise), EC_OBF) == EC_OBF <==> d.out.Some?
    ensures And(StatusByte(d, noise), EC_OBF) == 0 <==> d.out.None?
    ensures And(StatusByte(d, noise), EC_IBF) == 0 <==> d.input.None?
  {
    var x := StatusByte(d, noise);
    LowBits(x, 1, 1, 2) by { Pow2Values(); assert Mask(1) == 1; }
    LowBits(x / 2, 1, 1, 2) by { Pow2Values(); assert Mask(1) == 1; }
    assert And(x, 2) == 2 * And(x / 2, 1);
  }

  function PortRead(d: Dev, port: nat, noise: Byte): (b: Byte)
  {
    if port == EC_CMD_PORT then StatusByte(d, noise)
    else if port == EC_DATA_PORT && d.out.Some? then d.out.value
    else noise
  }

  function AfterRead(d: Dev, port: nat): (r: Dev) { if port == EC_DATA_PORT then d.(out := None) else d }

  lemma OrZero(x: nat)
    ensures Or(0, x) == x && Or(x, 0) == x
  {
    forall k: nat ensures Bit(Or(0, x), k) == Bit(x, k) { BitOr(0, x, k); BitZero(k); }
    BitsDetermine(Or(0, x), x);
    forall k: nat ensures Bit(Or(x, 0), k) == Bit(x, k) { BitOr(x, 0, k); BitZero(k); }
    BitsDetermine(Or(x, 0), x);
  }

  lemma OrAssoc(a: nat, b: nat, c: nat)
    ensures Or(Or(a, b), c) == Or(a, Or(b, c))
  {
    hide Or;
    forall k: nat ensures Bit(Or(Or(a, b), c), k) == Bit(Or(a, Or(b, c)), k) {
      BitOr(Or(a, b), c, k);
      BitOr(a, b, k);
      BitOr(a, Or(b, c), k);
      BitOr(b, c, k);
    }
    BitsDetermine(Or(Or(a, b), c), Or(a, Or(b, c)));
  }

  lemma AssembleStep(ram: Ram, address: nat, i: nat, n: nat, r: nat)
    requires i < n
    ensures Or(Or(r, Shl(ram[(address + i) % 256], 8 * i)), EcAssemble(ram, address, i + 1, n)) ==
            Or(r, EcAssemble(ram, address, i, n))
  {
    hide Or, Shl;
    OrAssoc(r, Shl(ram[(address + i) % 256], 8 * i), EcAssemble(ram, address, i + 1, n));
  }

  lemma AssembleEnd(ram: Ram, address: nat, n: nat, r: nat)
    ensures Or(r, EcAssemble(ram, address, n, n)) == r
  {
    OrZero(r);
  }

  /** Time passes: the controller goes on by itself. */
  ghost predicate Idled(a: System, b: System)
  {
    && CanReach(a, b) && AnswersOf(a) <= AnswersOf(b) && b == a.(dev := b.dev, arrived := b.arrived)
    && (a.dev.input.None? ==> b.dev.input.None?) && (a.dev.out.Some? ==> b.dev.out == a.dev.out)
    && (a.dev.phase == Idle && a.dev.input.None? ==>
          b.dev.phase == Idle && b.dev.out == a.dev.out && b.dev.ram == a.dev.ram && a.dev.queue <= b.dev.queue)
  }

  lemma IdledSelf(s: System)
    ensures Idled(s, s)
  {
    CanReachSelf(s);
  }

  lemma IdledStep(a: System, s: System, m: Move, o: Origin)
    requires Idled(a, s) && Sound(s, o)
    ensures var n := Next(s, Device(m)); Idled(a, n) && Sound(n, o)
  {
    hide Sound, CanReach, AnswersOf;
    var n := Step(a, s, Device(m));
    SoundKept(s, Device(m), o);
    AnswersPrefix(a, s, n);
  }

  lemma AnswersPrefix(a: System, b: System, c: System)
    requires AnswersOf(a) <= AnswersOf(b) <= AnswersOf(c)
    ensures AnswersOf(a) <= AnswersOf(c)
  {
  }

  lemma IdledTrans(a: System, b: System, c: System)
    requires Idled(a, b) && Idled(b, c)
    ensures Idled(a, c)
  {
    hide CanReach;
    CanReachTrans(a, b, c);
  }

  /** The call goes on: more of the system's steps, the call still under way or given up. */
  ghost predicate Onward(a: System, b: System) { CanReach(a, b) && AnswersOf(a) <= AnswersOf(b) }

  lemma OnwardStep(a: System, b: System, l: Label, o: Origin)
    requires Onward(a, b) && Sound(b, o)
    ensures Onward(a, Next(b, l)) && Sound(Next(b, l), o)
  {
    hide Sound, CanReach;
    var n := Step(a, b, l);
    SoundKept(b, l, o);
  }

  lemma OnwardTrans(a: System, b: System, c: System)
    requires Onward(a, b) && Onward(b, c)
    ensures Onward(a, c)
  {
    hide CanReach;
    CanReachTrans(a, b, c);
  }

  /** The status test an access waits for. */
  predicate Awaits(h: HostState, mask: Byte, want: Byte)
  {
    && h.Busy? && !h.ready && h.sent <= |Bytes(h.req)|
    && if h.sent < |Bytes(h.req)| || h.req.Write? then mask == EC_IBF && want == 0 else mask == EC_OBF && want == EC_OBF
  }

  lemma ReadyOut(s: System, o: Origin)
    requires Sound(s, o) && s.host.Busy? && s.host.ready && !s.host.req.Write? && s.host.sent == |Bytes(s.host.req)|
    ensures s.dev.out.Some?
  {
  }

  lemma BeginCall(s: System, req: Request, o: Origin)
    requires Sound(s, o) && s.host.Free?
    ensures var n := Next(s, Begin(req));
            && Sound(n, o) && Onward(s, n) && n.dev == s.dev && n.sent == s.sent && n.taken == s.taken && n.log == s.log
            && n.host == Busy(req, 0, false, s.dev.queue, |Owed(s.dev)|, |AnswersOf(s)|)
  {
    hide Sound, CanReach;
    CanReachSelf(s);
    OnwardStep(s, s, Begin(req), o);
  }

  lemma CalmMemory(d: Dev)
    ensures Calm(d) ==> Memory(d) == d.ram
  {
  }

  /** The memory and the debt once a read's last byte is out. */
  lemma ReadDebt(a: System, b: System, o: Origin, addr: Byte)
    requires Sound(a, o) && Sound(b, o) && b.sent == a.sent + [Read(addr)]
    ensures Memory(b.dev) == Memory(a.dev) && |Owed(b.dev)| + |b.taken| == |Owed(a.dev)| + |a.taken| + 1
    ensures Owed(b.dev) != [] ==> Owed(b.dev)[|Owed(b.dev)| - 1] == Fixed(Memory(b.dev)[addr])
  {
    hide Sound, Owed, Memory;
    DebtAfter(a, b, o);
  }

  lemma WriteDebt(a: System, b: System, o: Origin, addr: Byte, val: Byte)
    requires Sound(a, o) && Sound(b, o) && b.sent == a.sent + [Write(addr, val)] && b.taken == a.taken
    ensures Memory(b.dev) == Memory(a.dev)[addr as nat := val] && |Owed(b.dev)| == |Owed(a.dev)|
  {
    hide Sound, Owed, Memory;
    DebtAfter(a, b, o);
  }

  lemma QueryDebt(a: System, b: System, o: Origin)
    requires Sound(a, o) && Sound(b, o) && b.sent == a.sent + [Query]
    ensures Memory(b.dev) == Memory(a.dev) && |Owed(b.dev)| + |b.taken| == |Owed(a.dev)| + |a.taken| + 1
  {
    hide Sound, Owed, Memory;
    DebtAfter(a, b, o);
  }

  /** What a read or a query brings. */
  lemma AskEnds(a: System, f: System, o: Origin)
    requires Sound(a, o) && Sound(f, o) && CallFrom(a, f) && !f.host.req.Write? && f.dev.out.Some?
    ensures var val := f.dev.out.value;
            var d := Finishing(f).dev;
            if Owed(a.dev) == [] then
              && Calm(d)
              && (f.host.req.Read? ==> val == d.ram[f.host.req.addr] && a.dev.queue <= d.queue)
              && (f.host.req.Query? ==> Popped(a.dev.queue, val, d.queue))
            else Repays(Owed(a.dev)[0], a.dev.queue, val)
  {
    hide Sound, Owed, MemAfter, Popped, Repays;
    if Owed(a.dev) == [] {
      FinishRight(f, o);
      SoundMeans(f, o);
      FinishMemory(f);
    } else {
      OldestRead(a, f, o);
    }
  }

  lemma FinishMemory(f: System)
    requires f.host.Busy? && Calm(Finishing(f).dev)
    ensures Memory(f.dev) == Finishing(f).dev.ram && f.dev.queue == Finishing(f).dev.queue
  {
  }

  /** What a write leaves once the controller has taken in its last byte. */
  lemma WriteEnds(a: System, f: System, o: Origin)
    requires Sound(a, o) && Sound(f, o) && CallFrom(a, f) && f.host.req.Write?
    ensures var d := Finishing(f).dev;
            d.ram == Memory(d) && (Owed(a.dev) == [] ==> Calm(d) && a.dev.queue <= d.queue)
  {
    hide Owed, MemAfter, Asks, Events, AllLegal, InOrder;
    if Owed(a.dev) == [] { FinishRight(f, o); }
  }

  class Host {
    var dev: Dev
    var present: bool
    var inited: bool
    ghost var sys: System
    ghost var origin: Origin

    ghost predicate Live() reads this { sys.dev == dev && Sound(sys, origin) }
    ghost predicate Valid() reads this { Live() && sys.host.Free? }

    constructor (d: Dev)
      ensures Valid() && dev == d && !present && !inited && sys == Start(d) && origin == OriginOf(d)
    {
      dev, present, inited, sys, origin := d, false, false, Start(d), OriginOf(d);
      SoundStart(d);
    }

    /** The time before a port access: the controller takes any number of steps. */
    method Drift()
      requires Live()
      modifies this`dev, this`sys
      ensures Live() && Idled(old(sys), sys)
    {
      hide Sound, Idled;
      IdledSelf(sys);
      var n: int := *;
      while n > 0
        invariant Live() && Idled(old(sys), sys)
      {
        var m: Move := *;
        IdledStep(old(sys), sys, m, origin);
        dev, sys := Advance(dev, m), Next(sys, Device(m));
        n := n - 1;
      }
    }

    /** A port read. What reading the data port does to the system is the caller's step. */
    method Inb(port: nat) returns (b: Byte, ghost noise: Byte)
      requires Live()
      modifies this`dev, this`sys
      ensures Sound(sys, origin) && Idled(old(sys), sys)
      ensures b == PortRead(sys.dev, port, noise) && dev == AfterRead(sys.dev, port)
    {
      Drift();
      var x: Byte := *;
      noise := x;
      b := PortRead(dev, port, x);
      dev := AfterRead(dev, port);
    }

    method Outb(port: nat, b: Byte)
      requires Live()
      modifies this`dev, this`sys
      ensures Sound(sys, origin) && Idled(old(sys), sys)
      ensures dev == if port == EC_CMD_PORT then Send(sys.dev, Command(b))
              else if port == EC_DATA_PORT then Send(sys.dev, Data(b)) else sys.dev
    {
      Drift();
      if port == EC_CMD_PORT { dev := Send(dev, Command(b)); }
      else if port == EC_DATA_PORT { dev := Send(dev, Data(b)); }
    }

    /** Poll the status until the masked bits are as wanted; `polls` is how many more reads the
        deadline allows. */
    method EcWait(mask: Byte, want: Byte) returns (ok: bool)
      requires Live() && Awaits(sys.host, mask, want)
      modifies this`dev, this`sys
      ensures Live() && Onward(old(sys), sys)
      ensures ok ==> sys == old(sys).(dev := dev, arrived := sys.arrived, host := old(sys).host.(ready := true))
      ensures !ok ==>
                var lost := old(sys).lost + Mine(old(sys).host);
                sys == old(sys).(dev := dev, arrived := sys.arrived, host := Free, lost := lost)
    {
      hide Sound, CanReach, AnswersOf, StatusByte, Mine;
      var polls: int := *;
      var s: Byte;
      ghost var noise;
      s, noise := Inb(EC_CMD_PORT);
      while And(s, mask) != want
        invariant Live() && Idled(old(sys), sys) && s == StatusByte(dev, noise)
        decreases polls
      {
        if polls <= 0 {
          StatusBits(dev, noise);
          OnwardStep(old(sys), sys, Timeout, origin);
          sys := Next(sys, Timeout);
          return false;
        }
        polls := polls - 1;
        ghost var before := sys;
        s, noise := Inb(DELAY_PORT);
        IdledTrans(old(sys), before, sys);
        before := sys;
        s, noise := Inb(EC_CMD_PORT);
        IdledTrans(old(sys), before, sys);
      }
      StatusBits(dev, noise);
      OnwardStep(old(sys), sys, HostStep, origin);
      sys := Next(sys, HostStep);
      ok := true;
    }

    /** One wait for IBF to clear and the byte after it. */
    method SendByte(port: nat, b: Byte) returns (ok: bool)
      requires Live() && sys.host.Busy? && !sys.host.ready && sys.host.sent < |Bytes(sys.host.req)|
      requires (port == EC_CMD_PORT && Bytes(sys.host.req)[sys.host.sent] == Command(b)) ||
               (port == EC_DATA_PORT && Bytes(sys.host.req)[sys.host.sent] == Data(b))
      modifies this`dev, this`sys
      ensures Live() && Onward(old(sys), sys) && sys.taken == old(sys).taken && sys.log == old(sys).log
      ensures var h := old(sys).host;
              if ok then
                && sys.host == h.(sent := h.sent + 1)
                && sys.sent == if h.sent + 1 == |Bytes(h.req)| then old(sys).sent + [h.req] else old(sys).sent
              else sys.host.Free? && sys.sent == old(sys).sent
    {
      hide Sound, CanReach, AnswersOf, Mine, Bytes;
      ghost var s0 := sys;
      ok := EcWait(EC_IBF, 0);
      if !ok { return; }
      ghost var s1 := sys;
      Outb(port, b);
      OnwardTrans(s0, s1, sys);
      OnwardStep(s0, sys, HostStep, origin);
      sys := Next(sys, HostStep);
    }

    /** The wait for OBF and the read of the answer that end a read or a query. */
    method TakeByte() returns (ok: bool, val: Byte, ghost f: System)
      requires Live() && sys.host.Busy? && !sys.host.ready && !sys.host.req.Write?
      requires sys.host.sent == |Bytes(sys.host.req)|
      modifies this`dev, this`sys
      ensures Live() && Onward(old(sys), sys) && sys.host.Free? && sys.sent == old(sys).sent
      ensures !ok ==> sys.taken == old(sys).taken && sys.log == old(sys).log
      ensures ok ==>
                && Sound(f, origin) && Onward(old(sys), f) && f.host == old(sys).host.(ready := true)
                && f.sent == old(sys).sent && f.taken == old(sys).taken && f.log == old(sys).log
                && f.dev.out == Some(val) && sys == Finishing(f)
    {
      hide Sound, CanReach, AnswersOf, Mine, Bytes;
      ghost var s0 := sys;
      val := 0;
      ok := EcWait(EC_OBF, EC_OBF);
      f := sys;
      if !ok { return; }
      assert sys.dev.out.Some? by { ReadyOut(sys, origin); }
      ghost var noise;
      val, noise := Inb(EC_DATA_PORT);
      OnwardTrans(s0, f, sys);
      f := sys;
      OnwardStep(s0, sys, HostStep, origin);
      sys := Next(sys, HostStep);
    }

    method EcReadByte(addr: Byte) returns (ok: bool, val: Byte, ghost sent: nat)
      requires Valid()
      modifies this`dev, this`sys
      ensures Valid() && CanReach(old(sys), sys)
      ensures !present ==> !ok && sent == 0 && dev == old(dev)
      ensures Memory(dev) == Memory(old(dev))
      ensures ok && Owed(old(dev)) == [] ==> Calm(dev) && val == dev.ram[addr] && old(dev).queue <= dev.queue
      ensures ok && Owed(old(dev)) != [] ==> Repays(Owed(old(dev))[0], old(dev).queue, val)
      ensures |Owed(dev)| == |Owed(old(dev))| + if !ok && sent == 2 then 1 else 0
      ensures sent == 2 && Owed(dev) != [] ==> Owed(dev)[|Owed(dev)| - 1] == Fixed(Memory(dev)[addr])
      ensures ok ==> sent == 2 && |sys.log| == |old(sys).log| + 1
      ensures ok ==> sys.log[|old(sys).log|].req == Read(addr) && sys.log[|old(sys).log|].reply == val
      ensures !ok ==> sys.log == old(sys).log
    {
      hide Sound, CanReach, AnswersOf, Owed, Memory, Repays, Mine, Calm, RamThen, DueOf;
      ok, val, sent := false, 0, 0;
      CanReachSelf(sys);
      if !present { return; }
      ghost var a := sys;
      BeginCall(sys, Read(addr), origin);
      sys := Next(sys, Begin(Read(addr)));
      ghost var s := sys;
      ok := SendByte(EC_CMD_PORT, CMD_READ);
      OnwardTrans(a, s, sys);
      if !ok { DebtAfter(a, sys, origin); return; }
      sent, s := 1, sys;
      ok := SendByte(EC_DATA_PORT, addr);
      OnwardTrans(a, s, sys);
      if !ok { DebtAfter(a, sys, origin); return; }
      sent, s := 2, sys;
      ghost var f;
      ok, val, f := TakeByte();
      OnwardTrans(a, s, sys);
      ReadDebt(a, sys, origin, addr);
      if ok {
        OnwardTrans(a, s, f);
        AskEnds(a, f, origin);
      }
    }

    method EcWriteByte(addr: Byte, val: Byte) returns (ok: bool, ghost sent: nat)
      requires Valid()
      modifies this`dev, this`sys
      ensures Valid() && CanReach(old(sys), sys)
      ensures !present ==> !ok && sent == 0 && dev == old(dev)
      ensures Memory(dev) == if sent == 3 then Memory(old(dev))[addr as nat := val] else Memory(old(dev))
      ensures ok && Owed(old(dev)) == [] ==> Calm(dev) && old(dev).queue <= dev.queue
      ensures ok ==> sent == 3 && dev.ram == Memory(dev)
      ensures |Owed(dev)| == |Owed(old(dev))|
      ensures ok ==> |sys.log| == |old(sys).log| + 1 && sys.log[|old(sys).log|].req == Write(addr, val)
      ensures !ok ==> sys.log == old(sys).log
    {
      hide Sound, CanReach, AnswersOf, Owed, Memory, Mine, Calm, RamThen, DueOf;
      ok, sent := false, 0;
      CanReachSelf(sys);
      if !present { return; }
      ghost var a := sys;
      BeginCall(sys, Write(addr, val), origin);
      sys := Next(sys, Begin(Write(addr, val)));
      ghost var s := sys;
      ok := SendByte(EC_CMD_PORT, CMD_WRITE);
      OnwardTrans(a, s, sys);
      if !ok { DebtAfter(a, sys, origin); return; }
      sent, s := 1, sys;
      ok := SendByte(EC_DATA_PORT, addr);
      OnwardTrans(a, s, sys);
      if !ok { DebtAfter(a, sys, origin); return; }
      sent, s := 2, sys;
      ok := SendByte(EC_DATA_PORT, val);
      OnwardTrans(a, s, sys);
      if !ok { DebtAfter(a, sys, origin); return; }
      sent, s := 3, sys;
      ok := EcWait(EC_IBF, 0);
      OnwardTrans(a, s, sys);
      if ok {
        WriteEnds(a, sys, origin);
        OnwardStep(a, sys, HostStep, origin);
        sys := Next(sys, HostStep);
      }
      WriteDebt(a, sys, origin, addr, val);
    }

    method EcReadQueryByte() returns (ok: bool, val: Byte, ghost sent: nat)
      requires Valid()
      modifies this`dev, this`sys
      ensures Valid() && CanReach(old(sys), sys)
      ensures !present ==> !ok && sent == 0 && dev == old(dev)
      ensures Memory(dev) == Memory(old(dev))
      ensures ok && Owed(old(dev)) == [] ==> Calm(dev) && Popped(old(dev).queue, val, dev.queue)
      ensures ok && Owed(old(dev)) != [] ==> Repays(Owed(old(dev))[0], old(dev).queue, val)
      ensures |Owed(dev)| == |Owed(old(dev))| + if !ok && sent == 1 then 1 else 0
      ensures ok ==> sent == 1 && |sys.log| == |old(sys).log| + 1
      ensures ok ==> sys.log[|old(sys).log|].req == Query && sys.log[|old(sys).log|].reply == val
      ensures !ok ==> sys.log == old(sys).log
    {
      hide Sound, CanReach, AnswersOf, Owed, Memory, Repays, Mine, Calm, Popped, RamThen, DueOf;
      ok, val, sent := false, 0, 0;
      CanReachSelf(sys);
      if !present { return; }
      ghost var a := sys;
      BeginCall(sys, Query, origin);
      sys := Next(sys, Begin(Query));
      ghost var s := sys;
      ok := SendByte(EC_CMD_PORT, CMD_QUERY);
      OnwardTrans(a, s, sys);
      if !ok { DebtAfter(a, sys, origin); return; }
      sent, s := 1, sys;
      ghost var f;
      ok, val, f := TakeByte();
      OnwardTrans(a, s, sys);
      QueryDebt(a, sys, origin);
      if ok {
        OnwardTrans(a, s, f);
        AskEnds(a, f, origin);
      }
    }

    /** Byte transactions for one EmbeddedControl access, little-endian. */
    method EcRegionHandler(write: bool, address: U64, widthBits: nat, value: U64) returns (ok: bool, r: nat)
      requires Valid() && widthBits < 0x1_0000_0000
      modifies this`dev, this`sys
      ensures Valid() && CanReach(old(sys), sys)
      ensures var n := (widthBits + 7) % 0x1_0000_0000 / 8;
              var w := World([], [], Memory(old(dev)), present);
              && (!EcRange(w, address, n) ==> !ok && dev == old(dev))
              && (ok && Owed(old(dev)) == [] && write ==> Calm(dev) && dev.ram == EcScatter(w.ec, address, 0, n, value))
              && (ok && Owed(old(dev)) == [] && !write ==>
                    Calm(dev) && dev.ram == w.ec && r == EcAssemble(dev.ram, address, 0, n))
      ensures !write ==> Memory(dev) == Memory(old(dev))
      ensures write || ok ==> |Owed(dev)| == |Owed(old(dev))|
    {
      hide Sound, CanReach, Owed, Memory;
      CanReachSelf(sys);
      ok, r := false, 0;
      if !present { return; }
      var n := (widthBits + 7) % 0x1_0000_0000 / 8;
      if n == 0 || n > 8 || (address + n) % TWO64 > 0x100 { return; }
      if write {
        ok := WriteBytes(address, n, value);
      } else {
        ok, r := ReadBytes(address, n);
      }
    }

    method WriteBytes(address: U64, n: nat, value: U64) returns (ok: bool)
      requires Valid() && n > 0
      modifies this`dev, this`sys
      ensures Valid() && CanReach(old(sys), sys) && |Owed(dev)| == |Owed(old(dev))|
      ensures ok ==> dev.ram == EcScatter(Memory(old(dev)), address, 0, n, value)
      ensures ok && Owed(old(dev)) == [] ==> Calm(dev)
    {
      hide And, Shr, Sound, CanReach, Owed, Memory, Calm, Popped;
      CanReachSelf(sys);
      for i := 0 to n
        invariant Valid() && CanReach(old(sys), sys) && |Owed(dev)| == |Owed(old(dev))|
        invariant EcScatter(Memory(dev), address, i, n, value) == EcScatter(Memory(old(dev)), address, 0, n, value)
        invariant i > 0 ==> dev.ram == Memory(dev) && (Owed(old(dev)) == [] ==> Calm(dev))
      {
        ghost var before := sys;
        ghost var sent;
        ok, sent := EcWriteByte((address + i) % 256, And(Shr(value, 8 * i), 0xFF) % 256);
        CanReachTrans(old(sys), before, sys);
        if !ok { return; }
      }
      ok := true;
    }

    method ReadBytes(address: U64, n: nat) returns (ok: bool, r: nat)
      requires Valid() && n > 0
      modifies this`dev, this`sys
      ensures Valid() && CanReach(old(sys), sys) && Memory(dev) == Memory(old(dev))
      ensures ok ==> |Owed(dev)| == |Owed(old(dev))|
      ensures ok && Owed(old(dev)) == [] ==>
                Calm(dev) && dev.ram == Memory(dev) && r == EcAssemble(dev.ram, address, 0, n)
    {
      hide Or, Shl, EcAssemble, Sound, CanReach, Owed, Memory, Calm, Repays;
      CanReachSelf(sys);
      r := 0;
      OrZero(EcAssemble(Memory(dev), address, 0, n));
      for i := 0 to n
        invariant Valid() && CanReach(old(sys), sys) && Memory(dev) == Memory(old(dev))
        invariant |Owed(dev)| == |Owed(old(dev))|
        invariant Owed(old(dev)) == [] ==>
                    Or(r, EcAssemble(Memory(dev), address, i, n)) == EcAssemble(Memory(dev), address, 0, n)
        invariant i > 0 && Owed(old(dev)) == [] ==> Calm(dev) && dev.ram == Memory(dev)
      {
        ghost var before := sys;
        var b;
        ghost var sent;
        ok, b, sent := EcReadByte((address + i) % 256);
        CanReachTrans(old(sys), before, sys);
        if !ok { return; }
        CalmMemory(dev);
        AssembleStep(Memory(dev), address, i, n, r);
        r := Or(r, Shl(b, 8 * i));
      }
      ok := true;
      AssembleEnd(Memory(dev), address, n, r);
    }

    /** Once only: look for an EmbeddedControl region and, if there is one, read a stale answer away. */
    method AcpiEcInit(hasRegion: bool)
      requires Valid()
      modifies this`dev, this`sys, this`present, this`inited
      ensures Valid() && CanReach(old(sys), sys)
      ensures old(inited) ==> dev == old(dev) && present == old(present) && inited
      ensures !old(inited) ==> inited && present == hasRegion
      ensures Memory(dev) == Memory(old(dev)) && |Owed(dev)| <= |Owed(old(dev))| <= |Owed(dev)| + 1
      ensures !old(inited) && present && (Calm(old(dev)) || Stale(old(dev))) ==>
                Calm(dev) && dev.ram == old(dev).ram && old(dev).queue <= dev.queue
    {
      hide Sound, CanReach, AnswersOf, Owed, Memory;
      CanReachSelf(sys);
      if inited { return; }
      inited := true;
      present := hasRegion;
      if present {
        ghost var a := sys;
        var s;
        ghost var noise;
        s, noise := Inb(EC_CMD_PORT);
        StatusBits(dev, noise);
        if And(s, EC_OBF) != 0 {
          ghost var before := sys;
          s, noise := Inb(EC_DATA_PORT);
          OnwardTrans(a, before, sys);
          OnwardStep(a, sys, Drain, origin);
          sys := Next(sys, Drain);
        }
        DebtAfter(a, sys, origin);
      }
    }
  }
}
