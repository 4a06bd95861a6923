/** The AXI-Lite protocol monitor of the test bench: it logs what the bus does, and what it
    does wrong. */
module AxiMonitor {
  import opened Words

  datatype Channel = AR | R | AW | W | B

  /** Address and protection, data and strobes, or data and response. */
  datatype Payload = Payload(value: int, extra: int)

  datatype Handshake = Handshake(valid: bool, ready: bool, payload: Payload)

  /** The signals sampled at one rising edge. */
  datatype Signals = Signals(reset: bool, ar: Handshake, r: Handshake, aw: Handshake, w: Handshake, b: Handshake)

  datatype Message =
    | ValidDropped | PayloadChanged
    | SecondRead | UnexpectedRead
    | SecondAddress | SecondData | UnexpectedResponse

  datatype Event =
    | Violation(cycle: nat, message: Message, channel: Channel)
    | Stall(cycle: nat, channel: Channel, payload: Payload)
    | ReadAddr(cycle: nat, payload: Payload, outstanding: nat)
    | ReadData(cycle: nat, payload: Payload, outstanding: nat)
    | WriteAddr(cycle: nat, payload: Payload)
    | WriteData(cycle: nat, payload: Payload)
    | WriteResp(cycle: nat, payload: Payload, waiting: bool)

  function Violations(events: seq<Event>): seq<Event> {
    if events == [] then []
    else (if events[0].Violation? then [events[0]] else []) + Violations(events[1..])
  }

  predicate Fired(h: Handshake) {
    h.valid && h.ready
  }

  function On(s: Signals, c: Channel): Handshake {
    match c
    case AR => s.ar
    case R => s.r
    case AW => s.aw
    case W => s.w
    case B => s.b
  }

  // ---------------------------------------------------------------- the rule

  /** The handshakes of a channel since the last reset, up to but not including edge t. */
  function Accepted(h: seq<Signals>, c: Channel, t: nat): nat
    requires t <= |h|
  {
    if t == 0 || h[t - 1].reset then 0
    else Accepted(h, c, t - 1) + Count(On(h[t - 1], c))
  }

  function Count(h: Handshake): nat {
    if Fired(h) then 1 else 0
  }

  /** Section A3.2.1 of ARM IHI 0022E: VALID and the payload hold until READY. */
  predicate Held(h: seq<Signals>, c: Channel, t: nat)
    requires t < |h|
  {
    t > 0 && !h[t - 1].reset && On(h[t - 1], c).valid && !On(h[t - 1], c).ready ==>
      On(h[t], c).valid && On(h[t], c).payload == On(h[t - 1], c).payload
  }

  /** The accepted read addresses exceed the accepted read data by 0 or 1, address first. */
  predicate ReadsInOrder(h: seq<Signals>, t: nat)
    requires t < |h|
  {
    var open := Accepted(h, AR, t) + Count(h[t].ar) - Accepted(h, R, t);
    0 <= open <= 1 && 0 <= open - Count(h[t].r)
  }

  /** Each response follows exactly one address and one data since the one before it. */
  predicate WritesInOrder(h: seq<Signals>, t: nat)
    requires t < |h|
  {
    var addresses := Accepted(h, AW, t) + Count(h[t].aw) - Accepted(h, B, t);
    var data := Accepted(h, W, t) + Count(h[t].w) - Accepted(h, B, t);
    0 <= addresses <= 1 && 0 <= data <= 1 && (Fired(h[t].b) ==> addresses == 1 && data == 1)
  }

  predicate CleanAt(h: seq<Signals>, t: nat)
    requires t < |h|
  {
    h[t].reset || (Held(h, AR, t) && Held(h, AW, t) && Held(h, W, t) && ReadsInOrder(h, t) && WritesInOrder(h, t))
  }

  ghost predicate CleanBus(h: seq<Signals>) {
    forall t :: 0 <= t < |h| ==> CleanAt(h, t)
  }

  // ---------------------------------------------------------------- what the monitor computes

  datatype Monitor = Monitor(ar: Option<Payload>, aw: Option<Payload>, w: Option<Payload>,
                             pending: nat, awSeen: bool, wSeen: bool, bWaiting: bool)

  const IDLE := Monitor(None, None, None, 0, false, false, false)

  /** The payload that is waiting for READY after this edge. */
  function Hold(h: Handshake): Option<Payload> {
    if h.valid && !h.ready then Some(h.payload) else None
  }

  function HoldEvents(cycle: nat, c: Channel, hold: Option<Payload>, h: Handshake): seq<Event> {
    (if hold.Some? && !h.valid then [Violation(cycle, ValidDropped, c)]
     else if hold.Some? && h.payload != hold.value then [Violation(cycle, PayloadChanged, c)]
     else [])
    + (if h.valid && !h.ready && hold.None? then [Stall(cycle, c, h.payload)] else [])
  }

  function ReadEvents(cycle: nat, pending: nat, s: Signals): seq<Event> {
    var inFlight := pending + Count(s.ar);
    (if Fired(s.ar) then [ReadAddr(cycle, s.ar.payload, inFlight)] +
        (if inFlight > 1 then [Violation(cycle, SecondRead, AR)] else []) else [])
    + (if Fired(s.r) then [ReadData(cycle, s.r.payload, inFlight)] +
        (if inFlight == 0 then [Violation(cycle, UnexpectedRead, R)] else []) else [])
  }

  function ReadsAfter(pending: nat, s: Signals): nat {
    var inFlight := pending + Count(s.ar);
    if Fired(s.r) && inFlight > 0 then inFlight - 1 else inFlight
  }

  function WriteEvents(cycle: nat, m: Monitor, s: Signals): seq<Event> {
    var waiting := m.bWaiting || ((m.awSeen || Fired(s.aw)) && (m.wSeen || Fired(s.w)));
    (if Fired(s.aw) then [WriteAddr(cycle, s.aw.payload)] +
        (if m.awSeen || m.bWaiting then [Violation(cycle, SecondAddress, AW)] else []) else [])
    + (if Fired(s.w) then [WriteData(cycle, s.w.payload)] +
        (if m.wSeen || m.bWaiting then [Violation(cycle, SecondData, W)] else []) else [])
    + (if Fired(s.b) then [WriteResp(cycle, s.b.payload, waiting)] +
        (if !waiting then [Violation(cycle, UnexpectedResponse, B)] else []) else [])
  }

  function CycleEvents(cycle: nat, m: Monitor, s: Signals): seq<Event> {
    if s.reset then []
    else
      HoldEvents(cycle, AR, m.ar, s.ar) + HoldEvents(cycle, AW, m.aw, s.aw) + HoldEvents(cycle, W, m.w, s.w)
      + ReadEvents(cycle, m.pending, s) + WriteEvents(cycle, m, s)
  }

  function After(m: Monitor, s: Signals): Monitor {
    if s.reset then IDLE
    else
      var aw, w := m.awSeen || Fired(s.aw), m.wSeen || Fired(s.w);
      if Fired(s.b) then Monitor(Hold(s.ar), Hold(s.aw), Hold(s.w), ReadsAfter(m.pending, s), false, false, false)
      else Monitor(Hold(s.ar), Hold(s.aw), Hold(s.w), ReadsAfter(m.pending, s), aw, w, m.bWaiting || (aw && w))
  }

  function StateAt(h: seq<Signals>, t: nat): Monitor
    requires t <= |h|
  {
    if t == 0 then IDLE else After(StateAt(h, t - 1), h[t - 1])
  }

  function LogUpTo(h: seq<Signals>, t: nat): seq<Event>
    requires t <= |h|
  {
    if t == 0 then [] else LogUpTo(h, t - 1) + CycleEvents(t - 1, StateAt(h, t - 1), h[t - 1])
  }

  // ---------------------------------------------------------------- the monitor

  method CheckHold(cycle: nat, c: Channel, hold0: Option<Payload>, h: Handshake)
    returns (hold: Option<Payload>, events: seq<Event>)
    ensures hold == Hold(h) && events == HoldEvents(cycle, c, hold0, h)
  {
    hold, events := hold0, [];
    if hold.Some? {
      if !h.valid {
        events := events + [Violation(cycle, ValidDropped, c)];
      } else if h.payload != hold.value {
        events := events + [Violation(cycle, PayloadChanged, c)];
      }
    }
    if h.valid && h.ready {
      hold := None;
    } else if h.valid && !h.ready {
      if hold.None? {
        events := events + [Stall(cycle, c, h.payload)];
      }
      hold := Some(h.payload);
    } else if !h.valid {
      hold := None;
    }
  }

  method CheckReads(cycle: nat, pending0: nat, s: Signals) returns (pending: nat, events: seq<Event>)
    ensures pending == ReadsAfter(pending0, s) && events == ReadEvents(cycle, pending0, s)
  {
    pending, events := pending0, [];
    if s.ar.valid && s.ar.ready {
      pending := pending + 1;
      events := events + [ReadAddr(cycle, s.ar.payload, pending)];
      if pending > 1 {
        events := events + [Violation(cycle, SecondRead, AR)];
      }
    }
    if s.r.valid && s.r.ready {
      events := events + [ReadData(cycle, s.r.payload, pending)];
      if pending == 0 {
        events := events + [Violation(cycle, UnexpectedRead, R)];
      } else {
        pending := pending - 1;
      }
    }
  }

  method CheckWrites(cycle: nat, m: Monitor, s: Signals)
    returns (awSeen: bool, wSeen: bool, bWaiting: bool, events: seq<Event>)
    requires !s.reset
    ensures var n := After(m, s); awSeen == n.awSeen && wSeen == n.wSeen && bWaiting == n.bWaiting
    ensures events == WriteEvents(cycle, m, s)
  {
    awSeen, wSeen, bWaiting := m.awSeen, m.wSeen, m.bWaiting;
    var address: seq<Event>, data: seq<Event>, response: seq<Event> := [], [], [];
    if s.aw.valid && s.aw.ready {
      address := [WriteAddr(cycle, s.aw.payload)];
      if awSeen || bWaiting {
        address := address + [Violation(cycle, SecondAddress, AW)];
      }
      awSeen := true;
    }
    if s.w.valid && s.w.ready {
      data := [WriteData(cycle, s.w.payload)];
      if wSeen || bWaiting {
        data := data + [Violation(cycle, SecondData, W)];
      }
      wSeen := true;
    }
    if awSeen && wSeen {
      bWaiting := true;
    }
    if s.b.valid && s.b.ready {
      response := [WriteResp(cycle, s.b.payload, bWaiting)];
      if !bWaiting {
        response := response + [Violation(cycle, UnexpectedResponse, B)];
      }
      awSeen, wSeen, bWaiting := false, false, false;
    }
    events := address + data + response;
  }

  /** Watch the bus for as many edges as the history has. Nothing is reported exactly when
      the bus kept the rule, and then the counters are the differences that the rule is about. */
  method MonitorProtocol(history: seq<Signals>) returns (events: seq<Event>, m: Monitor)
    ensures events == LogUpTo(history, |history|)
    ensures Violations(events) == [] <==> CleanBus(history)
    ensures Violations(events) == [] ==> Counters(history, |history|, m)
  {
    hide CycleEvents, After, CleanAt, Counters;
    events, m := [], IDLE;
    for cycle := 0 to |history|
      invariant events == LogUpTo(history, cycle) && m == StateAt(history, cycle)
    {
      var s := history[cycle];
      var logged;
      m, logged := WatchCycle(cycle, m, s);
      events := events + logged;
    }
    CleanPrefix(history, |history|);
  }

  method WatchCycle(cycle: nat, m0: Monitor, s: Signals) returns (m: Monitor, events: seq<Event>)
    ensures m == After(m0, s) && events == CycleEvents(cycle, m0, s)
  {
    hide HoldEvents, ReadEvents, WriteEvents, Hold, ReadsAfter;
    if s.reset {
      return IDLE, [];
    }
    var ar, aw, w, pending, awSeen, wSeen, bWaiting, logged;
    ar, events := CheckHold(cycle, AR, m0.ar, s.ar);
    aw, logged := CheckHold(cycle, AW, m0.aw, s.aw);
    events := events + logged;
    w, logged := CheckHold(cycle, W, m0.w, s.w);
    events := events + logged;
    pending, logged := CheckReads(cycle, m0.pending, s);
    events := events + logged;
    awSeen, wSeen, bWaiting, logged := CheckWrites(cycle, m0, s);
    events := events + logged;
    m := Monitor(ar, aw, w, pending, awSeen, wSeen, bWaiting);
  }

  // ---------------------------------------------------------------- the verdict is the rule

  /** The counters of the monitor are the differences that the rule speaks about. */
  predicate Counters(h: seq<Signals>, t: nat, m: Monitor)
    requires t <= |h|
  {
    && m.pending <= 1 && m.pending == Accepted(h, AR, t) - Accepted(h, R, t)
    && (if m.awSeen then 1 else 0) == Accepted(h, AW, t) - Accepted(h, B, t)
    && (if m.wSeen then 1 else 0) == Accepted(h, W, t) - Accepted(h, B, t)
    && m.bWaiting == (m.awSeen && m.wSeen)
  }

  /** What is held is the handshake that waited at the edge before. */
  predicate HoldsAt(h: seq<Signals>, t: nat, m: Monitor)
    requires t <= |h|
  {
    if t == 0 || h[t - 1].reset then m.ar == None && m.aw == None && m.w == None
    else m.ar == Hold(h[t - 1].ar) && m.aw == Hold(h[t - 1].aw) && m.w == Hold(h[t - 1].w)
  }

  lemma {:induction false} ViolationsSplit(a: seq<Event>, b: seq<Event>)
    ensures Violations(a + b) == Violations(a) + Violations(b)
    decreases |a|
  {
    if a == [] {
      assert a + b == b;
    } else {
      assert (a + b)[1..] == a[1..] + b;
      ViolationsSplit(a[1..], b);
    }
  }

  lemma HoldVerdict(h: seq<Signals>, t: nat, c: Channel, hold: Option<Payload>)
    requires t < |h| && hold == if t == 0 || h[t - 1].reset then None else Hold(On(h[t - 1], c))
    ensures Violations(HoldEvents(t, c, hold, On(h[t], c))) == [] <==> Held(h, c, t)
  {
    var events := HoldEvents(t, c, hold, On(h[t], c));
    if hold.Some? && !On(h[t], c).valid {
      assert events == [Violation(t, ValidDropped, c)];
    } else if hold.Some? && On(h[t], c).payload != hold.value {
      assert events == [Violation(t, PayloadChanged, c)];
    } else {
      assert events == [] || (|events| == 1 && events[0].Stall?);
    }
  }

  lemma OneOf(e: Event)
    ensures Violations([e]) == if e.Violation? then [e] else []
  {
  }

  lemma NoneIfBoth(a: seq<Event>, b: seq<Event>)
    ensures Violations(a + b) == [] <==> Violations(a) == [] && Violations(b) == []
  {
    ViolationsSplit(a, b);
  }

  /** A logged handshake, and a violation with it when something is wrong. */
  lemma Report(fired: bool, e: Event, wrong: bool, v: Event)
    requires !e.Violation? && v.Violation?
    ensures Violations(if fired then [e] + (if wrong then [v] else []) else []) == [] <==> !(fired && wrong)
  {
    if fired {
      NoneIfBoth([e], if wrong then [v] else []);
      OneOf(e);
      OneOf(v);
    }
  }

  lemma ReadVerdict(cycle: nat, pending: nat, s: Signals)
    ensures var inFlight := pending + Count(s.ar);
            Violations(ReadEvents(cycle, pending, s)) == [] <==>
                !(Fired(s.ar) && inFlight > 1) && !(Fired(s.r) && inFlight == 0)
  {
    hide Violations;
    var inFlight := pending + Count(s.ar);
    var a := if Fired(s.ar) then [ReadAddr(cycle, s.ar.payload, inFlight)] +
        (if inFlight > 1 then [Violation(cycle, SecondRead, AR)] else []) else [];
    var r := if Fired(s.r) then [ReadData(cycle, s.r.payload, inFlight)] +
        (if inFlight == 0 then [Violation(cycle, UnexpectedRead, R)] else []) else [];
    Report(Fired(s.ar), ReadAddr(cycle, s.ar.payload, inFlight), inFlight > 1, Violation(cycle, SecondRead, AR));
    Report(Fired(s.r), ReadData(cycle, s.r.payload, inFlight), inFlight == 0, Violation(cycle, UnexpectedRead, R));
    NoneIfBoth(a, r);
  }

  lemma WriteVerdict(cycle: nat, m: Monitor, s: Signals)
    ensures var waiting := m.bWaiting || ((m.awSeen || Fired(s.aw)) && (m.wSeen || Fired(s.w)));
            Violations(WriteEvents(cycle, m, s)) == [] <==>
            && !(Fired(s.aw) && (m.awSeen || m.bWaiting))
            && !(Fired(s.w) && (m.wSeen || m.bWaiting))
            && !(Fired(s.b) && !waiting)
  {
    hide Violations;
    var waiting := m.bWaiting || ((m.awSeen || Fired(s.aw)) && (m.wSeen || Fired(s.w)));
    var a := if Fired(s.aw) then [WriteAddr(cycle, s.aw.payload)] +
        (if m.awSeen || m.bWaiting then [Violation(cycle, SecondAddress, AW)] else []) else [];
    var w := if Fired(s.w) then [WriteData(cycle, s.w.payload)] +
        (if m.wSeen || m.bWaiting then [Violation(cycle, SecondData, W)] else []) else [];
    var b := if Fired(s.b) then [WriteResp(cycle, s.b.payload, waiting)] +
        (if !waiting then [Violation(cycle, UnexpectedResponse, B)] else []) else [];
    Report(Fired(s.aw), WriteAddr(cycle, s.aw.payload), m.awSeen || m.bWaiting, Violation(cycle, SecondAddress, AW));
    Report(Fired(s.w), WriteData(cycle, s.w.payload), m.wSeen || m.bWaiting, Violation(cycle, SecondData, W));
    Report(Fired(s.b), WriteResp(cycle, s.b.payload, waiting), !waiting, Violation(cycle, UnexpectedResponse, B));
    NoneIfBoth(a, w);
    NoneIfBoth(a + w, b);
  }

  /** One edge: with true counters in front of it, the monitor complains exactly when the rule
      is broken, and otherwise its counters stay true. */
  lemma EdgeVerdict(h: seq<Signals>, t: nat, m: Monitor)
    requires t < |h| && Counters(h, t, m) && HoldsAt(h, t, m)
    ensures Violations(CycleEvents(t, m, h[t])) == [] <==> CleanAt(h, t)
    ensures CleanAt(h, t) ==> Counters(h, t + 1, After(m, h[t]))
  {
    hide Violations, HoldEvents, ReadEvents, WriteEvents, Held;
    var s := h[t];
    if !s.reset {
      var ar, aw, w := HoldEvents(t, AR, m.ar, s.ar), HoldEvents(t, AW, m.aw, s.aw), HoldEvents(t, W, m.w, s.w);
      HoldVerdict(h, t, AR, m.ar);
      HoldVerdict(h, t, AW, m.aw);
      HoldVerdict(h, t, W, m.w);
      ReadVerdict(t, m.pending, s);
      WriteVerdict(t, m, s);
      NoneIfBoth(ar, aw);
      NoneIfBoth(ar + aw, w);
      NoneIfBoth(ar + aw + w, ReadEvents(t, m.pending, s));
      NoneIfBoth(ar + aw + w + ReadEvents(t, m.pending, s), WriteEvents(t, m, s));
    } else {
      NothingViolated();
    }
  }

  lemma NothingViolated()
    ensures Violations([]) == []
  {
  }

  lemma HoldsNext(h: seq<Signals>, t: nat, m: Monitor)
    requires t < |h|
    ensures HoldsAt(h, t + 1, After(m, h[t]))
  {
  }

  /** The monitor has complained by edge t exactly when the rule was broken before it. */
  lemma {:induction false} CleanPrefix(h: seq<Signals>, t: nat)
    requires t <= |h|
    ensures Violations(LogUpTo(h, t)) == [] <==> forall u :: 0 <= u < t ==> CleanAt(h, u)
    ensures Violations(LogUpTo(h, t)) == [] ==> Counters(h, t, StateAt(h, t))
    ensures HoldsAt(h, t, StateAt(h, t))
  {
    hide CleanAt, CycleEvents, After, Violations;
    if t == 0 {
      NothingViolated();
    } else {
      CleanPrefix(h, t - 1);
      var m := StateAt(h, t - 1);
      NoneIfBoth(LogUpTo(h, t - 1), CycleEvents(t - 1, m, h[t - 1]));
      HoldsNext(h, t - 1, m);
      if Violations(LogUpTo(h, t - 1)) == [] {
        EdgeVerdict(h, t - 1, m);
      }
    }
  }

  // ---------------------------------------------------------------- what is logged

  /** A request was waiting for READY at the edge before. */
  predicate Waited(h: seq<Signals>, c: Channel, t: nat)
    requires t < |h|
  {
    t > 0 && !h[t - 1].reset && On(h[t - 1], c).valid && !On(h[t - 1], c).ready
  }

  /** An event of edge t with these counters in front of it, outside of a reset: every handshake, with the
      reads in flight or whether a response was due, every request that starts to wait, and every
      violation. */
  predicate Logged(h: seq<Signals>, t: nat, m: Monitor, e: Event)
    requires t < |h|
  {
    var s := h[t];
    var inFlight := m.pending + if s.ar.valid && s.ar.ready then 1 else 0;
    var address, data := m.awSeen || (s.aw.valid && s.aw.ready), m.wSeen || (s.w.valid && s.w.ready);
    e.cycle == t &&
    match e
    case Stall(_, c, p) =>
      c in {AR, AW, W} && On(s, c).valid && !On(s, c).ready && p == On(s, c).payload && !Waited(h, c, t)
    case ReadAddr(_, p, n) => s.ar.valid && s.ar.ready && p == s.ar.payload && n == m.pending + 1
    case ReadData(_, p, n) => s.r.valid && s.r.ready && p == s.r.payload && n == inFlight
    case WriteAddr(_, p) => s.aw.valid && s.aw.ready && p == s.aw.payload
    case WriteData(_, p) => s.w.valid && s.w.ready && p == s.w.payload
    case WriteResp(_, p, due) =>
      s.b.valid && s.b.ready && p == s.b.payload && due == (m.bWaiting || (address && data))
    case Violation(_, message, c) =>
      match message
      case ValidDropped => c in {AR, AW, W} && Waited(h, c, t) && !On(s, c).valid
      case PayloadChanged =>
        c in {AR, AW, W} && Waited(h, c, t) && On(s, c).valid && On(s, c).payload != On(h[t - 1], c).payload
      case SecondRead => c == AR && s.ar.valid && s.ar.ready && m.pending >= 1
      case UnexpectedRead => c == R && s.r.valid && s.r.ready && inFlight == 0
      case SecondAddress => c == AW && s.aw.valid && s.aw.ready && (m.awSeen || m.bWaiting)
      case SecondData => c == W && s.w.valid && s.w.ready && (m.wSeen || m.bWaiting)
      case UnexpectedResponse => c == B && s.b.valid && s.b.ready && !m.bWaiting && !(address && data)
  }

  lemma HoldLogs(h: seq<Signals>, t: nat, c: Channel, hold: Option<Payload>, m: Monitor, e: Event)
    requires t < |h| && c in {AR, AW, W} && hold == if Waited(h, c, t) then Some(On(h[t - 1], c).payload) else None
    ensures e in HoldEvents(t, c, hold, On(h[t], c)) <==>
            Logged(h, t, m, e) && ((e.Stall? && e.channel == c) ||
                (e.Violation? && e.channel == c && (e.message == ValidDropped || e.message == PayloadChanged)))
  {
  }

  lemma ReadLogs(h: seq<Signals>, t: nat, m: Monitor, e: Event)
    requires t < |h|
    ensures e in ReadEvents(t, m.pending, h[t]) <==>
            Logged(h, t, m, e) && (e.ReadAddr? || e.ReadData? ||
                (e.Violation? && (e.message == SecondRead || e.message == UnexpectedRead)))
  {
  }

  lemma WriteLogs(h: seq<Signals>, t: nat, m: Monitor, e: Event)
    requires t < |h|
    ensures e in WriteEvents(t, m, h[t]) <==>
            Logged(h, t, m, e) && (e.WriteAddr? || e.WriteData? || e.WriteResp? ||
                (e.Violation? && (e.message == SecondAddress || e.message == SecondData ||
                    e.message == UnexpectedResponse)))
  {
  }

  lemma HoldWaited(h: seq<Signals>, t: nat, m: Monitor)
    requires t < |h| && HoldsAt(h, t, m)
    ensures m.ar == if Waited(h, AR, t) then Some(h[t - 1].ar.payload) else None
    ensures m.aw == if Waited(h, AW, t) then Some(h[t - 1].aw.payload) else None
    ensures m.w == if Waited(h, W, t) then Some(h[t - 1].w.payload) else None
  {
  }

  /** The log of an edge holds just these events, and none in reset. */
  lemma EdgeLog(h: seq<Signals>, t: nat, e: Event)
    requires t < |h|
    ensures var m := StateAt(h, t); e in CycleEvents(t, m, h[t]) <==> !h[t].reset && Logged(h, t, m, e)
  {
    hide Logged, HoldEvents, ReadEvents, WriteEvents, CycleEvents, HoldsAt, StateAt, Waited, Violations, CleanAt,
         Counters;
    var m := StateAt(h, t);
    CleanPrefix(h, t);
    HoldWaited(h, t, m);
    CycleHas(t, m, h[t], e);
    HoldLogs(h, t, AR, m.ar, m, e);
    HoldLogs(h, t, AW, m.aw, m, e);
    HoldLogs(h, t, W, m.w, m, e);
    ReadLogs(h, t, m, e);
    WriteLogs(h, t, m, e);
    LoggedKinds(h, t, m, e);
  }

  lemma CycleHas(cycle: nat, m: Monitor, s: Signals, e: Event)
    ensures e in CycleEvents(cycle, m, s) <==>
            !s.reset && (e in HoldEvents(cycle, AR, m.ar, s.ar) || e in HoldEvents(cycle, AW, m.aw, s.aw) ||
                e in HoldEvents(cycle, W, m.w, s.w) || e in ReadEvents(cycle, m.pending, s) ||
                e in WriteEvents(cycle, m, s))
  {
    hide HoldEvents, ReadEvents, WriteEvents;
  }

  lemma LoggedKinds(h: seq<Signals>, t: nat, m: Monitor, e: Event)
    requires t < |h|
    ensures Logged(h, t, m, e) && e.Stall? ==> e.channel in {AR, AW, W}
    ensures Logged(h, t, m, e) && e.Violation? && (e.message == ValidDropped || e.message == PayloadChanged) ==>
              e.channel in {AR, AW, W}
  {
  }

  /** The whole log is made of these. */
  lemma {:induction false} LogHolds(h: seq<Signals>, t: nat, e: Event)
    requires t <= |h|
    ensures e in LogUpTo(h, t) <==>
            e.cycle < t && !h[e.cycle].reset && Logged(h, e.cycle, StateAt(h, e.cycle), e)
  {
    hide Logged, CycleEvents, StateAt;
    if t > 0 {
      LogHolds(h, t - 1, e);
      EdgeLog(h, t - 1, e);
      EventCycle(h, t - 1, StateAt(h, t - 1), e);
    }
  }

  lemma EventCycle(h: seq<Signals>, t: nat, m: Monitor, e: Event)
    requires t < |h|
    ensures Logged(h, t, m, e) ==> e.cycle == t
  {
  }

  /** A handshake of the channel since the last reset or response. */
  ghost predicate Since(h: seq<Signals>, c: Channel, t: nat)
    requires t <= |h|
  {
    exists u {:trigger h[u]} :: 0 <= u < t && On(h[u], c).valid && On(h[u], c).ready &&
      forall v :: u <= v < t ==> !h[v].reset && !(h[v].b.valid && h[v].b.ready)
  }

  lemma SinceNext(h: seq<Signals>, c: Channel, t: nat)
    requires t < |h|
    ensures Since(h, c, t + 1) <==>
            !h[t].reset && !Fired(h[t].b) && (Since(h, c, t) || Fired(On(h[t], c)))
  {
    if Since(h, c, t + 1) {
      var u :| 0 <= u < t + 1 && On(h[u], c).valid && On(h[u], c).ready &&
        forall v :: u <= v < t + 1 ==> !h[v].reset && !(h[v].b.valid && h[v].b.ready);
      assert u <= t < t + 1;
    }
  }

  /** What the monitor remembers of writes, whether the bus was clean or not: the requests since the last
      response. A response is due when both have come. */
  lemma {:induction false} SeenIs(h: seq<Signals>, t: nat)
    requires t <= |h|
    ensures var m := StateAt(h, t);
            && (m.awSeen <==> Since(h, AW, t)) && (m.wSeen <==> Since(h, W, t))
            && (m.bWaiting <==> Since(h, AW, t) && Since(h, W, t))
  {
    if t > 0 {
      SeenIs(h, t - 1);
      SinceNext(h, AW, t - 1);
      SinceNext(h, W, t - 1);
      hide Since;
    }
  }

  /** And of reads: the addresses taken minus the data taken, but never less than none. */
  lemma PendingIs(h: seq<Signals>, t: nat)
    requires t < |h|
    ensures var s := h[t];
            var open := StateAt(h, t).pending + (if s.ar.valid && s.ar.ready then 1 else 0)
                        - if s.r.valid && s.r.ready then 1 else 0;
            StateAt(h, t + 1).pending == if s.reset || open < 0 then 0 else open
  {
  }

  // ---------------------------------------------------------------- the rule without an order inside an edge

  /** Requests minus responses, edge t included. */
  function Open(h: seq<Signals>, request: Channel, response: Channel, t: nat): int
    requires t <= |h|
  {
    Accepted(h, request, t) - Accepted(h, response, t)
  }

  predicate AtMostOne(h: seq<Signals>, request: Channel, response: Channel, t: nat)
    requires t <= |h|
  {
    0 <= Open(h, request, response, t) <= 1
  }

  /** After edge t at most one read is open, and at most one address and one data of a write. */
  predicate Balanced(h: seq<Signals>, t: nat)
    requires t < |h|
  {
    AtMostOne(h, AR, R, t + 1) && AtMostOne(h, AW, B, t + 1) && AtMostOne(h, W, B, t + 1)
  }

  /** The channel takes no request at an edge in front of which one is open. */
  predicate Waits(h: seq<Signals>, request: Channel, response: Channel, t: nat)
    requires t < |h|
  {
    Fired(On(h[t], request)) ==> Open(h, request, response, t) <= 0
  }

  /** What the monitor asks for beyond a balance after every edge: it counts a request in front
      of the response of the same edge. */
  predicate Strict(h: seq<Signals>, t: nat)
    requires t < |h|
  {
    Waits(h, AR, R, t) && Waits(h, AW, B, t) && Waits(h, W, B, t)
  }

  predicate Steady(h: seq<Signals>, t: nat)
    requires t < |h|
  {
    h[t].reset || (Held(h, AR, t) && Held(h, AW, t) && Held(h, W, t) && Balanced(h, t))
  }

  /** In front of an edge nothing is open, or what was open after the edge before. */
  lemma OpenBefore(h: seq<Signals>, t: nat)
    requires t < |h| && (t > 0 ==> Steady(h, t - 1))
    ensures AtMostOne(h, AR, R, t) && AtMostOne(h, AW, B, t) && AtMostOne(h, W, B, t)
  {
    hide Held;
  }

  lemma CleanEdge(h: seq<Signals>, t: nat)
    requires t < |h|
    ensures CleanAt(h, t) ==> Steady(h, t) && (h[t].reset || Strict(h, t))
    ensures && AtMostOne(h, AR, R, t) && AtMostOne(h, AW, B, t) && AtMostOne(h, W, B, t)
            && Steady(h, t) && (h[t].reset || Strict(h, t))
            ==> CleanAt(h, t)
  {
    hide Held;
  }

  /** A bus is clean exactly when the requests held, the accepted ones were balanced after every
      edge, and no channel took a request while one of its own was open. */
  lemma CleanIsBalanced(h: seq<Signals>)
    ensures CleanBus(h) <==> forall t :: 0 <= t < |h| ==> Steady(h, t) && (h[t].reset || Strict(h, t))
  {
    hide CleanAt, Steady, Strict, AtMostOne;
    if forall t :: 0 <= t < |h| ==> Steady(h, t) && (h[t].reset || Strict(h, t)) {
      forall t | 0 <= t < |h|
        ensures CleanAt(h, t)
      {
        assert t > 0 ==> Steady(h, t - 1);
        OpenBefore(h, t);
        CleanEdge(h, t);
      }
    }
    if CleanBus(h) {
      forall t | 0 <= t < |h|
        ensures Steady(h, t) && (h[t].reset || Strict(h, t))
      {
        CleanEdge(h, t);
      }
    }
  }

  /** The balance alone is not enough for the monitor: a read address that is taken together with
      the data of the read before it is reported. */
  lemma BackToBackReads(idle: Handshake, taken: Handshake) returns (h: seq<Signals>)
    requires !idle.valid && Fired(taken)
    ensures (forall t :: 0 <= t < |h| ==> Steady(h, t)) && !CleanBus(h)
  {
    h := [Signals(false, taken, idle, idle, idle, idle), Signals(false, taken, taken, idle, idle, idle)];
    assert forall c :: Accepted(h, c, 0) == 0;
    assert forall c :: Accepted(h, c, 1) == Count(On(h[0], c));
    assert forall c :: Accepted(h, c, 2) == Count(On(h[0], c)) + Count(On(h[1], c));
    assert !CleanAt(h, 1);
  }
}
