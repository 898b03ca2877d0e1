// The console input handshake between the main loop of sim/harness/linux_sim.cpp and the hostTaken
// latch of src/main/scala/testbench/quard_uart.scala.
module Console {
  import opened Common

  type Byte = x: int | 0 <= x < 256

  const INPUT_POLL: nat := 4096

  // ---------------------------------------------------------------- the host

  datatype Host = Host(valid: bool, ch: Byte, tick: nat)

  // One turn of the main loop: retire what was consumed, then offer the next byte. `input` is what a
  // read of stdin would give now.
  function HostStep(h: Host, consumed: bool, input: Option<Byte>): Host {
    var h1 := if consumed then h.(valid := false) else h;
    if h1.valid || consumed then h1
    else if h1.tick + 1 < INPUT_POLL then h1.(tick := h1.tick + 1)
    else if input.Some? then Host(true, input.value, 0)
    else h1.(tick := 0)
  }

  // A byte is taken from stdin: nothing is on offer, nothing is reported consumed, the poll interval is
  // over, and there is one.
  predicate Reads(h: Host, consumed: bool, input: Option<Byte>) {
    !h.valid && !consumed && h.tick + 1 >= INPUT_POLL && input.Some?
  }

  // The byte read is the byte offered; an offer stands until it is reported consumed, with its character.
  lemma HostStepIs(h: Host, consumed: bool, input: Option<Byte>)
    ensures var g := HostStep(h, consumed, input);
            && (g.valid <==> Reads(h, consumed, input) || (h.valid && !consumed))
            && g.ch == (if Reads(h, consumed, input) then input.value else h.ch)
            && g.tick == (if h.valid || consumed then h.tick else if h.tick + 1 < INPUT_POLL then h.tick + 1 else 0)
  {
  }

  class HostLoop {
    var valid: bool
    var ch: Byte
    var tick: nat

    function State(): Host
      reads this
    {
      Host(valid, ch, tick)
    }

    constructor ()
      ensures State() == Host(false, 0, 0)
    {
      valid, ch, tick := false, 0, 0;
    }

    // `took` says that the byte was read from stdin.
    method Sample(consumed: bool, input: Option<Byte>) returns (took: bool)
      modifies this
      ensures State() == HostStep(old(State()), consumed, input)
      ensures took <==> Reads(old(State()), consumed, input)
      ensures took ==> valid && ch == input.value
      ensures !took ==> ch == old(ch) && valid == (old(valid) && !consumed)
    {
      took := false;
      if consumed { valid := false; }
      if !valid && !consumed {
        tick := tick + 1;
        if tick >= INPUT_POLL {
          tick := 0;
          if input.Some? {
            ch, valid, took := input.value, true, true;
          }
        }
      }
    }
  }

  // ---------------------------------------------------------------- host and device together

  // History: what stdin has given, which of those bytes, by position, the ports have taken, and the
  // characters that were on the wires when they took them.
  datatype State = State(host: Host, taken: bool, bytes: seq<Byte>, popped: seq<nat>, got: seq<Byte>)

  // A clock edge at which `ports` ports complete a console read, or a turn of the host's loop while
  // `ports` ports present one.
  datatype Event = Clock(ports: nat) | Turn(ports: nat, input: Option<Byte>)

  // A port sees the byte until the latch is set.
  predicate Offered(s: State) { s.host.valid && !s.taken }

  function Repeat<T>(x: T, n: nat): (r: seq<T>)
    ensures |r| == n
  {
    seq(n, i => x)
  }

  function Step(s: State, e: Event): State {
    match e
    case Clock(ports) =>
      var pops := if Offered(s) then ports else 0;
      State(s.host,
            s.host.valid && (s.taken || pops > 0),
            s.bytes,
            if |s.bytes| > 0 then s.popped + Repeat(|s.bytes| - 1, pops) else s.popped,
            s.got + Repeat(s.host.ch, pops))
    case Turn(ports, input) =>
      var consumed := s.taken || (Offered(s) && ports > 0);
      State(HostStep(s.host, consumed, input),
            s.taken,
            if Reads(s.host, consumed, input) then s.bytes + [input.value] else s.bytes,
            s.popped,
            s.got)
  }

  const START: State := State(Host(false, 0, 0), false, [], [], [])

  function Exec(s: State, events: seq<Event>): State
    decreases |events|
  {
    if events == [] then s else Exec(Step(s, events[0]), events[1..])
  }

  // The two ways the handshake can go wrong: the host sees a pop before the edge that completes it,
  // or two ports pop at one edge.
  predicate Clean(s: State, e: Event) { Offered(s) ==> if e.Clock? then e.ports <= 1 else e.ports == 0 }

  predicate CleanRun(s: State, events: seq<Event>)
    decreases |events|
  {
    events == [] || (Clean(s, events[0]) && CleanRun(Step(s, events[0]), events[1..]))
  }

  function Iota(n: nat): (r: seq<nat>)
    ensures |r| == n
  {
    seq(n, i requires 0 <= i => i)
  }

  // Every byte read but the one on offer has been taken once, in order.
  predicate ExactlyOnce(s: State) {
    s.popped == Iota(|s.popped|) && |s.bytes| == |s.popped| + if Offered(s) then 1 else 0
  }

  // What is on offer is the last byte stdin gave, and no port has taken it yet; and (`Matching`) the
  // characters taken are the bytes at the positions taken.
  predicate Sane(s: State) {
    && s.host.tick < INPUT_POLL
    && (s.host.valid ==> |s.bytes| > 0 && s.host.ch == s.bytes[|s.bytes| - 1])
    && (forall i | 0 <= i < |s.popped| :: s.popped[i] < |s.bytes| - if Offered(s) then 1 else 0)
  }

  predicate Matching(s: State)
    requires Sane(s)
  {
    |s.got| == |s.popped| && forall i | 0 <= i < |s.got| :: s.got[i] == s.bytes[s.popped[i]]
  }

  lemma StepSane(s: State, e: Event)
    requires Sane(s)
    ensures Sane(Step(s, e))
  {
  }

  lemma StepMatching(s: State, e: Event)
    requires Sane(s) && Matching(s)
    ensures Sane(Step(s, e)) && Matching(Step(s, e))
  {
    StepSane(s, e);
    var t := Step(s, e);
    forall i | 0 <= i < |t.got| ensures t.got[i] == t.bytes[t.popped[i]] {
      if i < |s.got| { assert t.got[i] == s.got[i] && t.popped[i] == s.popped[i]; }
    }
  }

  lemma {:induction false} ExecSane(s: State, events: seq<Event>)
    requires Sane(s) && Matching(s)
    ensures Sane(Exec(s, events)) && Matching(Exec(s, events))
    decreases |events|
  {
    if events != [] { StepMatching(s, events[0]); ExecSane(Step(s, events[0]), events[1..]); }
  }

  lemma PopsAt(s: State, ports: nat)
    requires Sane(s) && Offered(s)
    ensures Step(s, Clock(ports)).popped == s.popped + Repeat(|s.bytes| - 1, ports)
  {
  }

  lemma IotaNext(n: nat)
    ensures Iota(n + 1) == Iota(n) + [n]
  {
  }

  lemma IotaBound(n: nat, m: nat)
    requires forall i | 0 <= i < n :: Iota(n)[i] < m
    ensures n <= m
  {
    if n > 0 { assert Iota(n)[n - 1] == n - 1; }
  }

  // A step keeps the exactly-once property if and only if it is clean, and nothing restores it.
  lemma StepExact(s: State, e: Event)
    requires Sane(s)
    ensures ExactlyOnce(Step(s, e)) <==> ExactlyOnce(s) && Clean(s, e)
  {
    match e {
      case Turn(_, _) =>
        if s.popped == Iota(|s.popped|) && Offered(s) { IotaBound(|s.popped|, |s.bytes| - 1); }
      case Clock(ports) =>
        if Offered(s) {
          ClockExact(s, ports);
        } else {
          assert |s.bytes| > 0 ==> s.popped + Repeat(|s.bytes| - 1, 0) == s.popped;
        }
    }
  }

  lemma ClockExact(s: State, ports: nat)
    requires Sane(s) && Offered(s)
    ensures ExactlyOnce(Step(s, Clock(ports))) <==> ExactlyOnce(s) && ports <= 1
  {
    var k, after := |s.popped|, Step(s, Clock(ports)).popped;
    PopsAt(s, ports);
    IotaNext(k);
    if ports == 0 {
      assert after == s.popped;
    } else {
      assert after[..k] == s.popped && after[k] == |s.bytes| - 1;
      assert Iota(|after|)[..k] == Iota(k);
      if ports == 1 { assert after == s.popped + [|s.bytes| - 1]; } else { assert after[k] == after[k + 1]; }
    }
  }

  lemma {:induction false} ExecExact(s: State, events: seq<Event>)
    requires Sane(s)
    ensures ExactlyOnce(Exec(s, events)) <==> ExactlyOnce(s) && CleanRun(s, events)
    decreases |events|
  {
    if events != [] {
      StepSane(s, events[0]);
      StepExact(s, events[0]);
      ExecExact(Step(s, events[0]), events[1..]);
    }
  }

  // What stdin gives over a run: its bytes at the turns that read one.
  function Given(s: State, events: seq<Event>): seq<Byte>
    decreases |events|
  {
    if events == [] then [] else
    var e := events[0];
    (if e.Turn? && Reads(s.host, s.taken || (Offered(s) && e.ports > 0), e.input) then [e.input.value] else [])
    + Given(Step(s, e), events[1..])
  }

  lemma {:induction false} GivenIsBytes(s: State, events: seq<Event>)
    ensures Exec(s, events).bytes == s.bytes + Given(s, events)
    decreases |events|
  {
    if events != [] { GivenIsBytes(Step(s, events[0]), events[1..]); }
  }

  // Over every run: each byte is taken exactly once and in order if and only if no turn saw a pop too
  // early and no edge had two of them; and then the characters the ports got are what stdin gave, up to
  // the byte on offer.
  lemma RunExact(events: seq<Event>)
    ensures var s := Exec(START, events);
            && s.bytes == Given(START, events)
            && |s.got| == |s.popped|
            && (forall i | 0 <= i < |s.got| :: s.popped[i] < |s.bytes| && s.got[i] == s.bytes[s.popped[i]])
            && (ExactlyOnce(s) <==> CleanRun(START, events))
            && (CleanRun(START, events) ==>
                  Given(START, events) == s.got + if Offered(s) then [s.host.ch] else [])
  {
    assert Iota(0) == [];
    ExecSane(START, events);
    ExecExact(START, events);
    GivenIsBytes(START, events);
    var s := Exec(START, events);
    if CleanRun(START, events) {
      assert s.bytes == s.got + if Offered(s) then [s.host.ch] else [];
    }
  }

  // A byte lost, and a byte doubled.
  lemma EarlyTurnLoses(b: Byte, s: State)
    requires s == State(Host(true, b, 0), false, [b], [], [])
    ensures Exec(s, [Turn(1, None), Clock(1)]) == State(Host(false, b, 0), false, [b], [], [])
  {
    var s1 := Step(s, Turn(1, None));
    assert [Turn(1, None), Clock(1)][1..] == [Clock(1)];
    assert Step(s1, Clock(1)).popped == [] + Repeat(0, 0) == [];
    assert Step(s1, Clock(1)).got == [] + Repeat(b, 0) == [];
  }

  lemma TwoPortsDouble(b: Byte, s: State)
    requires s == State(Host(true, b, 0), false, [b], [], [])
    ensures Exec(s, [Clock(2)]) == State(Host(true, b, 0), true, [b], [0, 0], [b, b])
  {
    assert Step(s, Clock(2)).popped == [] + Repeat(0, 2) == [0, 0];
    assert Step(s, Clock(2)).got == [] + Repeat(b, 2) == [b, b];
  }

  // ---------------------------------------------------------------- re-arming

  function Turns(events: seq<Event>): nat {
    if events == [] then 0 else Turns(events[1..]) + if events[0].Turn? then 1 else 0
  }

  predicate AllInput(events: seq<Event>) { forall i | 0 <= i < |events| && events[i].Turn? :: events[i].input.Some? }

  lemma {:induction false} BytesGrow(s: State, events: seq<Event>)
    ensures |Exec(s, events).bytes| >= |s.bytes|
    decreases |events|
  {
    if events != [] { BytesGrow(Step(s, events[0]), events[1..]); }
  }

  // Idle and armed, the host offers the next byte within INPUT_POLL turns.
  lemma {:induction false} Offering(s: State, events: seq<Event>)
    requires !s.host.valid && !s.taken && AllInput(events)
    requires s.host.tick < INPUT_POLL <= s.host.tick + Turns(events)
    ensures |Exec(s, events).bytes| > |s.bytes|
    decreases |events|
  {
    var s1 := Step(s, events[0]);
    if |s1.bytes| > |s.bytes| { BytesGrow(s1, events[1..]); } else { Offering(s1, events[1..]); }
  }

  // Once a byte is taken, a turn and an edge re-arm the handshake, and the next byte follows: from
  // any state, however many edges lie between the turns.
  lemma Rearms(s: State, ports: nat, input: Option<Byte>, edge: nat, events: seq<Event>)
    requires Sane(s) && s.host.valid && s.taken && AllInput(events) && Turns(events) >= INPUT_POLL
    ensures |Exec(s, [Turn(ports, input), Clock(edge)] + events).bytes| > |s.bytes|
  {
    var s1 := Step(s, Turn(ports, input));
    var s2 := Step(s1, Clock(edge));
    var all := [Turn(ports, input), Clock(edge)] + events;
    assert all[1..] == [Clock(edge)] + events && all[1..][1..] == events;
    assert Exec(s, all) == Exec(s2, events);
    Offering(s2, events);
  }
}
