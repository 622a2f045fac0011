/** The ACI event loop of examples/c++/nrf8001-helloworld.cxx, with the state updates that
    `lib_aci_event_get` makes before the application sees an event. */
module Nrf8001 {
  import opened Wrappers

  const UART_RX: nat := 7
  const UART_TX: nat := 8
  const CONTROL_POINT_TX: nat := 9
  const CONTROL_POINT_RX: nat := 10
  const HARDWARE_REVISION_SET: nat := 2
  const LINK_TIMING_SET: nat := 11

  const PEER_ATT_ERROR: Byte := 0x92

  const UART_DISCONNECT: Byte := 0x01
  const UART_TIMING_REQ: Byte := 0x02
  const UART_STOP: Byte := 0x03
  const UART_OK: Byte := 0x04

  const BUFFER_LEN: nat := 20
  const RX_DATA_LEN: nat := 22

  datatype DeviceMode = Test | Setup | Standby | OtherMode

  /** An event; `data` is the whole payload field, of which the first `len - 2` bytes are valid. */
  datatype Event =
    | DeviceStarted(mode: DeviceMode, hwError: bool, credits: Byte)
    | CmdRsp(isVersion: bool)
    | Connected
    | PipeStatus(open: set<nat>)
    | Timing
    | Disconnected
    | DataReceived(pipe: nat, len: nat, data: seq<Byte>)
    | DataCredit(credit: Byte)
    | PipeError(code: Byte)
    | HwError
    | OtherEvent

  /** What happens to one turn of the loop: the event that is read, if any, the free places in
      the command queue, and whether `do_aci_setup` succeeds if it is called. */
  datatype Input = Input(event: Option<Event>, room: nat, setupOk: bool)

  datatype Command =
    | Advertise
    | GetVersion
    | SetLocalData(pipe: nat)
    | Terminate
    | ChangeTiming(minInterval: nat, maxInterval: nat, latency: nat, timeout: nat)
    | ChangeTimingGapPpcp
    | SendHello

  datatype State = State(
    total: Byte, available: Byte, open: set<nat>,
    timingDone: bool, setupRequired: bool, rts: bool)

  /** A received packet fits the application's buffer and carries a first byte to look at. */
  predicate WellSized(e: Event) {
    e.DataReceived? ==> 2 <= e.len <= BUFFER_LEN + 2 && |e.data| == RX_DATA_LEN
  }

  predicate Admissible(x: Input) {
    x.event.Some? ==> WellSized(x.event.value)
  }

  function Le16(data: seq<Byte>, i: nat): nat
    requires i + 1 < |data|
  {
    data[i] as int + 256 * (data[i + 1] as int)
  }

  // ---------- One turn, as a function ----------

  /** The commands that find a place in the queue. */
  function Accepted(cmds: seq<Command>, room: nat): seq<Command> {
    if |cmds| <= room then cmds else cmds[..room]
  }

  datatype Outcome = Outcome(state: State, sent: seq<Command>)

  function EventGet(s: State, e: Event): State {
    match e
    case PipeStatus(open) => s.(open := open)
    case Disconnected => s.(open := {}, available := s.total)
    case _ => s
  }

  /** The TX pipe is open and this connection has not had its timing request yet. */
  predicate HelloDue(s: State, e: Event) {
    e.PipeStatus? && UART_TX in e.open && !s.timingDone
  }

  /** The hello goes out: it is due, there is a credit, and the queue takes two commands. */
  predicate HelloSent(s: State, e: Event, room: nat) {
    HelloDue(s, e) && s.available >= 1 && room >= 2
  }

  function ControlPoint(s: State, data: seq<Byte>, room: nat): Outcome
    requires |data| == RX_DATA_LEN
  {
    if CONTROL_POINT_TX !in s.open then Outcome(s, [])
    else if data[0] == UART_DISCONNECT then
      Outcome(if room >= 1 then s.(open := {}) else s, Accepted([Terminate], room))
    else if data[0] == UART_TIMING_REQ then
      Outcome(s, Accepted([ChangeTiming(Le16(data, 1), Le16(data, 3), Le16(data, 5), Le16(data, 7))], room))
    else if data[0] == UART_STOP then Outcome(s.(rts := false), [])
    else if data[0] == UART_OK then Outcome(s.(rts := true), [])
    else Outcome(s, [])
  }

  function Handle(s: State, e: Event, room: nat): Outcome
    requires WellSized(e)
  {
    match e
    case DeviceStarted(mode, hwError, credits) =>
      var s' := s.(total := credits);
      if mode == Setup then Outcome(s'.(setupRequired := true), [])
      else if mode == Standby && !hwError then Outcome(s', Accepted([Advertise], room))
      else Outcome(s', [])
    case CmdRsp(isVersion) =>
      Outcome(s, if isVersion then Accepted([SetLocalData(HARDWARE_REVISION_SET)], room) else [])
    case Connected =>
      Outcome(s.(rts := true, timingDone := false, available := s.total), Accepted([GetVersion], room))
    case PipeStatus(_) =>
      if HelloDue(s, e) then
        Outcome(s.(timingDone := true, available := if HelloSent(s, e, room) then s.available - 1 else s.available),
                Accepted([ChangeTimingGapPpcp], room) + if HelloSent(s, e, room) then [SendHello] else [])
      else Outcome(s, [])
    case Timing => Outcome(s, Accepted([SetLocalData(LINK_TIMING_SET)], room))
    case Disconnected => Outcome(s, Accepted([Advertise], room))
    case DataReceived(pipe, _, data) =>
      if pipe == CONTROL_POINT_RX then ControlPoint(s, data, room) else Outcome(s, [])
    case DataCredit(credit) => Outcome(s.(available := (s.available + credit) % 256), [])
    case PipeError(code) =>
      Outcome(if code != PEER_ATT_ERROR then s.(available := (s.available + 1) % 256) else s, [])
    case HwError => Outcome(s, Accepted([Advertise], room))
    case OtherEvent => Outcome(s, [])
  }

  function Turn(s: State, x: Input): Outcome
    requires Admissible(x)
  {
    var o := if x.event.Some? then Handle(EventGet(s, x.event.value), x.event.value, x.room) else Outcome(s, []);
    if o.state.setupRequired && x.setupOk then o.(state := o.state.(setupRequired := false)) else o
  }

  /** The receive buffer after an event: data on the UART RX pipe goes to its front. */
  function Stored(buffer: seq<Byte>, e: Event): (r: seq<Byte>)
    requires |buffer| == BUFFER_LEN && WellSized(e)
    ensures |r| == BUFFER_LEN
  {
    if e.DataReceived? && e.pipe == UART_RX then e.data[..e.len - 2] + buffer[e.len - 2..] else buffer
  }

  const START: State := State(0, 0, {}, false, false, false)

  // ---------- The program ----------

  class Application {
    var total: Byte
    var available: Byte
    var open: set<nat>
    var timingDone: bool
    var setupRequired: bool
    var rts: bool
    var uartBuffer: array<Byte>
    var uartLen: nat
    /** Free places in the command queue, and the commands it accepted. */
    var room: nat
    var sent: seq<Command>

    ghost function View(): State
      reads this
    {
      State(total, available, open, timingDone, setupRequired, rts)
    }

    ghost predicate Valid()
      reads this
    {
      uartBuffer.Length == BUFFER_LEN
    }

    constructor ()
      ensures Valid() && View() == START && sent == [] && fresh(uartBuffer)
      ensures uartBuffer[..] == seq(BUFFER_LEN, _ => 0)
    {
      total, available, open := 0, 0, {};
      timingDone, setupRequired, rts := false, false, false;
      uartBuffer := new Byte[BUFFER_LEN](_ => 0);
      uartLen := 0;
      room, sent := 0, [];
    }

    /** `hal_aci_tl_send`: a full queue refuses the command. */
    method Send(cmd: Command) returns (ok: bool)
      modifies this`room, this`sent
      ensures ok <==> old(room) >= 1
      ensures room == old(room) - (if ok then 1 else 0)
      ensures sent == old(sent) + Accepted([cmd], old(room))
    {
      ok := room > 0;
      if ok {
        room := room - 1;
        sent := sent + [cmd];
      }
    }

    method UartOverBleInit()
      modifies this`rts
      ensures rts
    {
      rts := true;
    }

    method UartTx() returns (status: bool)
      modifies this`room, this`sent, this`available
      ensures status <==> UART_TX in open && old(available) >= 1 && old(room) >= 1
      ensures available == old(available) - (if status then 1 else 0)
      ensures sent == old(sent) + (if status then [SendHello] else [])
    {
      status := false;
      if UART_TX in open && available >= 1 {
        status := Send(SendHello);
        if status {
          available := available - 1;
        }
      }
    }

    method UartProcessControlPointRx(data: seq<Byte>) returns (status: bool)
      requires |data| == RX_DATA_LEN
      modifies this`room, this`sent, this`open, this`rts
      ensures View() == ControlPoint(old(View()), data, old(room)).state
      ensures sent == old(sent) + ControlPoint(old(View()), data, old(room)).sent
      ensures status <==> CONTROL_POINT_TX in old(open) && UART_DISCONNECT <= data[0] <= UART_OK
    {
      status := false;
      if CONTROL_POINT_TX in open {
        if data[0] == UART_DISCONNECT {
          var ok := Send(Terminate);
          if ok {
            open := {};
          }
          status := true;
        } else if data[0] == UART_TIMING_REQ {
          var _ := Send(ChangeTiming(Le16(data, 1), Le16(data, 3), Le16(data, 5), Le16(data, 7)));
          status := true;
        } else if data[0] == UART_STOP {
          rts := false;
          status := true;
        } else if data[0] == UART_OK {
          rts := true;
          status := true;
        }
      }
    }

    /** The copying loop for data on the UART RX pipe: the buffer starts with the valid bytes of
        the packet and is unchanged behind them. */
    method StoreReceived(len: nat, data: seq<Byte>)
      requires Valid() && 2 <= len <= BUFFER_LEN + 2 && |data| == RX_DATA_LEN
      modifies uartBuffer, this`uartLen
      ensures uartLen == len - 2
      ensures uartBuffer[..] == data[..len - 2] + old(uartBuffer[..])[len - 2..]
    {
      var i := 0;
      while i < len - 2
        invariant 0 <= i <= len - 2
        invariant forall k :: 0 <= k < i ==> uartBuffer[k] == data[k]
        invariant forall k :: i <= k < BUFFER_LEN ==> uartBuffer[k] == old(uartBuffer[k])
      {
        uartBuffer[i] := data[i];
        i := i + 1;
      }
      uartLen := len - 2;
    }

    method LibAciEventGet(e: Event)
      modifies this`open, this`available
      ensures View() == EventGet(old(View()), e)
    {
      match e
      case PipeStatus(o) => open := o;
      case Disconnected =>
        open := {};
        available := total;
      case _ =>
    }

    method OnPipeStatus(e: Event)
      requires e.PipeStatus? && open == e.open
      modifies this`room, this`sent, this`available, this`timingDone
      ensures View() == Handle(old(View()), e, old(room)).state
      ensures sent == old(sent) + Handle(old(View()), e, old(room)).sent
    {
      if UART_TX in open && !timingDone {
        ghost var before, places := sent, room;
        var _ := Send(ChangeTimingGapPpcp);
        timingDone := true;
        var status := UartTx();
        var hello := if status then [SendHello] else [];
        assert (before + Accepted([ChangeTimingGapPpcp], places)) + hello
            == before + (Accepted([ChangeTimingGapPpcp], places) + hello);
      }
    }

    method OnDataReceived(e: Event)
      requires Valid() && WellSized(e) && e.DataReceived?
      modifies this`room, this`sent, this`open, this`rts, this`uartLen, uartBuffer
      ensures View() == Handle(old(View()), e, old(room)).state
      ensures sent == old(sent) + Handle(old(View()), e, old(room)).sent
      ensures uartBuffer[..] == Stored(old(uartBuffer[..]), e)
    {
      if e.pipe == UART_RX {
        StoreReceived(e.len, e.data);
      }
      if e.pipe == CONTROL_POINT_RX {
        var _ := UartProcessControlPointRx(e.data);
      }
    }

    method OnEvent(e: Event)
      requires Valid() && WellSized(e) && (e.PipeStatus? ==> open == e.open)
      modifies this, uartBuffer
      ensures Valid() && uartBuffer == old(uartBuffer)
      ensures View() == Handle(old(View()), e, old(room)).state
      ensures sent == old(sent) + Handle(old(View()), e, old(room)).sent
      ensures uartBuffer[..] == Stored(old(uartBuffer[..]), e)
    {
      hide ControlPoint, HelloDue, HelloSent;
      match e
      case DeviceStarted(mode, hwError, credits) =>
        total := credits;
        if mode == Setup {
          setupRequired := true;
        } else if mode == Standby {
          if !hwError {
            var _ := Send(Advertise);
          }
        }
      case CmdRsp(isVersion) =>
        if isVersion {
          var _ := Send(SetLocalData(HARDWARE_REVISION_SET));
        }
      case Connected =>
        UartOverBleInit();
        timingDone := false;
        available := total;
        var _ := Send(GetVersion);
      case PipeStatus(_) =>
        OnPipeStatus(e);
      case Timing =>
        var _ := Send(SetLocalData(LINK_TIMING_SET));
      case Disconnected =>
        var _ := Send(Advertise);
      case DataReceived(_, _, _) =>
        OnDataReceived(e);
      case DataCredit(credit) =>
        available := (available + credit) % 256;
      case PipeError(code) =>
        if code != PEER_ATT_ERROR {
          available := (available + 1) % 256;
        }
      case HwError =>
        var _ := Send(Advertise);
      case OtherEvent =>
    }

    /** One turn of the loop in `main`. */
    method LoopTurn(x: Input)
      requires Valid() && Admissible(x)
      modifies this, uartBuffer
      ensures Valid() && uartBuffer == old(uartBuffer)
      ensures View() == Turn(old(View()), x).state
      ensures sent == old(sent) + Turn(old(View()), x).sent
      ensures uartBuffer[..] == if x.event.Some? then Stored(old(uartBuffer[..]), x.event.value) else old(uartBuffer[..])
    {
      room := x.room;
      if x.event.Some? {
        LibAciEventGet(x.event.value);
        OnEvent(x.event.value);
      }
      if setupRequired {
        if x.setupOk {
          setupRequired := false;
        }
      }
    }
  }

  // ---------- Runs ----------

  ghost predicate AllAdmissible(run: seq<Input>) {
    forall i :: 0 <= i < |run| ==> Admissible(run[i])
  }

  /** The state after a run, the last input being the latest. */
  function After(run: seq<Input>): State
    requires AllAdmissible(run)
  {
    if run == [] then START else Turn(After(run[..|run| - 1]), run[|run| - 1]).state
  }

  /** The commands a run has got accepted, in order. */
  function Transcript(run: seq<Input>): seq<Command>
    requires AllAdmissible(run)
  {
    if run == [] then []
    else
      var n := |run| - 1;
      Transcript(run[..n]) + Turn(After(run[..n]), run[n]).sent
  }

  /** The receive buffer after a run. */
  function BufferAfter(run: seq<Input>): (r: seq<Byte>)
    requires AllAdmissible(run)
    ensures |r| == BUFFER_LEN
  {
    if run == [] then seq(BUFFER_LEN, _ => 0)
    else
      var n := |run| - 1;
      if run[n].event.Some? then Stored(BufferAfter(run[..n]), run[n].event.value) else BufferAfter(run[..n])
  }

  predicate IsUartData(x: Input) {
    x.event.Some? && x.event.value.DataReceived? && x.event.value.pipe == 7
  }

  /** Whatever else has happened since, the buffer starts with the bytes of the latest packet on
      the UART RX pipe, and behind them holds what it held before that packet. */
  lemma {:induction false} BufferHoldsLatest(run: seq<Input>, i: nat)
    requires AllAdmissible(run) && i < |run| && IsUartData(run[i])
    requires forall j :: i < j < |run| ==> !IsUartData(run[j])
    ensures var e := run[i].event.value;
            && BufferAfter(run)[..e.len - 2] == e.data[..e.len - 2]
            && BufferAfter(run)[e.len - 2..] == BufferAfter(run[..i])[e.len - 2..]
    decreases |run|
  {
    var n := |run| - 1;
    if i < n {
      BufferHoldsLatest(run[..n], i);
      assert run[..n][..i] == run[..i];
    }
  }

  /** The loop of `main`, for as many turns as there are inputs. */
  method MainLoop(run: seq<Input>) returns (app: Application)
    requires AllAdmissible(run)
    ensures app.View() == After(run) && app.sent == Transcript(run)
    ensures app.uartBuffer[..] == BufferAfter(run)
  {
    app := new Application();
    var i := 0;
    while i < |run|
      invariant 0 <= i <= |run| && app.Valid()
      invariant fresh(app) && fresh(app.uartBuffer)
      invariant app.View() == After(run[..i]) && app.sent == Transcript(run[..i])
      invariant app.uartBuffer[..] == BufferAfter(run[..i])
    {
      hide Turn, Stored;
      assert run[..i + 1][..i] == run[..i];
      app.LoopTurn(run[i]);
      i := i + 1;
    }
    assert run[..i] == run;
  }

  // ---------- Events of a run ----------

  predicate IsConnected(x: Input) {
    x.event == Some(Connected)
  }

  /** A new credit epoch: the link is established or lost, and the device drops what it held. */
  predicate StartsEpoch(x: Input) {
    x.event == Some(Connected) || x.event == Some(Disconnected)
  }

  predicate IsTxStatus(x: Input) {
    x.event.Some? && x.event.value.PipeStatus? && 8 in x.event.value.open
  }

  // ---------- Flags as functions of the history ----------

  /** `timing_change_done` holds exactly when a pipe status with the TX pipe open has come since
      the last CONNECTED, or since the start. */
  lemma {:induction false} TimingDoneIsHistory(run: seq<Input>)
    requires AllAdmissible(run)
    ensures After(run).timingDone <==>
              exists i :: 0 <= i < |run| && IsTxStatus(run[i]) && forall j :: i < j < |run| ==> !IsConnected(run[j])
    decreases |run|
  {
    hide Turn;
    if run != [] {
      var n := |run| - 1;
      var before := run[..n];
      TimingDoneIsHistory(before);
      FlagStep(After(before), run[n]);
      if IsTxStatus(run[n]) {
      } else if !IsConnected(run[n]) {
        if After(before).timingDone {
          var i :| 0 <= i < n && IsTxStatus(before[i]) && forall j :: i < j < n ==> !IsConnected(before[j]);
          assert IsTxStatus(run[i]) && forall j :: i < j < |run| ==> j == n || run[j] == before[j];
        }
        if i :| 0 <= i < |run| && IsTxStatus(run[i]) && forall j :: i < j < |run| ==> !IsConnected(run[j]) {
          assert before[i] == run[i] && forall j :: i < j < n ==> before[j] == run[j];
        }
      }
    }
  }

  /** In state `s` the application acts on a control-point write of `byte`. */
  predicate Controls(s: State, x: Input, byte: Byte)
    requires Admissible(x)
  {
    && x.event.Some?
    && x.event.value.DataReceived?
    && x.event.value.pipe == 10
    && 9 in s.open
    && x.event.value.data[0] == byte
  }

  predicate LowersRts(run: seq<Input>, i: nat)
    requires AllAdmissible(run) && i < |run|
  {
    Controls(After(run[..i]), run[i], 3)
  }

  predicate RaisesRts(run: seq<Input>, i: nat)
    requires AllAdmissible(run) && i < |run|
  {
    IsConnected(run[i]) || Controls(After(run[..i]), run[i], 4)
  }

  lemma RtsLast(run: seq<Input>)
    requires AllAdmissible(run) && run != []
    ensures var n := |run| - 1;
            After(run).rts <==> RaisesRts(run, n) || (!LowersRts(run, n) && After(run[..n]).rts)
  {
    hide Turn;
    var n := |run| - 1;
    RtsStep(After(run[..n]), run[n]);
  }

  lemma RtsOfPrefix(run: seq<Input>, n: nat, i: nat)
    requires AllAdmissible(run) && i < n <= |run|
    ensures RaisesRts(run[..n], i) <==> RaisesRts(run, i)
    ensures LowersRts(run[..n], i) <==> LowersRts(run, i)
  {
    hide Turn, After;
    assert run[..n][..i] == run[..i];
  }

  /** `uart_rts_local` holds exactly when a CONNECTED or an accepted OK has come and no STOP has
      been accepted since; before the first CONNECTED it is false. */
  lemma {:induction false} RtsIsHistory(run: seq<Input>)
    requires AllAdmissible(run)
    ensures After(run).rts <==>
              exists i :: 0 <= i < |run| && RaisesRts(run, i) && forall j :: i < j < |run| ==> !LowersRts(run, j)
    decreases |run|
  {
    hide Turn, RaisesRts, LowersRts;
    if run != [] {
      var n := |run| - 1;
      var before := run[..n];
      hide After;
      RtsIsHistory(before);
      RtsLast(run);
      forall i | 0 <= i < n
        ensures RaisesRts(before, i) <==> RaisesRts(run, i)
        ensures LowersRts(before, i) <==> LowersRts(run, i)
      {
        RtsOfPrefix(run, n, i);
      }
      if After(run).rts && !RaisesRts(run, n) {
        var i :| 0 <= i < n && RaisesRts(before, i) && forall j :: i < j < n ==> !LowersRts(before, j);
        assert RaisesRts(run, i);
      }
      if i :| 0 <= i < n && RaisesRts(run, i) && forall j :: i < j < |run| ==> !LowersRts(run, j) {
        assert RaisesRts(before, i);
      }
    }
  }

  lemma RtsStep(s: State, x: Input)
    requires Admissible(x)
    ensures Turn(s, x).state.rts ==
              if IsConnected(x) || Controls(s, x, 4) then true else if Controls(s, x, 3) then false else s.rts
  {
    hide Accepted;
  }

  // ---------- Requests and packets per connection ----------

  function Count(cmds: seq<Command>, c: Command): nat {
    if cmds == [] then 0 else (if cmds[0] == c then 1 else 0) + Count(cmds[1..], c)
  }

  /** How often a run has got `c` accepted. */
  function Issued(run: seq<Input>, c: Command): nat
    requires AllAdmissible(run)
  {
    if run == [] then 0
    else
      var n := |run| - 1;
      Issued(run[..n], c) + Count(Turn(After(run[..n]), run[n]).sent, c)
  }

  lemma {:induction false} CountConcat(a: seq<Command>, b: seq<Command>, c: Command)
    ensures Count(a + b, c) == Count(a, c) + Count(b, c)
    decreases |a|
  {
    if a == [] {
      assert a + b == b;
    } else {
      assert (a + b)[1..] == a[1..] + b;
      CountConcat(a[1..], b, c);
    }
  }

  /** Issued commands are those of the transcript. */
  lemma {:induction false} IssuedInTranscript(run: seq<Input>, c: Command)
    requires AllAdmissible(run)
    ensures Issued(run, c) == Count(Transcript(run), c)
    decreases |run|
  {
    hide Turn;
    if run != [] {
      var n := |run| - 1;
      IssuedInTranscript(run[..n], c);
      CountConcat(Transcript(run[..n]), Turn(After(run[..n]), run[n]).sent, c);
    }
  }

  function Connections(run: seq<Input>): nat {
    if run == [] then 0 else Connections(run[..|run| - 1]) + (if IsConnected(run[|run| - 1]) then 1 else 0)
  }

  lemma CountShort(a: Command, b: Command, c: Command)
    ensures Count([a], c) == if a == c then 1 else 0
    ensures Count([a, b], c) == (if a == c then 1 else 0) + (if b == c then 1 else 0)
  {
    assert [a][1..] == [] && [b][1..] == [] && [a, b][1..] == [b];
    assert Count([b], c) == (if b == c then 1 else 0) + Count([], c);
  }

  lemma CountNone(c: Command)
    ensures Count([], c) == 0
  {
  }

  /** What a turn sends when the hello is due, and that no other turn sends either of the two. */
  lemma TurnCommands(s: State, x: Input)
    requires Admissible(x)
    ensures var cmds := Turn(s, x).sent;
            if x.event.Some? && HelloDue(EventGet(s, x.event.value), x.event.value) then
              cmds == Accepted([ChangeTimingGapPpcp], x.room)
                      + if HelloSent(EventGet(s, x.event.value), x.event.value, x.room) then [SendHello] else []
            else |cmds| <= 1 && SendHello !in cmds && ChangeTimingGapPpcp !in cmds
  {
  }

  /** The commands of one turn: the timing request and the hello only when the hello is due. */
  lemma TurnSends(s: State, x: Input)
    requires Admissible(x)
    ensures var cmds := Turn(s, x).sent;
            && Count(cmds, SendHello) <= 1 && Count(cmds, ChangeTimingGapPpcp) <= 1
            && (Count(cmds, SendHello) == 1 <==>
                  x.event.Some? && HelloSent(EventGet(s, x.event.value), x.event.value, x.room))
            && (Count(cmds, ChangeTimingGapPpcp) == 1 <==>
                  x.event.Some? && HelloDue(EventGet(s, x.event.value), x.event.value) && x.room >= 1)
  {
    hide Turn, Handle, EventGet, Count, HelloDue;
    TurnCommands(s, x);
    var cmds := Turn(s, x).sent;
    forall c | c == SendHello || c == ChangeTimingGapPpcp
      ensures cmds == [] ==> Count(cmds, c) == 0
      ensures |cmds| == 1 ==> Count(cmds, c) == if cmds[0] == c then 1 else 0
      ensures |cmds| == 2 ==> Count(cmds, c) == (if cmds[0] == c then 1 else 0) + (if cmds[1] == c then 1 else 0)
    {
      if cmds == [] {
        CountNone(c);
      } else if |cmds| == 1 {
        CountShort(cmds[0], cmds[0], c);
        assert cmds == [cmds[0]];
      } else if |cmds| == 2 {
        CountShort(cmds[0], cmds[1], c);
        assert cmds == [cmds[0], cmds[1]];
      }
    }
  }

  /** Timing requests, and hello packets, number at most CONNECTED events plus one; the one extra
      is used up as soon as the flag is set. */
  lemma {:induction false} OncePerConnection(run: seq<Input>, c: Command)
    requires AllAdmissible(run) && (c == SendHello || c == ChangeTimingGapPpcp)
    ensures Issued(run, c) + (if After(run).timingDone then 0 else 1) <= Connections(run) + 1
    decreases |run|
  {
    hide Handle, ControlPoint, Accepted, Count;
    if run != [] {
      var n := |run| - 1;
      OncePerConnection(run[..n], c);
      TurnSends(After(run[..n]), run[n]);
      FlagStep(After(run[..n]), run[n]);
    }
  }

  lemma FlagStep(s: State, x: Input)
    requires Admissible(x)
    ensures Turn(s, x).state.timingDone <==> IsTxStatus(x) || (s.timingDone && !IsConnected(x))
    ensures x.event.Some? ==>
              (HelloDue(EventGet(s, x.event.value), x.event.value) <==> IsTxStatus(x) && !s.timingDone)
  {
  }

  // ---------- Which command answers which event ----------

  /** The open pipes after a run, from its inputs alone: those of the last pipe status, unless the
      link was lost or a request to end it was accepted since. */
  function PipesAfter(run: seq<Input>): set<nat> {
    if run == [] then {}
    else
      var x, before := run[|run| - 1], PipesAfter(run[..|run| - 1]);
      match x.event
      case Some(PipeStatus(open)) => open
      case Some(Disconnected) => {}
      case Some(DataReceived(pipe, _, data)) =>
        if pipe == 10 && 9 in before && |data| > 0 && data[0] == 1 && x.room >= 1 then {} else before
      case _ => before
  }

  /** The credits of the last start of the device. */
  function TotalAfter(run: seq<Input>): Byte {
    if run == [] then 0
    else if run[|run| - 1].event.Some? && run[|run| - 1].event.value.DeviceStarted? then run[|run| - 1].event.value.credits
    else TotalAfter(run[..|run| - 1])
  }

  predicate AsksSetup(x: Input) {
    x.event.Some? && x.event.value.DeviceStarted? && x.event.value.mode == Setup
  }

  /** A pipe status with the TX pipe open has come since the last CONNECTED. */
  ghost predicate TxSeen(run: seq<Input>) {
    exists i :: 0 <= i < |run| && IsTxStatus(run[i]) && forall j :: i < j < |run| ==> !IsConnected(run[j])
  }

  /** A write of `byte` to the control point, while it can be answered. */
  predicate ControlWrite(open: set<nat>, x: Input, byte: Byte) {
    && x.event.Some? && x.event.value.DataReceived? && x.event.value.pipe == 10
    && 9 in open && |x.event.value.data| == 22 && x.event.value.data[0] == byte
  }

  /** The input makes the application send `c`, which is not the hello, when the pipes `open` are
      open and `seen` says whether the timing request has been made. */
  predicate Asks(open: set<nat>, seen: bool, x: Input, c: Command) {
    && x.room >= 1 && x.event.Some?
    && var e := x.event.value;
       match c
       case Advertise => e.Disconnected? || e.HwError? || (e.DeviceStarted? && e.mode == Standby && !e.hwError)
       case GetVersion => e.Connected?
       case SetLocalData(pipe) => (pipe == 11 && e.Timing?) || (pipe == 2 && e.CmdRsp? && e.isVersion)
       case Terminate => ControlWrite(open, x, 1)
       case ChangeTiming(min, max, latency, timeout) =>
         && ControlWrite(open, x, 2)
         && min == e.data[1] as int + 256 * e.data[2] as int
         && max == e.data[3] as int + 256 * e.data[4] as int
         && latency == e.data[5] as int + 256 * e.data[6] as int
         && timeout == e.data[7] as int + 256 * e.data[8] as int
       case ChangeTimingGapPpcp => e.PipeStatus? && 8 in e.open && !seen
       case SendHello => false
  }

  lemma TurnOpens(s: State, x: Input)
    requires Admissible(x)
    ensures Turn(s, x).state.open ==
              match x.event
              case Some(PipeStatus(open)) => open
              case Some(Disconnected) => {}
              case Some(DataReceived(pipe, _, data)) =>
                if pipe == 10 && 9 in s.open && |data| > 0 && data[0] == 1 && x.room >= 1 then {} else s.open
              case _ => s.open
  {
    hide Accepted;
  }

  /** The open pipes and the total of credits are functions of the inputs. */
  lemma {:induction false} StateIsHistory(run: seq<Input>)
    requires AllAdmissible(run)
    ensures After(run).open == PipesAfter(run) && After(run).total == TotalAfter(run)
    decreases |run|
  {
    hide Turn;
    if run != [] {
      var n := |run| - 1;
      StateIsHistory(run[..n]);
      TurnOpens(After(run[..n]), run[n]);
      TurnSetsUp(After(run[..n]), run[n]);
    }
  }

  ghost predicate SetupWanted(run: seq<Input>) {
    exists i :: SetupSince(run, i)
  }

  /** The device started in setup mode at `i`, and its setup has not succeeded since. */
  ghost predicate SetupSince(run: seq<Input>, i: int) {
    0 <= i < |run| && AsksSetup(run[i]) && forall j :: i <= j < |run| ==> !run[j].setupOk
  }

  /** A setup is pending exactly when the device has asked for one and none has succeeded since. */
  lemma {:induction false} SetupIsHistory(run: seq<Input>)
    requires AllAdmissible(run)
    ensures After(run).setupRequired <==> SetupWanted(run)
    decreases |run|
  {
    hide Turn, SetupWanted, AsksSetup;
    if run == [] {
      NoSetup();
    } else {
      var n := |run| - 1;
      SetupIsHistory(run[..n]);
      TurnSetsUp(After(run[..n]), run[n]);
      SetupGoesOn(run);
    }
  }

  lemma NoSetup()
    ensures !SetupWanted([])
  {
  }

  lemma SetupGoesOn(run: seq<Input>)
    requires run != []
    ensures var n := |run| - 1;
            SetupWanted(run) <==> (SetupWanted(run[..n]) || AsksSetup(run[n])) && !run[n].setupOk
  {
    hide AsksSetup;
    var n := |run| - 1;
    var before := run[..n];
    if SetupWanted(before) && !run[n].setupOk {
      var i :| SetupSince(before, i);
      assert forall j :: i <= j < n ==> run[j] == before[j];
      assert SetupSince(run, i);
    }
    if AsksSetup(run[n]) && !run[n].setupOk {
      assert SetupSince(run, n);
    }
    if SetupWanted(run) {
      var i :| SetupSince(run, i);
      if i < n {
        assert forall j :: i <= j < n ==> run[j] == before[j];
        assert SetupSince(before, i);
      }
    }
  }

  lemma TurnSetsUp(s: State, x: Input)
    requires Admissible(x)
    ensures Turn(s, x).state.total ==
              if x.event.Some? && x.event.value.DeviceStarted? then x.event.value.credits else s.total
    ensures Turn(s, x).state.setupRequired <==> (s.setupRequired || AsksSetup(x)) && !x.setupOk
  {
    hide Accepted;
  }

  lemma TurnIsAsked(s: State, x: Input, c: Command)
    requires Admissible(x) && c != SendHello
    ensures var cmds := Turn(s, x).sent;
            |cmds| == 0 || |cmds| == 1 || cmds == [ChangeTimingGapPpcp, SendHello]
    ensures c in Turn(s, x).sent <==> Asks(s.open, s.timingDone, x, c)
  {
  }

  /** One turn sends a command other than the hello once if its input asks for it, and else not. */
  lemma TurnAnswers(s: State, x: Input, c: Command)
    requires Admissible(x) && c != SendHello
    ensures Count(Turn(s, x).sent, c) == if Asks(s.open, s.timingDone, x, c) then 1 else 0
  {
    hide Count, Turn, Asks;
    var cmds := Turn(s, x).sent;
    TurnIsAsked(s, x, c);
    CountNone(c);
    if |cmds| == 1 {
      CountShort(cmds[0], cmds[0], c);
      assert cmds == [cmds[0]];
    } else if |cmds| == 2 {
      CountShort(cmds[0], cmds[1], c);
    }
  }

  /** How many turns of a run ask for `c`. */
  ghost function AskedFor(run: seq<Input>, c: Command): nat {
    if run == [] then 0
    else
      var before := run[..|run| - 1];
      AskedFor(before, c) + if Asks(PipesAfter(before), TxSeen(before), run[|run| - 1], c) then 1 else 0
  }

  /** Every command but the hello is sent exactly as often as the inputs ask for it. */
  lemma {:induction false} CommandsAnswerEvents(run: seq<Input>, c: Command)
    requires AllAdmissible(run) && c != SendHello
    ensures Count(Transcript(run), c) == AskedFor(run, c)
    decreases |run|
  {
    hide Turn, Count, Asks, TxSeen;
    if run == [] {
      CountNone(c);
    } else {
      var n := |run| - 1;
      var before := run[..n];
      CommandsAnswerEvents(before, c);
      CountConcat(Transcript(before), Turn(After(before), run[n]).sent, c);
      StateIsHistory(before);
      assert After(before).timingDone <==> TxSeen(before) by { SeenIsDone(before); }
      TurnAnswers(After(before), run[n], c);
    }
  }

  lemma SeenIsDone(run: seq<Input>)
    requires AllAdmissible(run)
    ensures After(run).timingDone <==> TxSeen(run)
  {
    hide After;
    TimingDoneIsHistory(run);
  }

  // ---------- Credits ----------

  /** The total in force when the current credit epoch began; 0 before the first one. */
  function Captured(run: seq<Input>): Byte
    requires AllAdmissible(run)
  {
    if run == [] then 0
    else
      var n := |run| - 1;
      if StartsEpoch(run[n]) then After(run[..n]).total else Captured(run[..n])
  }

  /** Packets the device holds, by its own account: those handed over since the epoch began less
      the credits it gave back. */
  function Outstanding(run: seq<Input>): int
    requires AllAdmissible(run)
  {
    if run == [] then 0
    else
      var n := |run| - 1;
      if StartsEpoch(run[n]) then 0
      else Outstanding(run[..n]) + Count(SentBy(run, n), SendHello) - Returned(run[n])
  }

  function SentBy(run: seq<Input>, n: nat): seq<Command>
    requires AllAdmissible(run) && n < |run|
  {
    Turn(After(run[..n]), run[n]).sent
  }

  /** Credits an event gives back. A peer's ATT error gives none. */
  function Returned(x: Input): nat {
    if x.event.Some? && x.event.value.DataCredit? then x.event.value.credit
    else if x.event.Some? && x.event.value.PipeError? && x.event.value.code != 0x92 then 1
    else 0
  }

  /** The device never returns more credits than it holds packets. */
  ghost predicate Honest(run: seq<Input>)
    requires AllAdmissible(run)
    decreases |run|
  {
    run == [] || (Honest(run[..|run| - 1]) && Returned(run[|run| - 1]) <= Outstanding(run[..|run| - 1]))
  }

  lemma EpochStep(s: State, x: Input)
    requires Admissible(x) && StartsEpoch(x)
    ensures Turn(s, x).state.available == s.total
  {
  }

  /** What one turn does to the credits within an epoch. */
  lemma CreditStep(s: State, x: Input)
    requires Admissible(x)
    ensures !StartsEpoch(x) && s.available + Returned(x) < 256 ==>
              Turn(s, x).state.available == s.available + Returned(x) - Count(Turn(s, x).sent, SendHello)
  {
    hide Count, Accepted;
    TurnSends(s, x);
  }

  /** Credits are conserved: in every run with an honest device, since the last CONNECTED or
      DISCONNECTED the available credits and the outstanding packets add up to the total captured
      there. So the counter never wraps, and never exceeds that total. */
  lemma {:induction false} CreditsConserved(run: seq<Input>)
    requires AllAdmissible(run) && Honest(run)
    ensures After(run).available + Outstanding(run) == Captured(run)
    ensures 0 <= Outstanding(run) && After(run).available <= Captured(run)
    decreases |run|
  {
    hide Turn, Count;
    if run != [] {
      var n := |run| - 1;
      CreditsConserved(run[..n]);
      if StartsEpoch(run[n]) {
        EpochStep(After(run[..n]), run[n]);
      } else {
        CreditStep(After(run[..n]), run[n]);
      }
    }
  }

  /** Honesty is needed: one credit too many, short of a wrap of the counter, and the available
      credits exceed the total. */
  lemma DishonestDeviceBreaks(run: seq<Input>, x: Input)
    requires AllAdmissible(run + [x]) && AllAdmissible(run) && Honest(run)
    requires Returned(x) > Outstanding(run) && After(run).available + Returned(x) < 256
    ensures After(run + [x]).available > Captured(run + [x])
  {
    hide Turn, Count;
    assert (run + [x])[..|run|] == run && (run + [x])[|run|] == x;
    CreditsConserved(run);
    CreditStep(After(run), x);
    assert !StartsEpoch(x);
    NoHelloOnReturn(After(run), x);
  }

  lemma NoHelloOnReturn(s: State, x: Input)
    requires Admissible(x) && Returned(x) > 0
    ensures Count(Turn(s, x).sent, SendHello) == 0
  {
    TurnSends(s, x);
  }

  /** Until the hello is sent the device holds nothing. */
  lemma {:induction false} NothingOutstandingBeforeHello(run: seq<Input>)
    requires AllAdmissible(run) && Honest(run) && !After(run).timingDone
    ensures Outstanding(run) == 0
    decreases |run|
  {
    hide Turn, Count;
    if run != [] {
      var n := |run| - 1;
      FlagStep(After(run[..n]), run[n]);
      CreditsConserved(run);
      if !StartsEpoch(run[n]) {
        NothingOutstandingBeforeHello(run[..n]);
        TurnSends(After(run[..n]), run[n]);
      }
    }
  }

  /** The first pipe status that opens the TX pipe after a CONNECTED always finds every credit
      of the epoch: the hello goes out exactly when the total captured is at least 1 and the
      command queue takes two commands. With one free place the timing request takes it, the
      hello is lost, and the flag keeps it from being tried again on this connection. */
  lemma HelloFindsCredit(run: seq<Input>, x: Input)
    requires AllAdmissible(run) && Admissible(x) && Honest(run)
    requires IsTxStatus(x) && !After(run).timingDone
    ensures After(run).available == Captured(run)
    ensures Count(Turn(After(run), x).sent, SendHello) == 1 <==> Captured(run) >= 1 && x.room >= 2
    ensures Turn(After(run), x).state.timingDone
  {
    CreditsConserved(run);
    NothingOutstandingBeforeHello(run);
    TurnSends(After(run), x);
  }

  // ---------- Before the first CONNECTED ----------

  /** Turn `i` of a run that has not connected yet sends a data packet. */
  predicate SendsDataAt(run: seq<Input>, i: nat)
    requires AllAdmissible(run) && i < |run|
  {
    Count(SentBy(run, i), SendHello) >= 1
  }

  ghost predicate FirstTxStatus(run: seq<Input>, i: nat) {
    i < |run| && IsTxStatus(run[i]) && forall j :: 0 <= j < i ==> !IsTxStatus(run[j])
  }

  lemma HonestPrefix(run: seq<Input>, i: nat)
    requires AllAdmissible(run) && Honest(run) && i <= |run|
    ensures Honest(run[..i])
    decreases |run|
  {
    if i < |run| {
      assert run[..|run| - 1][..i] == run[..i];
      HonestPrefix(run[..|run| - 1], i);
    } else {
      assert run[..i] == run;
    }
  }

  lemma NotDoneBeforeTxStatus(run: seq<Input>)
    requires AllAdmissible(run) && forall j :: 0 <= j < |run| ==> !IsTxStatus(run[j])
    ensures !After(run).timingDone
  {
    TimingDoneIsHistory(run);
  }

  /** In a run that never connects, a turn sends data exactly when it is the first pipe status
      with the TX pipe open, the queue takes two commands, and a DISCONNECTED before it has
      handed out at least one credit. */
  lemma DataBeforeConnectedIff(run: seq<Input>, i: nat)
    requires AllAdmissible(run) && Honest(run) && i < |run|
    requires forall j :: 0 <= j < |run| ==> !IsConnected(run[j])
    ensures SendsDataAt(run, i) <==> FirstTxStatus(run, i) && Captured(run[..i]) >= 1 && run[i].room >= 2
  {
    hide Turn, Count, Captured;
    var before := run[..i];
    HonestPrefix(run, i);
    TurnSends(After(before), run[i]);
    FlagStep(After(before), run[i]);
    TimingDoneIsHistory(before);
    if FirstTxStatus(run, i) {
      NotDoneBeforeTxStatus(before);
      HelloFindsCredit(before, run[i]);
    } else if IsTxStatus(run[i]) {
      var j :| 0 <= j < i && IsTxStatus(run[j]);
      LastTxStatus(before, j);
    }
  }

  lemma LastTxStatus(run: seq<Input>, j: nat)
    requires AllAdmissible(run) && j < |run| && IsTxStatus(run[j])
    requires forall k :: 0 <= k < |run| ==> !IsConnected(run[k])
    ensures After(run).timingDone
  {
    TimingDoneIsHistory(run);
  }

  /** The library resets the credits on DISCONNECTED too, so a data packet can be sent although
      no CONNECTED has ever come: a start, a DISCONNECTED, a pipe status. */
  lemma DataWithoutConnection() returns (run: seq<Input>)
    ensures AllAdmissible(run) && Honest(run) && |run| == 3
    ensures forall j :: 0 <= j < |run| ==> !IsConnected(run[j])
    ensures SendsDataAt(run, 2)
  {
    var a := Input(Some(DeviceStarted(Standby, false, 2)), 3, false);
    var b := Input(Some(Disconnected), 3, false);
    var c := Input(Some(PipeStatus({UART_TX})), 3, false);
    run := [a, b, c];
    assert run[..2] == [a, b] && [a, b][..1] == [a] && [a][..0] == [];
    assert After([a]) == Turn(START, a).state;
    assert After([a, b]) == Turn(After([a]), b).state;
    assert Captured([a, b]) == After([a]).total == 2;
    assert Honest([]) && Honest([a]) && Honest([a, b]) && Honest(run);
    DataBeforeConnectedIff(run, 2);
  }
}
