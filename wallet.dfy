/** The Zcash transaction submitter (wallet_proxy/main.go): it takes the
    transaction from the command line, encodes it once into a request, and
    then reacts to proxy events: every "connected" event sends the request to
    the `zcash` service, a "disconnected" or "message sent" event shuts the
    proxy down and exits with status 0, a send error or an event of an
    unknown type panics, and the other events are ignored.

    The proxy and the JSON encoder are outside the model: `sendOks[i]` says
    whether the send made for event i succeeds, and `encode` stands for the
    encoder. The loop records the proxy calls it makes. */
module Wallet {
  import opened Wrappers
  import opened Events
  import opened Traces

  const ZcashSendVersion: int := 0
  const SenderId: string := "anonymous"
  const ProviderId: string := "provider2"
  const ServiceId: string := "zcash"
  const ServiceProvider: string := "zcash1"

  /** The account the request is sent from, `SenderId@ProviderId`. */
  const SenderAccount: string := SenderId + "@" + ProviderId

  /** The record that is encoded into the request payload. */
  datatype SendRequest = SendRequest(version: int, tx: string)

  /** Why the program panics. */
  datatype PanicReason = Usage | SendFailed | UnhandledEvent

  /** Running: still waiting for events; Exited: os.Exit was called;
      Panicked: the program panicked. */
  datatype Status = Running | Exited(code: int) | Panicked(reason: PanicReason)

  /** A call into the proxy. */
  datatype Call =
    | SendKaetzchenRequest(sender: string, service: string, provider: string, payload: Bytes, wantResponse: bool)
    | Shutdown

  datatype Run = Run(calls: seq<Call>, status: Status) {
    /** This run, after the calls `earlier` were made. */
    function After(earlier: seq<Call>): Run {
      Run(earlier + calls, status)
    }
  }

  lemma AfterAfter(r: Run, a: seq<Call>, b: seq<Call>)
    ensures r.After(b).After(a) == r.After(a + b)
  {
    assert a + (b + r.calls) == (a + b) + r.calls;
  }

  /** The request built from the command line `args` (program name first):
      exactly one argument, the transaction in hex, is accepted. */
  function MakeRequest(args: seq<string>): (r: Result<SendRequest>)
    ensures r.Ok? <==> |args| == 2
    ensures r.Ok? ==> r.value.version == 0 && r.value.tx == args[1]
  {
    if |args| != 2 then Err("must specify tx hex blob as the only argument")
    else Ok(SendRequest(ZcashSendVersion, args[1]))
  }

  /** The request call every "connected" event makes with the payload `out`. */
  function Request(out: Bytes): Call {
    SendKaetzchenRequest(SenderAccount, ServiceId, ServiceProvider, out, false)
  }

  /** The handling of one event when the send it may make succeeds iff `sendOk`. */
  function Dispatch(ev: Event, out: Bytes, sendOk: bool): Run {
    match ev
    case ConnectionStatus(isConnected) =>
      if isConnected then Run([Request(out)], if sendOk then Running else Panicked(SendFailed))
      else Run([Shutdown], Exited(0))
    case MessageSent(_) => Run([Shutdown], Exited(0))
    case MessageReceived => Run([], Running)
    case KaetzchenReply(_) => Run([], Running)
    case Unrecognized => Run([], Panicked(UnhandledEvent))
  }

  /** The calls the event loop makes on the events from position `from` on,
      and where it ends. */
  function Submit(events: seq<Event>, sendOks: seq<bool>, out: Bytes, from: nat): Run
    requires |sendOks| == |events| && from <= |events|
    decreases |events| - from
  {
    if from == |events| then Run([], Running)
    else
      var h := Dispatch(events[from], out, sendOks[from]);
      if h.status != Running then h
      else Submit(events, sendOks, out, from + 1).After(h.calls)
  }

  /** The whole program after flag parsing, configuration and proxy start. */
  function Session(args: seq<string>, events: seq<Event>, sendOks: seq<bool>,
                   encode: SendRequest -> Bytes): Run
    requires |sendOks| == |events|
  {
    match MakeRequest(args)
    case Err(_) => Run([], Panicked(Usage))
    case Ok(req) => Submit(events, sendOks, encode(req), 0)
  }

  /** The event ends the program: a disconnection, a confirmed send, an
      unknown event, or a connection whose send fails. */
  predicate Ends(ev: Event, sendOk: bool) {
    || ev == ConnectionStatus(false)
    || ev.MessageSent?
    || ev.Unrecognized?
    || (ev == ConnectionStatus(true) && !sendOk)
  }

  /** The position just after the first event at or after `from` that ends
      the program, or the number of events if none does: how far the loop
      reads. */
  function Consumed(events: seq<Event>, sendOks: seq<bool>, from: nat): (n: nat)
    requires |sendOks| == |events| && from <= |events|
    ensures from <= n <= |events|
    ensures n == |events| || (from < n && Ends(events[n - 1], sendOks[n - 1]))
    ensures forall j :: from <= j < n - 1 ==> !Ends(events[j], sendOks[j])
    ensures n == |events| && (n == from || !Ends(events[n - 1], sendOks[n - 1])) ==>
      forall j :: from <= j < |events| ==> !Ends(events[j], sendOks[j])
    decreases |events| - from
  {
    if from == |events| then from
    else if Ends(events[from], sendOks[from]) then from + 1
    else Consumed(events, sendOks, from + 1)
  }

  /** Number of "connected" events at positions `lo` to `hi - 1`. */
  function Connected(events: seq<Event>, lo: nat, hi: nat): nat
    requires lo <= hi <= |events|
    decreases hi - lo
  {
    if lo == hi then 0
    else (if events[lo] == ConnectionStatus(true) then 1 else 0) + Connected(events, lo + 1, hi)
  }

  lemma {:induction false} ConnectedExtend(events: seq<Event>, lo: nat, hi: nat)
    requires lo <= hi < |events|
    ensures Connected(events, lo, hi + 1) ==
      Connected(events, lo, hi) + (if events[hi] == ConnectionStatus(true) then 1 else 0)
    decreases hi - lo
  {
    if lo < hi {
      ConnectedExtend(events, lo + 1, hi);
    }
  }

  predicate IsSend(c: Call) { c.SendKaetzchenRequest? }
  predicate IsShutdown(c: Call) { c.Shutdown? }

  /** The type switch over one event: the calls it makes, the status it
      leaves the program in, and whether it sent the request. */
  method HandleEvent(ev: Event, out: Bytes, sendOk: bool)
    returns (made: seq<Call>, next: Status, sent: bool)
    ensures Run(made, next) == Dispatch(ev, out, sendOk)
    ensures sent <==> ev == ConnectionStatus(true)
  {
    made, next, sent := [], Running, false;
    match ev {
      case ConnectionStatus(isConnected) =>
        if isConnected {
          made, sent := [SendKaetzchenRequest(SenderAccount, ServiceId, ServiceProvider, out, false)], true;
          if !sendOk {
            next := Panicked(SendFailed);
          }
        } else {
          made, next := [Shutdown], Exited(0);
        }
      case MessageSent(_) =>
        made, next := [Shutdown], Exited(0);
      case MessageReceived =>
      case KaetzchenReply(_) =>
      case Unrecognized =>
        next := Panicked(UnhandledEvent);
    }
  }

  /** One turn of the event loop: the event at `i` is handled after the calls
      `calls`; either the program ends there, or it goes on with the events
      after it. */
  lemma LoopStep(events: seq<Event>, sendOks: seq<bool>, out: Bytes, i: nat,
                 calls: seq<Call>, made: seq<Call>, next: Status)
    requires |sendOks| == |events| && i < |events|
    requires Submit(events, sendOks, out, 0) == Submit(events, sendOks, out, i).After(calls)
    requires Consumed(events, sendOks, 0) == Consumed(events, sendOks, i)
    requires Run(made, next) == Dispatch(events[i], out, sendOks[i])
    ensures next != Running ==>
      Submit(events, sendOks, out, 0) == Run(calls + made, next) && Consumed(events, sendOks, 0) == i + 1
    ensures next == Running ==>
      && Submit(events, sendOks, out, 0) == Submit(events, sendOks, out, i + 1).After(calls + made)
      && Consumed(events, sendOks, 0) == Consumed(events, sendOks, i + 1)
  {
    SubmitStep(events, sendOks, out, i, made, next);
    if next == Running {
      AfterAfter(Submit(events, sendOks, out, i + 1), calls, made);
    }
  }

  /** One step of Submit: the event at `i` is handled, then, if the program
      goes on, the events after it. */
  lemma SubmitStep(events: seq<Event>, sendOks: seq<bool>, out: Bytes, i: nat, made: seq<Call>, next: Status)
    requires |sendOks| == |events| && i < |events|
    requires Run(made, next) == Dispatch(events[i], out, sendOks[i])
    ensures next != Running <==> Ends(events[i], sendOks[i])
    ensures next != Running ==> Submit(events, sendOks, out, i) == Run(made, next)
    ensures next == Running ==> Submit(events, sendOks, out, i) == Submit(events, sendOks, out, i + 1).After(made)
  {
  }

  /** The event loop, sending the payload `out` on every "connected" event;
      `sends` counts the requests sent, one for each "connected" event the
      loop reads. */
  method EventLoop(events: seq<Event>, sendOks: seq<bool>, out: Bytes)
    returns (calls: seq<Call>, status: Status, sends: nat)
    requires |sendOks| == |events|
    ensures Run(calls, status) == Submit(events, sendOks, out, 0)
    ensures sends == Connected(events, 0, Consumed(events, sendOks, 0))
  {
    calls, status, sends := [], Running, 0;
    var i := 0;
    while i < |events|
      invariant 0 <= i <= |events|
      invariant Submit(events, sendOks, out, 0) == Submit(events, sendOks, out, i).After(calls)
      invariant Consumed(events, sendOks, 0) == Consumed(events, sendOks, i)
      invariant sends == Connected(events, 0, i)
    {
      var made, next, sent := HandleEvent(events[i], out, sendOks[i]);
      LoopStep(events, sendOks, out, i, calls, made, next);
      ConnectedExtend(events, 0, i);
      if sent {
        sends := sends + 1;
      }
      calls := calls + made;
      if next != Running {
        status := next;
        return;
      }
      i := i + 1;
    }
  }

  /** The program: argument check, request encoding once, then the event loop. */
  method WalletMain(args: seq<string>, events: seq<Event>, sendOks: seq<bool>,
                    encode: SendRequest -> Bytes)
    returns (calls: seq<Call>, status: Status, sends: nat)
    requires |sendOks| == |events|
    ensures Run(calls, status) == Session(args, events, sendOks, encode)
    ensures |args| == 2 ==> sends == Connected(events, 0, Consumed(events, sendOks, 0))
    ensures |args| != 2 ==> sends == 0
  {
    if |args| != 2 {
      calls, status, sends := [], Panicked(Usage), 0;
      return;
    }
    var hexTx := args[1];
    var req := SendRequest(ZcashSendVersion, hexTx);
    var out: Bytes := [];
    out := encode(req);
    calls, status, sends := EventLoop(events, sendOks, out);
  }

  /* Properties of the loop, stated on Submit and Session. */

  /** Every "connected" event the loop reads sends the request once more:
      nothing remembers an earlier send. */
  lemma {:induction false} SendPerConnected(events: seq<Event>, sendOks: seq<bool>, out: Bytes, from: nat)
    requires |sendOks| == |events| && from <= |events|
    ensures Tally(Submit(events, sendOks, out, from).calls, IsSend) ==
      Connected(events, from, Consumed(events, sendOks, from))
    decreases |events| - from
  {
    if from < |events| {
      var h := Dispatch(events[from], out, sendOks[from]);
      SubmitStep(events, sendOks, out, from, h.calls, h.status);
      if h.status == Running {
        SendPerConnected(events, sendOks, out, from + 1);
        TallyAppend(h.calls, Submit(events, sendOks, out, from + 1).calls, IsSend);
      }
    }
  }

  /** Every request the loop sends is the same call: from `anonymous@provider2`
      to the `zcash` service at `zcash1`, with the payload `out`, no reply
      wanted. */
  lemma {:induction false} EverySendIsTheRequest(events: seq<Event>, sendOks: seq<bool>, out: Bytes, from: nat)
    requires |sendOks| == |events| && from <= |events|
    ensures var calls := Submit(events, sendOks, out, from).calls;
      forall k :: 0 <= k < |calls| && calls[k].SendKaetzchenRequest? ==>
        calls[k] == SendKaetzchenRequest("anonymous@provider2", "zcash", "zcash1", out, false)
    decreases |events| - from
  {
    assert SenderAccount == "anonymous@provider2";
    if from < |events| {
      var h := Dispatch(events[from], out, sendOks[from]);
      SubmitStep(events, sendOks, out, from, h.calls, h.status);
      if h.status == Running {
        EverySendIsTheRequest(events, sendOks, out, from + 1);
      }
    }
  }

  /** The payload is the encoding of version 0 and the command-line
      transaction, made once before the loop and the same in every send. */
  lemma SessionPayload(args: seq<string>, events: seq<Event>, sendOks: seq<bool>,
                       encode: SendRequest -> Bytes)
    requires |sendOks| == |events| && |args| == 2
    ensures var calls := Session(args, events, sendOks, encode).calls;
      forall k :: 0 <= k < |calls| && calls[k].SendKaetzchenRequest? ==>
        calls[k].payload == encode(SendRequest(0, args[1]))
  {
    assert Session(args, events, sendOks, encode) == Submit(events, sendOks, encode(SendRequest(0, args[1])), 0);
    EverySendIsTheRequest(events, sendOks, encode(SendRequest(0, args[1])), 0);
  }

  /** A command line without exactly one argument panics before any proxy call. */
  lemma UsagePanics(args: seq<string>, events: seq<Event>, sendOks: seq<bool>,
                    encode: SendRequest -> Bytes)
    requires |sendOks| == |events| && |args| != 2
    ensures Session(args, events, sendOks, encode) == Run([], Panicked(Usage))
  {
  }

  /** The loop runs on exactly when no event ends it; otherwise the event that
      ends it decides the status: a disconnection or a confirmed send exits
      with 0, a failed send or an unknown event panics. */
  lemma {:induction false} HowItEnds(events: seq<Event>, sendOks: seq<bool>, out: Bytes, from: nat)
    requires |sendOks| == |events| && from <= |events|
    ensures var r := Submit(events, sendOks, out, from);
      var n := Consumed(events, sendOks, from);
      && (r.status == Running <==> forall j :: from <= j < |events| ==> !Ends(events[j], sendOks[j]))
      && (r.status != Running ==>
            && from < n
            && (r.status == Exited(0) <==> events[n - 1] == ConnectionStatus(false) || events[n - 1].MessageSent?)
            && (r.status == Panicked(SendFailed) <==> events[n - 1] == ConnectionStatus(true))
            && (r.status == Panicked(UnhandledEvent) <==> events[n - 1].Unrecognized?))
    decreases |events| - from
  {
    if from < |events| {
      var h := Dispatch(events[from], out, sendOks[from]);
      SubmitStep(events, sendOks, out, from, h.calls, h.status);
      if h.status == Running {
        HowItEnds(events, sendOks, out, from + 1);
      }
    }
  }

  /** The program exits only with status 0, and then its last call, and its
      only Shutdown, is the Shutdown made just before the exit; a panic or a
      loop still running has made no Shutdown. */
  lemma {:induction false} ShutdownBeforeExit(events: seq<Event>, sendOks: seq<bool>, out: Bytes, from: nat)
    requires |sendOks| == |events| && from <= |events|
    ensures var r := Submit(events, sendOks, out, from);
      && (r.status.Exited? ==> r.status.code == 0 && |r.calls| > 0 && r.calls[|r.calls| - 1] == Shutdown)
      && Tally(r.calls, IsShutdown) == (if r.status.Exited? then 1 else 0)
    decreases |events| - from
  {
    if from < |events| {
      var h := Dispatch(events[from], out, sendOks[from]);
      SubmitStep(events, sendOks, out, from, h.calls, h.status);
      if h.status == Running {
        ShutdownBeforeExit(events, sendOks, out, from + 1);
        TallyAppend(h.calls, Submit(events, sendOks, out, from + 1).calls, IsShutdown);
      }
    }
  }

  /** MessageReceived and KaetzchenReply events are passed over. */
  lemma IgnoredEvents(events: seq<Event>, sendOks: seq<bool>, out: Bytes, from: nat)
    requires |sendOks| == |events| && from < |events|
    requires events[from] == MessageReceived || events[from].KaetzchenReply?
    ensures Submit(events, sendOks, out, from) == Submit(events, sendOks, out, from + 1)
  {
    assert Submit(events, sendOks, out, from + 1).After([]) == Submit(events, sendOks, out, from + 1);
  }

  /** Disconnected before any send: shut down, exit 0, nothing sent. */
  lemma DisconnectExits(out: Bytes, ok: bool)
    ensures Submit([ConnectionStatus(false)], [ok], out, 0) == Run([Shutdown], Exited(0))
  {
  }

  /** Connected then confirmed: one send, shut down, exit 0. */
  lemma SendThenConfirm(out: Bytes, id: Bytes, ok: bool)
    ensures Submit([ConnectionStatus(true), MessageSent(id)], [true, ok], out, 0) ==
      Run([Request(out), Shutdown], Exited(0))
  {
    assert Submit([ConnectionStatus(true), MessageSent(id)], [true, ok], out, 1) == Run([Shutdown], Exited(0));
  }

  /** A "message sent" event exits 0 even when nothing was sent. */
  lemma ConfirmWithoutSend(out: Bytes, id: Bytes, ok: bool)
    ensures Submit([MessageSent(id)], [ok], out, 0) == Run([Shutdown], Exited(0))
  {
  }

  /** Connected then an unknown event: one send, then a panic. */
  lemma SendThenUnknownPanics(out: Bytes, ok: bool)
    ensures Submit([ConnectionStatus(true), Unrecognized], [true, ok], out, 0) ==
      Run([Request(out)], Panicked(UnhandledEvent))
  {
    assert Submit([ConnectionStatus(true), Unrecognized], [true, ok], out, 1) == Run([], Panicked(UnhandledEvent));
  }

  /** A failed send panics right after the send. */
  lemma SendFailurePanics(out: Bytes)
    ensures Submit([ConnectionStatus(true)], [false], out, 0) == Run([Request(out)], Panicked(SendFailed))
  {
  }

  /** Two "connected" events send the request twice: there is no guard
      against a second send. */
  lemma ReconnectSendsAgain(out: Bytes)
    ensures Submit([ConnectionStatus(true), ConnectionStatus(true)], [true, true], out, 0) ==
      Run([Request(out), Request(out)], Running)
  {
    var events := [ConnectionStatus(true), ConnectionStatus(true)];
    assert Submit(events, [true, true], out, 2) == Run([], Running);
    assert Submit(events, [true, true], out, 1) == Run([Request(out)], Running);
  }
}
