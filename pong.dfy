/** The autoresponder (pong/main.go): a loop that takes one input at a time,
    answers every MessageReceived event by fetching the waiting message,
    reading its `From` header and sending a fixed reply to the address in it,
    and shuts the proxy down on a termination signal.

    The proxy and the message parser are outside the model: what they answer
    for the input at position i is given by `outcomes[i]` and by `readFrom`,
    and the loop records the proxy calls it makes. */
module Pong {
  import opened Wrappers
  import opened Events
  import Address
  import opened Traces

  /** An account of the configuration: user name and provider. */
  datatype Account = Account(user: string, provider: string)

  /** The address `user@provider` of an account. */
  function AccountName(a: Account): string {
    a.user + ['@'] + a.provider
  }

  /** Distinct accounts whose user names hold no `@` have distinct addresses. */
  lemma AccountNameInjective(a: Account, b: Account)
    requires '@' !in a.user && '@' !in b.user
    ensures AccountName(a) == AccountName(b) <==> a == b
  {
    if AccountName(a) == AccountName(b) {
      var s := AccountName(a);
      assert s[|a.user|] == '@' && s[..|a.user|] == a.user;
      assert AccountName(b)[|b.user|] == '@' && AccountName(b)[..|b.user|] == b.user;
      assert a.user == b.user;
      assert a.provider == s[|a.user| + 1..];
    }
  }

  const Subject: string := "important announcement"
  const Body: string := "the quick brown fox jumped\nover the lazy brown dog"

  /** The reply message: the fields the Go template fills in, before they are
      formatted into text. */
  datatype Reply = Reply(date: nat, subject: string, from: string, to: string, body: string)

  /** The reply to a message whose `From` header is `sender`, written at `now`
      by the account `accountName`. */
  function ComposeReply(now: nat, accountName: string, sender: string): Reply {
    Reply(now, Subject, accountName, sender, Body)
  }

  /** An input to the loop: a termination signal or an event of the proxy. */
  datatype Input = Signal | Delivered(event: Event)

  /** What the outside world answers while one input is handled: the message
      ReceivePop returns (None when it fails), the clock, and the message id
      SendMessage returns (None when it fails). */
  datatype Outcome = Outcome(popped: Option<Bytes>, now: nat, sent: Option<Bytes>)

  /** A call into the proxy. */
  datatype Call =
    | ReceivePop(account: string)
    | SendMessage(sender: string, recipient: string, reply: Reply)
    | Shutdown

  /** Listening: still waiting for input; Stopped: returned after a signal;
      Crashed: indexed an empty account list (a Go panic). */
  datatype Status = Listening | Stopped | Crashed

  datatype Run = Run(calls: seq<Call>, status: Status) {
    /** This run, after the calls `earlier` were made. */
    function After(earlier: seq<Call>): Run {
      Run(earlier + calls, status)
    }
  }

  lemma AfterAfter(r: Run, a: seq<Call>, b: seq<Call>)
    ensures r.After(b).After(a) == r.After(a + b)
  {
    assert a + (b + r.calls) == (a + b) + r.calls;
  }

  /** The fetched message parses and its `From` header yields an address. */
  predicate Answerable(o: Outcome, readFrom: Bytes -> Option<string>) {
    && o.popped.Some?
    && readFrom(o.popped.value).Some?
    && Address.ParseToField(readFrom(o.popped.value).value).Ok?
  }

  /** The calls made after ReceivePop for one MessageReceived event: one
      SendMessage, from the account to the extracted sender address, when
      fetch, parse and extraction all succeed, else none. */
  function ReplyCalls(name: string, o: Outcome, readFrom: Bytes -> Option<string>): seq<Call> {
    if Answerable(o, readFrom) then
      var sender := readFrom(o.popped.value).value;
      [SendMessage(name, Address.ParseToField(sender).value, ComposeReply(o.now, name, sender))]
    else []
  }

  /** The handling of one event: only MessageReceived does anything. */
  function HandleEvent(ev: Event, accounts: seq<Account>, o: Outcome,
                       readFrom: Bytes -> Option<string>): Run
  {
    match ev
    case MessageReceived =>
      if accounts == [] then Run([], Crashed)
      else
        var name := AccountName(accounts[0]);
        Run([ReceivePop(name)] + ReplyCalls(name, o, readFrom), Listening)
    case _ => Run([], Listening)
  }

  /** Events other than MessageReceived make no call. MessageReceived crashes
      when no account is configured; otherwise it makes one ReceivePop for the
      first account, then one SendMessage exactly when the message is fetched,
      parsed and yields a sender address. */
  lemma HandleEventShape(ev: Event, accounts: seq<Account>, o: Outcome, readFrom: Bytes -> Option<string>)
    ensures var r := HandleEvent(ev, accounts, o, readFrom);
      && (!ev.MessageReceived? ==> r == Run([], Listening))
      && (ev.MessageReceived? && accounts == [] ==> r == Run([], Crashed))
      && (ev.MessageReceived? && accounts != [] ==>
            && r.status == Listening
            && 1 <= |r.calls| <= 2
            && r.calls[0] == ReceivePop(AccountName(accounts[0]))
            && (|r.calls| == 2 <==> Answerable(o, readFrom))
            && (|r.calls| == 2 ==> r.calls[1].SendMessage?))
  {
  }

  /** The handling of one input: a signal shuts the proxy down and stops the loop. */
  function Step(input: Input, accounts: seq<Account>, o: Outcome, readFrom: Bytes -> Option<string>): Run {
    match input
    case Signal => Run([Shutdown], Stopped)
    case Delivered(ev) => HandleEvent(ev, accounts, o, readFrom)
  }

  /** How many calls of each kind one input makes. */
  lemma StepTallies(input: Input, accounts: seq<Account>, o: Outcome, readFrom: Bytes -> Option<string>)
    ensures var r := Step(input, accounts, o, readFrom);
      var received := input == Delivered(MessageReceived) && accounts != [];
      && Tally(r.calls, IsPop) == (if received then 1 else 0)
      && Tally(r.calls, IsSend) == (if received && Answerable(o, readFrom) then 1 else 0)
      && Tally(r.calls, IsShutdown) == (if input == Signal then 1 else 0)
  {
    var r := Step(input, accounts, o, readFrom);
    if input.Delivered? {
      HandleEventShape(input.event, accounts, o, readFrom);
      if |r.calls| == 2 {
        assert r.calls == [r.calls[0]] + [r.calls[1]];
        TallyAppend([r.calls[0]], [r.calls[1]], IsPop);
        TallyAppend([r.calls[0]], [r.calls[1]], IsSend);
        TallyAppend([r.calls[0]], [r.calls[1]], IsShutdown);
      }
    }
  }

  /** The calls the loop makes on the inputs from position `from` on, and
      where it ends. */
  function Respond(inputs: seq<Input>, outcomes: seq<Outcome>, accounts: seq<Account>,
                   readFrom: Bytes -> Option<string>, from: nat): Run
    requires |outcomes| == |inputs| && from <= |inputs|
    decreases |inputs| - from
  {
    if from == |inputs| then Run([], Listening)
    else
      var h := Step(inputs[from], accounts, outcomes[from], readFrom);
      if h.status != Listening then h
      else Respond(inputs, outcomes, accounts, readFrom, from + 1).After(h.calls)
  }

  /** One step of Respond: the input at `i` is handled, then, if the loop
      goes on, the inputs after it. */
  lemma RespondStep(inputs: seq<Input>, outcomes: seq<Outcome>, accounts: seq<Account>,
                    readFrom: Bytes -> Option<string>, i: nat, made: seq<Call>, next: Status)
    requires |outcomes| == |inputs| && i < |inputs|
    requires Run(made, next) == Step(inputs[i], accounts, outcomes[i], readFrom)
    ensures next != Listening ==> Respond(inputs, outcomes, accounts, readFrom, i) == Run(made, next)
    ensures next == Listening ==>
      Respond(inputs, outcomes, accounts, readFrom, i) == Respond(inputs, outcomes, accounts, readFrom, i + 1).After(made)
  {
  }

  /** One turn of the event loop, after the calls `calls`. */
  lemma LoopStep(inputs: seq<Input>, outcomes: seq<Outcome>, accounts: seq<Account>,
                 readFrom: Bytes -> Option<string>, i: nat, calls: seq<Call>, made: seq<Call>, next: Status)
    requires |outcomes| == |inputs| && i < |inputs|
    requires Respond(inputs, outcomes, accounts, readFrom, 0) ==
      Respond(inputs, outcomes, accounts, readFrom, i).After(calls)
    requires Run(made, next) == Step(inputs[i], accounts, outcomes[i], readFrom)
    ensures next != Listening ==> Respond(inputs, outcomes, accounts, readFrom, 0) == Run(calls + made, next)
    ensures next == Listening ==>
      Respond(inputs, outcomes, accounts, readFrom, 0) ==
        Respond(inputs, outcomes, accounts, readFrom, i + 1).After(calls + made)
  {
    RespondStep(inputs, outcomes, accounts, readFrom, i, made, next);
    if next == Listening {
      AfterAfter(Respond(inputs, outcomes, accounts, readFrom, i + 1), calls, made);
    }
  }

  /** The handling of one MessageReceived event for the account `accountName`:
      fetch, parse, extract the sender address, send the reply. A failure at
      any step ends the handling of this event; a failed send is only logged. */
  method AnswerMessage(accountName: string, o: Outcome, readFrom: Bytes -> Option<string>)
    returns (made: seq<Call>)
    ensures made == [ReceivePop(accountName)] + ReplyCalls(accountName, o, readFrom)
    ensures 1 <= |made| <= 2 && made[0] == ReceivePop(accountName)
    ensures |made| == 2 <==> Answerable(o, readFrom)
    ensures |made| == 2 ==>
      var sender := readFrom(o.popped.value).value;
      made[1] == SendMessage(accountName, Address.ParseToField(sender).value,
                             ComposeReply(o.now, accountName, sender))
  {
    made := [ReceivePop(accountName)];
    if o.popped.None? {
      return;
    }
    var header := readFrom(o.popped.value);
    if header.None? {
      return;
    }
    var sender := header.value;
    var senderId := Address.ParseToField(sender);
    if senderId.Err? {
      return;
    }
    var reply := ComposeReply(o.now, accountName, sender);
    made := made + [SendMessage(accountName, senderId.value, reply)];
  }

  /** The event loop of the autoresponder goroutine: a signal shuts the proxy
      down and ends the loop; a MessageReceived event is answered; the other
      events are only logged. */
  method Autorespond(inputs: seq<Input>, outcomes: seq<Outcome>, accounts: seq<Account>,
                     readFrom: Bytes -> Option<string>)
    returns (calls: seq<Call>, status: Status)
    requires |outcomes| == |inputs|
    ensures Run(calls, status) == Respond(inputs, outcomes, accounts, readFrom, 0)
  {
    calls, status := [], Listening;
    var i := 0;
    while i < |inputs|
      invariant 0 <= i <= |inputs|
      invariant Respond(inputs, outcomes, accounts, readFrom, 0) ==
        Respond(inputs, outcomes, accounts, readFrom, i).After(calls)
    {
      // The calls this input makes, and the status it leaves the loop in.
      var made: seq<Call>, next: Status := [], Listening;
      match inputs[i] {
        case Signal =>
          made, next := [Shutdown], Stopped;
        case Delivered(ev) =>
          if ev.MessageReceived? {
            if accounts == [] {
              next := Crashed;
            } else {
              made := AnswerMessage(AccountName(accounts[0]), outcomes[i], readFrom);
            }
          }
      }
      assert Run(made, next) == Step(inputs[i], accounts, outcomes[i], readFrom);
      LoopStep(inputs, outcomes, accounts, readFrom, i, calls, made, next);
      calls := calls + made;
      if next != Listening {
        status := next;
        return;
      }
      i := i + 1;
    }
  }

  /* Properties of the loop, stated on Respond. */

  predicate IsPop(c: Call) { c.ReceivePop? }
  predicate IsSend(c: Call) { c.SendMessage? }
  predicate IsShutdown(c: Call) { c.Shutdown? }

  /** Number of MessageReceived events from position `from` on, before the
      first signal. */
  function Received(inputs: seq<Input>, from: nat): nat
    requires from <= |inputs|
    decreases |inputs| - from
  {
    if from == |inputs| || inputs[from] == Signal then 0
    else (if inputs[from] == Delivered(MessageReceived) then 1 else 0) + Received(inputs, from + 1)
  }

  /** Number of MessageReceived events from position `from` on, before the
      first signal, whose message is fetched, parsed and yields a sender
      address. */
  function Answered(inputs: seq<Input>, outcomes: seq<Outcome>, readFrom: Bytes -> Option<string>, from: nat): nat
    requires |outcomes| == |inputs| && from <= |inputs|
    decreases |inputs| - from
  {
    if from == |inputs| || inputs[from] == Signal then 0
    else
      (if inputs[from] == Delivered(MessageReceived) && Answerable(outcomes[from], readFrom) then 1 else 0)
      + Answered(inputs, outcomes, readFrom, from + 1)
  }

  /** With an account configured, every MessageReceived event before the signal
      makes exactly one ReceivePop call, whatever happened to earlier events. */
  lemma {:induction false} OnePopPerMessage(inputs: seq<Input>, outcomes: seq<Outcome>, accounts: seq<Account>,
                                            readFrom: Bytes -> Option<string>, from: nat)
    requires |outcomes| == |inputs| && from <= |inputs| && accounts != []
    ensures Tally(Respond(inputs, outcomes, accounts, readFrom, from).calls, IsPop) == Received(inputs, from)
    decreases |inputs| - from
  {
    if from < |inputs| {
      var h := Step(inputs[from], accounts, outcomes[from], readFrom);
      RespondStep(inputs, outcomes, accounts, readFrom, from, h.calls, h.status);
      StepTallies(inputs[from], accounts, outcomes[from], readFrom);
      if h.status == Listening {
        OnePopPerMessage(inputs, outcomes, accounts, readFrom, from + 1);
        TallyAppend(h.calls, Respond(inputs, outcomes, accounts, readFrom, from + 1).calls, IsPop);
      }
    }
  }

  /** A reply is sent for exactly the MessageReceived events whose message is
      fetched, parsed and yields a sender address; a failure at any step of
      one event costs only that event its reply. */
  lemma {:induction false} OneSendPerAnswerable(inputs: seq<Input>, outcomes: seq<Outcome>, accounts: seq<Account>,
                                                readFrom: Bytes -> Option<string>, from: nat)
    requires |outcomes| == |inputs| && from <= |inputs| && accounts != []
    ensures Tally(Respond(inputs, outcomes, accounts, readFrom, from).calls, IsSend) ==
      Answered(inputs, outcomes, readFrom, from)
    decreases |inputs| - from
  {
    if from < |inputs| {
      var h := Step(inputs[from], accounts, outcomes[from], readFrom);
      RespondStep(inputs, outcomes, accounts, readFrom, from, h.calls, h.status);
      StepTallies(inputs[from], accounts, outcomes[from], readFrom);
      if h.status == Listening {
        OneSendPerAnswerable(inputs, outcomes, accounts, readFrom, from + 1);
        TallyAppend(h.calls, Respond(inputs, outcomes, accounts, readFrom, from + 1).calls, IsSend);
      }
    }
  }

  /** A call the autoresponder for the address `name` may make: a fetch for
      its own account, a reply from its own account whose `To:` header is the
      raw `From` header of the inbound message and whose recipient is the
      address extracted from that header, with the fixed subject and body, or
      a shutdown. */
  predicate Proper(c: Call, name: string) {
    match c
    case ReceivePop(account) => account == name
    case SendMessage(sender, recipient, reply) =>
      && sender == name && reply.from == name
      && Address.ParseToField(reply.to) == Ok(recipient)
      && reply.subject == Subject && reply.body == Body
    case Shutdown => true
  }

  /** Every call one input makes is proper for the first configured account. */
  lemma StepProper(input: Input, accounts: seq<Account>, o: Outcome, readFrom: Bytes -> Option<string>)
    requires accounts != []
    ensures var calls := Step(input, accounts, o, readFrom).calls;
      forall k :: 0 <= k < |calls| ==> Proper(calls[k], AccountName(accounts[0]))
  {
  }

  /** Every call the loop makes is proper for the first configured account. */
  lemma {:induction false} CallsProper(inputs: seq<Input>, outcomes: seq<Outcome>, accounts: seq<Account>,
                                       readFrom: Bytes -> Option<string>, from: nat)
    requires |outcomes| == |inputs| && from <= |inputs| && accounts != []
    ensures var calls := Respond(inputs, outcomes, accounts, readFrom, from).calls;
      forall k :: 0 <= k < |calls| ==> Proper(calls[k], AccountName(accounts[0]))
    decreases |inputs| - from
  {
    if from < |inputs| {
      var h := Step(inputs[from], accounts, outcomes[from], readFrom);
      RespondStep(inputs, outcomes, accounts, readFrom, from, h.calls, h.status);
      StepProper(inputs[from], accounts, outcomes[from], readFrom);
      if h.status == Listening {
        CallsProper(inputs, outcomes, accounts, readFrom, from + 1);
      }
    }
  }

  /** With an account configured the loop never crashes: it stops exactly
      when a signal arrives and is otherwise still listening. */
  lemma {:induction false} StopsOnlyOnSignal(inputs: seq<Input>, outcomes: seq<Outcome>, accounts: seq<Account>,
                                             readFrom: Bytes -> Option<string>, from: nat)
    requires |outcomes| == |inputs| && from <= |inputs| && accounts != []
    ensures var r := Respond(inputs, outcomes, accounts, readFrom, from);
      && (r.status == Stopped <==> Signal in inputs[from..])
      && (r.status == Listening <==> Signal !in inputs[from..])
    decreases |inputs| - from
  {
    if from < |inputs| {
      var h := Step(inputs[from], accounts, outcomes[from], readFrom);
      RespondStep(inputs, outcomes, accounts, readFrom, from, h.calls, h.status);
      if inputs[from].Delivered? {
        HandleEventShape(inputs[from].event, accounts, outcomes[from], readFrom);
      }
      assert inputs[from..] == [inputs[from]] + inputs[from + 1..];
      if h.status == Listening {
        StopsOnlyOnSignal(inputs, outcomes, accounts, readFrom, from + 1);
      }
    }
  }

  /** Shutdown is called once when the loop stops on a signal, as its last
      call, and never otherwise. */
  lemma {:induction false} ShutdownLast(inputs: seq<Input>, outcomes: seq<Outcome>, accounts: seq<Account>,
                                        readFrom: Bytes -> Option<string>, from: nat)
    requires |outcomes| == |inputs| && from <= |inputs|
    ensures var r := Respond(inputs, outcomes, accounts, readFrom, from);
      && Tally(r.calls, IsShutdown) == (if r.status == Stopped then 1 else 0)
      && (r.status == Stopped ==> |r.calls| > 0 && r.calls[|r.calls| - 1] == Shutdown)
    decreases |inputs| - from
  {
    if from < |inputs| {
      var h := Step(inputs[from], accounts, outcomes[from], readFrom);
      RespondStep(inputs, outcomes, accounts, readFrom, from, h.calls, h.status);
      StepTallies(inputs[from], accounts, outcomes[from], readFrom);
      if inputs[from].Delivered? {
        HandleEventShape(inputs[from].event, accounts, outcomes[from], readFrom);
      }
      if h.status == Listening {
        ShutdownLast(inputs, outcomes, accounts, readFrom, from + 1);
        TallyAppend(h.calls, Respond(inputs, outcomes, accounts, readFrom, from + 1).calls, IsShutdown);
      }
    }
  }

  /** Without a configured account the first MessageReceived event before a
      signal crashes the loop, and no proxy fetch or send is made. */
  lemma {:induction false} CrashesWithoutAccount(inputs: seq<Input>, outcomes: seq<Outcome>,
                                                 readFrom: Bytes -> Option<string>, from: nat)
    requires |outcomes| == |inputs| && from <= |inputs|
    ensures var r := Respond(inputs, outcomes, [], readFrom, from);
      && (r.status == Crashed <==> Received(inputs, from) > 0)
      && Tally(r.calls, IsPop) == 0 && Tally(r.calls, IsSend) == 0
    decreases |inputs| - from
  {
    if from < |inputs| {
      var h := Step(inputs[from], [], outcomes[from], readFrom);
      RespondStep(inputs, outcomes, [], readFrom, from, h.calls, h.status);
      StepTallies(inputs[from], [], outcomes[from], readFrom);
      if inputs[from].Delivered? {
        HandleEventShape(inputs[from].event, [], outcomes[from], readFrom);
      }
      if h.status == Listening {
        CrashesWithoutAccount(inputs, outcomes, readFrom, from + 1);
        TallyAppend(h.calls, Respond(inputs, outcomes, [], readFrom, from + 1).calls, IsPop);
        TallyAppend(h.calls, Respond(inputs, outcomes, [], readFrom, from + 1).calls, IsSend);
      }
    }
  }

  /** What the loop does from a position on depends only on the inputs and
      outcomes from there on. */
  lemma {:induction false} RespondShift(a: seq<Input>, oa: seq<Outcome>, b: seq<Input>, ob: seq<Outcome>,
                                        accounts: seq<Account>, readFrom: Bytes -> Option<string>, k: nat)
    requires |oa| == |a| && |ob| == |b| && k <= |b|
    ensures Respond(a + b, oa + ob, accounts, readFrom, |a| + k) == Respond(b, ob, accounts, readFrom, k)
    decreases |b| - k
  {
    if k < |b| {
      assert (a + b)[|a| + k] == b[k] && (oa + ob)[|a| + k] == ob[k];
      RespondShift(a, oa, b, ob, accounts, readFrom, k + 1);
    }
  }

  /** No state is carried from one event to the next: running two stretches of
      input one after the other, the first ending still listening, makes the
      calls of each in turn. */
  lemma {:induction false} RespondAppend(a: seq<Input>, oa: seq<Outcome>, b: seq<Input>, ob: seq<Outcome>,
                                         accounts: seq<Account>, readFrom: Bytes -> Option<string>, from: nat)
    requires |oa| == |a| && |ob| == |b| && from <= |a|
    requires Respond(a, oa, accounts, readFrom, from).status == Listening
    ensures Respond(a + b, oa + ob, accounts, readFrom, from) ==
      Respond(b, ob, accounts, readFrom, 0).After(Respond(a, oa, accounts, readFrom, from).calls)
    decreases |a| - from
  {
    var rb := Respond(b, ob, accounts, readFrom, 0);
    if from == |a| {
      RespondShift(a, oa, b, ob, accounts, readFrom, 0);
      assert rb.After([]) == rb;
    } else {
      var made := RespondPrefixStep(a, oa, b, ob, accounts, readFrom, from);
      RespondAppend(a, oa, b, ob, accounts, readFrom, from + 1);
      AfterAfter(rb, made, Respond(a, oa, accounts, readFrom, from + 1).calls);
    }
  }

  /** An input of `a` on which the loop goes on is handled alike when `b` follows. */
  lemma RespondPrefixStep(a: seq<Input>, oa: seq<Outcome>, b: seq<Input>, ob: seq<Outcome>,
                          accounts: seq<Account>, readFrom: Bytes -> Option<string>, from: nat)
    returns (made: seq<Call>)
    requires |oa| == |a| && |ob| == |b| && from < |a|
    requires Respond(a, oa, accounts, readFrom, from).status == Listening
    ensures Respond(a, oa, accounts, readFrom, from + 1).status == Listening
    ensures Respond(a, oa, accounts, readFrom, from) ==
      Respond(a, oa, accounts, readFrom, from + 1).After(made)
    ensures Respond(a + b, oa + ob, accounts, readFrom, from) ==
      Respond(a + b, oa + ob, accounts, readFrom, from + 1).After(made)
  {
    var h := Step(a[from], accounts, oa[from], readFrom);
    assert (a + b)[from] == a[from] && (oa + ob)[from] == oa[from];
    RespondStep(a, oa, accounts, readFrom, from, h.calls, h.status);
    RespondStep(a + b, oa + ob, accounts, readFrom, from, h.calls, h.status);
    made := h.calls;
  }

  /** Whether SendMessage succeeds has no effect on what the loop does next. */
  lemma {:induction false} SendResultIgnored(inputs: seq<Input>, o1: seq<Outcome>, o2: seq<Outcome>,
                                             accounts: seq<Account>, readFrom: Bytes -> Option<string>, from: nat)
    requires |o1| == |inputs| && |o2| == |inputs| && from <= |inputs|
    requires forall k :: 0 <= k < |inputs| ==> o1[k].popped == o2[k].popped && o1[k].now == o2[k].now
    ensures Respond(inputs, o1, accounts, readFrom, from) == Respond(inputs, o2, accounts, readFrom, from)
    decreases |inputs| - from
  {
    if from < |inputs| {
      SendResultIgnored(inputs, o1, o2, accounts, readFrom, from + 1);
    }
  }
}
