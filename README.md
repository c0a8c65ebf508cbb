# Katzenpost demo clients: autoresponder and Zcash submitter, in Dafny

This project models the logic of two small clients of the Katzenpost mail
proxy (`mailproxy`):

* **pong**, an autoresponder. A goroutine takes proxy events one at a time.
  On every `MessageReceived` event it pops the waiting message for the first
  configured account (`user@provider`) and parses it as an Internet message.
  It then takes the bare address out of the `From` header with `ParseToField`
  and sends a fixed reply to that address. A failure at any of these steps
  drops only that event. A termination signal shuts the proxy down and ends
  the loop.
* **wallet_proxy**, a transaction submitter. It takes one hex transaction
  from the command line and encodes `{Version: 0, Tx}` once. Every
  "connected" `ConnectionStatus` event sends that payload to the `zcash`
  service at `zcash1` from `anonymous@provider2`. A "disconnected" event or a
  `MessageSent` event shuts down and exits with 0. A send error or an event
  of an unknown type panics. `MessageReceived` and `KaetzchenReply` are
  ignored.

Files:

* `address.dfy` (module `Address`): Go's `strings.Split` for a
  one-character separator (`Split`, with `Join` as its inverse) and
  `ParseToField`. The main result is an exact characterisation:
  `ParseToField(s) == Ok(r)` holds exactly when `s` is `a<r>b` with no `<` in
  `a`, `r` or `b` and no `>` in `r` or `b`.
* `events.dfy` (module `Events`): the proxy's event variants. The Go type
  switch is over an open interface, so `Unrecognized` stands for any event
  type the clients do not name.
* `pong.dfy` (module `Pong`): the autoresponder loop. `Autorespond` is a
  method with a `while` loop. It is proved equal to the function `Respond`,
  and the lemmas about the loop are stated on `Respond`.
* `wallet.dfy` (module `Wallet`): the submitter. `EventLoop` and
  `WalletMain` are methods. They are proved equal to the functions `Submit`
  and `Session`, and the lemmas are stated on those.
* `traces.dfy` (module `Traces`) and `wrappers.dfy` (module `Wrappers`):
  counting calls in a trace, and `Option`/`Result`.

The outside world is given as inputs:

* What the proxy answers while input `i` is handled is `outcomes[i]` (pong)
  or `sendOks[i]` (wallet).
* The Internet-message parser is the function parameter `readFrom`. It
  returns the `From` header, or `None` when parsing fails.
* The JSON encoder is the function parameter `encode`.
* A termination signal is one more input, `Signal`.
* The loops return the trace of proxy calls they made and the status they
  end in. Exit and panic are statuses.

Where the intended behaviour described for these programs differs from the
code, the model follows the code:

* The submitter is described as sending at most once. The code has no such
  guard: every "connected" event sends again (`ReconnectSendsAgain`,
  `SendPerConnected`).
* A "disconnected" event is described as ending the program only before a
  send. The code exits with 0 on such an event at any time.
* The extractor is described as refusing any input with two `>`. The code
  looks for `>` only after the `<`, so `a> <b>` yields `b`
  (`ParseToFieldCloseBeforeOpen`).
* Shutdown is described as idempotent. That is a property of the proxy,
  which is not part of this model.

## Model

| member | source | states |
|---|---|---|
| `Address.Split` | pong/main.go:41 | `strings.Split` with a one-character separator gives one more piece than there are separators, no piece holds the separator, and joining the pieces gives back the input |
| `Address.SplitJoin` | pong/main.go:41 | splitting undoes joining: pieces free of the separator are recovered exactly |
| `Address.ParseToFieldCounts` | pong/main.go:40-50 | succeeds exactly when the header has one `<` and the text after it has one `>`; the result holds neither `<` nor `>`; a failure is "IMF parse failure" |
| `Address.ParseToFieldAccepts` | pong/main.go:40-50 | every header `a<r>b` (no `<` in a, r, b; no `>` in r, b) yields `r` |
| `Address.ParseToFieldSound` | pong/main.go:40-50 | every success comes from a header `a<r>b` of that shape; the text before `<` and after `>` is discarded |
| `Address.ParseToFieldCharacterised` | pong/main.go:40-50 | `ParseToField(s) == Ok(r)` if and only if `s` is `a<r>b` of that shape |
| `Address.ParseToFieldExample` | pong/main.go:40-50 | `Name <user@host>` yields `user@host` |
| `Address.ParseToFieldMissingOpen` | pong/main.go:41-44 | a header without `<` is refused |
| `Address.ParseToFieldTwoOpens` | pong/main.go:41-44 | a header with two `<`, wherever they stand, is refused |
| `Address.ParseToFieldMissingClose` | pong/main.go:45-48 | one `<` and no `>` after it is refused |
| `Address.ParseToFieldTwoCloses` | pong/main.go:45-48 | one `<` and two `>` after it is refused |
| `Address.ParseToFieldCloseBeforeOpen` | pong/main.go:41-49 | a `>` before the `<` is not examined: `a> <b>` yields `b` |
| `Pong.AccountNameInjective` | pong/main.go:103 | `user@provider` names accounts one to one when user names hold no `@` |
| `Pong.HandleEventShape` | pong/main.go:96-132 | events other than MessageReceived make no call; MessageReceived with no account crashes; otherwise it makes one ReceivePop for `Account[0]`, then a second call exactly when fetch, parse and extraction all succeed |
| `Pong.StepTallies` | pong/main.go:88-132 | one input makes one ReceivePop exactly for a MessageReceived event with an account configured, one SendMessage exactly when that message is also answerable, and one Shutdown exactly for a signal |
| `Pong.AnswerMessage` | pong/main.go:101-129 | one MessageReceived: ReceivePop for the account, then `SendMessage(account, extracted address, reply to the raw sender)` exactly when fetch, parse and extraction succeed, else nothing more |
| `Pong.Autorespond` | pong/main.go:87-135 | the loop makes exactly the calls of `Respond` and ends in its status |
| `Pong.OnePopPerMessage` | pong/main.go:101-104 | with an account configured, the number of ReceivePop calls equals the number of MessageReceived events before the signal |
| `Pong.OneSendPerAnswerable` | pong/main.go:104-128 | the number of SendMessage calls equals the number of MessageReceived events whose message is fetched, parsed and yields an address; a failure costs only its own event the reply |
| `Pong.CallsProper` | pong/main.go:103-124 | every ReceivePop is for `Account[0]`; every SendMessage is from it, with a reply whose `To:` header extracts to the recipient, with the fixed subject and body |
| `Pong.StopsOnlyOnSignal` | pong/main.go:88-94 | with an account configured the loop never crashes; it stops exactly when a signal arrives and otherwise keeps listening |
| `Pong.ShutdownLast` | pong/main.go:90-93 | Shutdown is called once, as the last call, exactly when the loop stopped on a signal |
| `Pong.CrashesWithoutAccount` | pong/main.go:103 | with no account, the loop crashes exactly when a MessageReceived event comes before the signal, and no fetch or send is made |
| `Pong.RespondAppend` | pong/main.go:87-135 | no state crosses events: two stretches of input, the first ending still listening, make the calls of each in turn |
| `Pong.SendResultIgnored` | pong/main.go:124-128 | whether SendMessage succeeds has no effect on the calls or the status |
| `Wallet.MakeRequest` | wallet_proxy/main.go:63-85 | a request exists exactly when `os.Args` has length 2; it has version 0 and the one argument as transaction |
| `Wallet.HandleEvent` | wallet_proxy/main.go:94-118 | the type switch makes the calls and status of `Dispatch`, and sends exactly for a "connected" event |
| `Wallet.EventLoop` | wallet_proxy/main.go:91-120 | the loop makes the calls of `Submit` and ends in its status; its counter equals the number of "connected" events it reads |
| `Wallet.WalletMain` | wallet_proxy/main.go:63-120 | the program makes the calls of `Session`; with a bad command line it sends nothing |
| `Wallet.SendPerConnected` | wallet_proxy/main.go:95-102 | the number of requests sent equals the number of "connected" events the loop reads, with no at-most-once guard |
| `Wallet.EverySendIsTheRequest` | wallet_proxy/main.go:81-99 | every send is `SendKaetzchenRequest("anonymous@provider2", "zcash", "zcash1", out, false)` with the same `out` |
| `Wallet.SessionPayload` | wallet_proxy/main.go:82-99 | every payload sent is the encoding of `{Version: 0, Tx: os.Args[1]}` |
| `Wallet.UsagePanics` | wallet_proxy/main.go:63-66 | a command line without exactly one argument panics before any proxy call |
| `Wallet.HowItEnds` | wallet_proxy/main.go:91-120 | the loop keeps running exactly when no event ends it; the ending event decides the status: "disconnected" or MessageSent exit with 0, a failed send or an unknown event panics |
| `Wallet.ShutdownBeforeExit` | wallet_proxy/main.go:103-110 | the program exits only with 0, and then Shutdown is its last and only Shutdown call; a panic makes no Shutdown |
| `Wallet.IgnoredEvents` | wallet_proxy/main.go:111-114 | MessageReceived and KaetzchenReply events change nothing |
| `Wallet.DisconnectExits` | wallet_proxy/main.go:103-106 | `[disconnected]`: Shutdown, exit 0, no send |
| `Wallet.SendThenConfirm` | wallet_proxy/main.go:97-110 | `[connected, MessageSent]`: one send, Shutdown, exit 0 |
| `Wallet.ConfirmWithoutSend` | wallet_proxy/main.go:107-110 | `[MessageSent]` exits 0 though nothing was sent |
| `Wallet.SendThenUnknownPanics` | wallet_proxy/main.go:97-117 | `[connected, unknown event]`: one send, then a panic |
| `Wallet.SendFailurePanics` | wallet_proxy/main.go:99-102 | a failed send panics right after the send |
| `Wallet.ReconnectSendsAgain` | wallet_proxy/main.go:97-99 | `[connected, connected]` sends the same request twice |

## Left out

- Flag parsing, `syscall.Umask`, configuration loading, the generate-only exits and `mailproxy.New` failures (pong/main.go:53-84, wallet_proxy/main.go:52-61,68-78). These are start-up plumbing and calls into the configuration package.
- The goroutine, `select` and `signal.Notify`. The model is one sequential list of inputs in which a signal is one more input. Inputs after the signal are not read. `proxy.Wait` is not modelled.
- The deferred `proxy.Shutdown()` in pong (pong/main.go:85) runs after `proxy.Wait` returns and is not modelled. Whether calling Shutdown twice is safe depends on the proxy.
- The proxy's `ReceivePop`, `SendMessage`, `SendKaetzchenRequest` and `Shutdown`. They are opaque calls whose success or failure is an input.
- The `go-message` parser and its case-insensitive header lookup. The function parameter `readFrom` gives the `From` header, empty when there is none, or fails.
- The JSON codec. `encode` is a total function parameter, because the source discards the encoder's error. Whether the encoding round-trips is a property of the codec.
- `time.Now()` and the `fmt.Sprintf` template. A reply is the datatype `Reply` of its date, subject, from, to and body. The MIME lines of the template are not modelled.
- Logging, including the printed message ids, the `KaetzchenReply` payload and the transaction length. `os.Exit` and `panic` are recorded only as the final status.
