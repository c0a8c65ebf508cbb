/** The notifications the mail proxy puts on its event sink, as both clients
    see them. The Go type switch is over an open interface, so one more case
    stands for any event type the clients do not name. */
module Events {

  newtype byte = x: int | 0 <= x < 256

  type Bytes = seq<byte>

  datatype Event =
    | ConnectionStatus(isConnected: bool)
    | MessageSent(messageId: Bytes)
    | MessageReceived
    | KaetzchenReply(payload: Bytes)
    | Unrecognized
}
