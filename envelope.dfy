/** The values the chat server passes around: connection handles, the
    client record kept in the registry, and the JSON message envelope. */
module Envelope {

  /** An opaque handle for one live WebSocket connection. */
  type Conn = nat

  /** What the registry keeps per connection (`Client` in main.go, minus the
      connection itself, which is the registry key). `ip` is the raw address;
      it is masked before it goes into any envelope. */
  datatype Client = Client(userId: string, ip: string, region: string, color: string)

  /** The `type` field of the envelopes the server produces. */
  datatype Kind = Password | SetId | Welcome | Join | Leave | Online | Help | Recolored | System | Chat

  /** The wire spelling of each kind. */
  function WireType(k: Kind): (t: string)
    ensures t != []
  {
    match k
    case Password => "password"
    case SetId => "setid"
    case Welcome => "welcome"
    case Join => "join"
    case Leave => "leave"
    case Online => "online"
    case Help => "help"
    case Recolored => "color"
    case System => "system"
    case Chat => "chat"
  }

  /** Distinct kinds are spelled differently on the wire, so a client can
      always tell them apart. */
  lemma WireTypeInjective(a: Kind, b: Kind)
    requires WireType(a) == WireType(b)
    ensures a == b
  {
    match a
    case Password => assert WireType(b)[0] == 'p';
    case SetId => assert WireType(b)[0] == 's' && WireType(b)[1] == 'e';
    case Welcome => assert WireType(b)[0] == 'w';
    case Join => assert WireType(b)[0] == 'j';
    case Leave => assert WireType(b)[0] == 'l';
    case Online => assert WireType(b)[0] == 'o';
    case Help => assert WireType(b)[0] == 'h';
    case Recolored => assert WireType(b)[0] == 'c' && WireType(b)[1] == 'o';
    case System => assert WireType(b)[0] == 's' && WireType(b)[1] == 'y';
    case Chat => assert WireType(b)[0] == 'c' && WireType(b)[1] == 'h';
  }

  /** A server-to-client envelope (`Message` in main.go). The `time` field
      is left out: it only carries the wall-clock formatting. Private
      replies and system notices leave the identity fields empty. */
  datatype Message = Message(kind: Kind, content: string, userId: string, ip: string, region: string, color: string)

  /** An envelope that carries no sender identity. */
  function Notice(kind: Kind, content: string): Message
  {
    Message(kind, content, "", "", "", "")
  }

  /** A client-to-server frame as `ReadJSON` decodes it: every field is
      whatever the client chose to send, including the `type`. */
  datatype Incoming = Incoming(kind: string, content: string, userId: string, ip: string, region: string, time: string, color: string)

  /** One read from the connection: a decoded frame, or a read failure
      (transport error or malformed JSON, which `ReadJSON` reports alike). */
  datatype Frame = Received(msg: Incoming) | Broken
}
