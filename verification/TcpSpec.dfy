/** One connection's state, output queue and writability interest as a state machine. The socket
    is the log of what reached it; sends are made on the loop thread. shutdown() made on another
    thread is two steps, the change of state and the half it queues for the loop thread. */
module TcpSpec {
  import opened Outcomes
  import opened ByteBuffer

  datatype ConnState = Connecting | Connected | Disconnecting | Disconnected

  /** What a connection does to its socket. */
  datatype Wire = Sent(bytes: Bytes) | ShutWr

  /** The result of a write call: some bytes were taken, or none and the errno class. */
  datatype Written = Took(n: nat) | WouldBlock | Broken | OtherError

  /** `wire` and `asked` are history of the current incarnation: what reached the socket, and the
      messages the connection took responsibility for. `owed` counts the queued second halves of
      shutdown(), which a close does not take back. */
  datatype Conn =
    Conn(state: ConnState, writing: bool, output: Bytes, owed: nat, wire: seq<Wire>, asked: Bytes)

  datatype Event =
    | Open
    | Send(data: Bytes, result: Written)
    | HandleWrite(result: Written)
    | Shutdown
    | BeginShutdown
    | LateShutdown
    | ForceClose
    | ForceCloseInLoop
    | HandleClose

  const NEW := Conn(Connecting, false, [], 0, [], [])

  predicate Active(c: Conn) {
    c.state == Connected || c.state == Disconnecting
  }

  function OpenStep(c: Conn): Conn {
    c.(state := Connected, wire := [], asked := [])
  }

  /** The direct write is tried only with nothing queued; the message is queued only as the rest of
      a direct write that did not fail. */
  function SendInLoop(c: Conn, data: Bytes, result: Written): Conn
    requires result.Took? ==> result.n <= |data|
  {
    if !c.writing && c.output == [] && result.Took? then
      var d := c.(wire := c.wire + [Sent(data[..result.n])], asked := c.asked + data);
      if result.n < |data| then d.(output := Strncpy(data[result.n..]), writing := true) else d
    else c
  }

  function SendStep(c: Conn, data: Bytes, result: Written): Conn
    requires result.Took? ==> result.n <= |data|
  {
    if c.state == Connected then SendInLoop(c, data, result) else c
  }

  /** The descriptor of a connection that is not active is -1, and shutting it down does nothing. */
  function ShutdownInLoop(c: Conn): Conn {
    if c.writing || !Active(c) then c else c.(wire := c.wire + [ShutWr])
  }

  function ShutdownStep(c: Conn): Conn {
    if c.state == Connected then ShutdownInLoop(c.(state := Disconnecting)) else c
  }

  /** shutdown() on another thread ... */
  function BeginShutdownStep(c: Conn): Conn {
    if c.state == Connected then c.(state := Disconnecting, owed := c.owed + 1) else c
  }

  /** ... and what it has queued, whatever has become of the connection. */
  function LateShutdownStep(c: Conn): Conn
    requires c.owed > 0
  {
    ShutdownInLoop(c.(owed := c.owed - 1))
  }

  function HandleWriteStep(c: Conn, result: Written): Conn
    requires result.Took? ==> result.n <= |c.output|
  {
    if c.writing && result.Took? && result.n > 0 then
      var d := c.(wire := c.wire + [Sent(c.output[..result.n])], output := c.output[result.n..]);
      if d.output != [] then d
      else
        var e := d.(writing := false);
        if e.state == Disconnecting then ShutdownInLoop(e) else e
    else c
  }

  /** forceClose and forceCloseWithDelay: the close itself is queued or left to a timer. */
  function ForceCloseStep(c: Conn): Conn {
    if Active(c) then c.(state := Disconnecting) else c
  }

  /** The connection goes back to its initial state and loses what was queued. */
  function HandleCloseStep(c: Conn): Outcome<Conn> {
    if Active(c) then Fine(c.(state := Connecting, writing := false, output := [])) else Fault
  }

  function ForceCloseInLoopStep(c: Conn): Outcome<Conn> {
    if Active(c) then HandleCloseStep(c) else Fine(c)
  }

  predicate Enabled(c: Conn, e: Event) {
    match e
    case Open => c.state == Connecting
    case Send(data, result) => result.Took? ==> result.n <= |data|
    case HandleWrite(result) => result.Took? ==> result.n <= |c.output|
    case HandleClose => Active(c)
    case LateShutdown => c.owed > 0
    case _ => true
  }

  function Apply(c: Conn, e: Event): Outcome<Conn>
    requires Enabled(c, e)
  {
    match e
    case Open => Fine(OpenStep(c))
    case Send(data, result) => Fine(SendStep(c, data, result))
    case HandleWrite(result) => Fine(HandleWriteStep(c, result))
    case Shutdown => Fine(ShutdownStep(c))
    case BeginShutdown => Fine(BeginShutdownStep(c))
    case LateShutdown => Fine(LateShutdownStep(c))
    case ForceClose => Fine(ForceCloseStep(c))
    case ForceCloseInLoop => ForceCloseInLoopStep(c)
    case HandleClose => HandleCloseStep(c)
  }

  predicate Legal(c: Conn, es: seq<Event>)
    decreases |es|
  {
    es == [] ||
    (Enabled(c, es[0]) && (Apply(c, es[0]).Fine? ==> Legal(Apply(c, es[0]).value, es[1..])))
  }

  function Exec(c: Conn, es: seq<Event>): Outcome<Conn>
    requires Legal(c, es)
    decreases |es|
  {
    if es == [] then Fine(c) else
    var d :- Apply(c, es[0]);
    Exec(d, es[1..])
  }

  /** The bytes that reached the socket. */
  function OnSocket(wire: seq<Wire>): Bytes {
    if wire == [] then []
    else OnSocket(wire[..|wire| - 1]) + (if wire[|wire| - 1].Sent? then wire[|wire| - 1].bytes else [])
  }
}
