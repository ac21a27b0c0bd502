/** A connection whose handlers update its state, output queue and channel interest in place. */
module TcpConnectionImpl {
  import opened Outcomes
  import opened ByteBuffer
  import opened TcpSpec

  class TcpConnection {
    var state: ConnState
    var next: TcpConnection?
    var isWriting: bool
    var output: Bytes
    var lastReceiveTime: int
    ghost var owed: nat
    ghost var wire: seq<Wire>
    ghost var asked: Bytes

    ghost function Value(): Conn
      reads this`state, this`isWriting, this`output, this`owed, this`wire, this`asked
    {
      Conn(state, isWriting, output, owed, wire, asked)
    }

    constructor ()
      ensures Value() == NEW && next == null && lastReceiveTime == 0
    {
      state, next, isWriting, output, lastReceiveTime := Connecting, null, false, [], 0;
      owed, wire, asked := 0, [], [];
    }

    method SetStateKConnected()
      modifies this`state, this`wire, this`asked
      ensures Value() == OpenStep(old(Value()))
    {
      state := Connected;
      wire, asked := [], [];
    }

    method Send(data: Bytes, result: Written)
      requires Enabled(Value(), Event.Send(data, result))
      modifies this`isWriting, this`output, this`wire, this`asked
      ensures Value() == SendStep(old(Value()), data, result)
    {
      if state == Connected {
        SendInLoop(data, result);
      }
    }

    method SendInLoop(data: Bytes, result: Written)
      requires Enabled(Value(), Event.Send(data, result))
      modifies this`isWriting, this`output, this`wire, this`asked
      ensures Value() == TcpSpec.SendInLoop(old(Value()), data, result)
    {
      var nwrote, remaining, faultError := 0, 0, false;
      if !isWriting && |output| == 0 {
        match result {
          case Took(n) =>
            nwrote := n;
            remaining := |data| - nwrote;
            wire, asked := wire + [Sent(data[..n])], asked + data;
          case Broken => faultError := true;
          case _ =>
        }
      }
      if !faultError && remaining > 0 {
        output := output + Strncpy(data[nwrote..]);
        if !isWriting {
          isWriting := true;
        }
      }
    }

    /** On the loop thread the second half follows at once, on another it is queued. */
    method Shutdown(isInLoopThread: bool)
      modifies this`state, this`owed, this`wire
      ensures Value() == if isInLoopThread then ShutdownStep(old(Value())) else BeginShutdownStep(old(Value()))
    {
      if state == Connected {
        state := Disconnecting;
        if isInLoopThread {
          ShutdownInLoop();
        } else {
          owed := owed + 1;
        }
      }
    }

    /** The loop thread gets to a second half that was queued. */
    method RunQueuedShutdown()
      requires owed > 0
      modifies this`owed, this`wire
      ensures Value() == LateShutdownStep(old(Value()))
    {
      owed := owed - 1;
      ShutdownInLoop();
    }

    method ShutdownInLoop()
      modifies this`wire
      ensures Value() == TcpSpec.ShutdownInLoop(old(Value()))
    {
      if !isWriting {
        wire := if Active(Value()) then wire + [ShutWr] else wire;
      }
    }

    /** Also forceCloseWithDelay: only the time of the close differs. */
    method ForceClose()
      modifies this`state
      ensures Value() == ForceCloseStep(old(Value()))
    {
      if state == Connected || state == Disconnecting {
        state := Disconnecting;
      }
    }

    method HandleWrite(result: Written)
      requires Enabled(Value(), Event.HandleWrite(result))
      modifies this`isWriting, this`output, this`wire
      ensures Value() == HandleWriteStep(old(Value()), result)
    {
      if isWriting && result.Took? && result.n > 0 {
        wire := wire + [Sent(output[..result.n])];
        output := output[result.n..];
        if |output| == 0 {
          isWriting := false;
          if state == Disconnecting {
            ShutdownInLoop();
          }
        }
      }
    }

    /** What handleClose does to the connection itself; the pool then takes it back. */
    method CloseAndReset()
      requires Active(Value())
      modifies this`state, this`isWriting, this`output
      ensures HandleCloseStep(old(Value())) == Fine(Value())
    {
      state := Disconnected;
      isWriting := false;
      Reset();
    }

    method Reset()
      modifies this`state, this`output
      ensures state == Connecting && output == []
    {
      state, output := Connecting, [];
    }
  }
}
