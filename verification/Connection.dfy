/** The message path of an encrypted connection:
    securepath/network/encryption/detail/encrypted_connection_impl.cpp. */
module Connection {
  import opened Framing
  import opened Octets
  import opened Options

  type Message = seq<octet>

  datatype Conn = Conn(outQueue: seq<Message>, writing: bool, isConnected: bool, disconnected: bool) {
    function Push(m: Message): Conn {
      this.(outQueue := outQueue + [m])
    }

    predicate Sends() {
      !writing && outQueue != [] && isConnected
    }

    /** do_send up to handing the frame to the stream. */
    function DoSend(): Conn {
      if Sends() then this.(writing := true, outQueue := outQueue[1..]) else this
    }

    function ToSend(): Option<Message> {
      if Sends() then Some(outQueue[0]) else None
    }

    function Disconnect(): Conn {
      this.(disconnected := true, isConnected := isConnected && disconnected)
    }
  }

  class EncryptedConnection {
    var outQueue: seq<Message>
    var writing: bool
    var isConnected: bool
    var disconnected: bool

    ghost function View(): Conn
      reads this
    {
      Conn(outQueue, writing, isConnected, disconnected)
    }

    constructor ()
      ensures View() == Conn([], false, false, false)
    {
      outQueue, writing, isConnected, disconnected := [], false, false, false;
    }

    /** send when nothing comes in between; `post` is whether do_send was posted. */
    method Send(m: Message) returns (post: bool)
      modifies this`outQueue
      ensures View() == old(View()).Push(m)
      ensures post == isConnected
    {
      outQueue := outQueue + [m];
      post := isConnected;
    }

    /** The payload to hand to the stream, if it is time to send one. */
    method DoSend() returns (payload: Option<Message>)
      modifies this
      ensures View() == old(View()).DoSend()
      ensures payload == old(View()).ToSend()
    {
      if writing || outQueue == [] || !isConnected {
        return None;
      }
      writing := true;
      payload := Some(outQueue[0]);
      outQueue := outQueue[1..];
    }

    /** The handler given with a frame. */
    method OnFrameSent(ok: bool) returns (payload: Option<Message>)
      modifies this
      ensures var idle := old(View()).(writing := false);
        && View() == (if ok then idle.DoSend() else idle.Disconnect())
        && payload == (if ok then idle.ToSend() else None)
    {
      writing := false;
      if ok {
        payload := DoSend();
      } else {
        Disconnect();
        payload := None;
      }
    }

    method Disconnect()
      modifies this
      ensures View() == old(View()).Disconnect()
    {
      if disconnected {
        return;
      }
      disconnected := true;
      isConnected := false;
    }

    /** The end of the handshake: the peer may send frames of full size now, and what was
        queued before is sent. */
    method BecomeConnected(reader: FrameReader) returns (payload: Option<Message>)
      modifies this, reader
      ensures reader.View() == old(reader.View()).(maxPayload := MAX_FRAME_SIZE)
      ensures View() == old(View()).(isConnected := true).DoSend()
      ensures payload == old(View()).(isConnected := true).ToSend()
    {
      isConnected := true;
      reader.SetMaxFrameSize(MAX_FRAME_SIZE);
      payload := DoSend();
    }
  }
}
