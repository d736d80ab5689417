/** The two objects a connection handler talks to, reduced to what it observes
    of them: the local socket (`net.Conn`) records the bytes written to it and
    whether it is closed; a logical session of the transport engine records the
    payloads passed to `Send` and the `FinishSend` / `FinishRead` calls. */
module Transport {
  import opened Wire

  class Conn {
    /** Bytes that reached the local client, in order. */
    var written: seq<byte>
    var closed: bool

    constructor ()
      ensures written == [] && !closed
    {
      written := [];
      closed := false;
    }

    /** `conn.Write(data)`; `fails` is the socket's verdict, which the handler
        cannot choose. A failed write delivers nothing. */
    method Write(data: seq<byte>, fails: bool) returns (ok: bool)
      modifies this
      ensures ok == !fails
      ensures written == if ok then old(written) + data else old(written)
      ensures closed == old(closed)
    {
      ok := !fails;
      if ok {
        written := written + data;
      }
    }

    method Close()
      modifies this
      ensures closed && written == old(written)
    {
      closed := true;
    }
  }

  class Session {
    /** Payloads passed to `Send`, in order. */
    var sent: seq<seq<byte>>
    var finishSends: nat
    var finishReads: nat
    /** The bytes that had reached the local client when the session was
        opened: a record of the order of socket writes and session calls. */
    ghost const socketAtOpen: seq<byte>

    /** `client.NewSession()`, opened beside the local socket `conn`. */
    constructor (ghost conn: Conn)
      ensures sent == [] && finishSends == 0 && finishReads == 0
      ensures socketAtOpen == conn.written
    {
      sent := [];
      finishSends := 0;
      finishReads := 0;
      socketAtOpen := conn.written;
    }

    method Send(data: seq<byte>)
      modifies this
      ensures sent == old(sent) + [data]
      ensures finishSends == old(finishSends) && finishReads == old(finishReads)
    {
      sent := sent + [data];
    }

    /** This side will send nothing more. */
    method FinishSend()
      modifies this
      ensures finishSends == old(finishSends) + 1
      ensures sent == old(sent) && finishReads == old(finishReads)
    {
      finishSends := finishSends + 1;
    }

    /** This side will read nothing more. */
    method FinishRead()
      modifies this
      ensures finishReads == old(finishReads) + 1
      ensures sent == old(sent) && finishSends == old(finishSends)
    {
      finishReads := finishReads + 1;
    }
  }
}
