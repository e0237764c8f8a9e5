/**
 * The baud-rate tool: asks the loader to switch to a new rate and, once the
 * loader has agreed, switches the host side of the link. Asking for the rate
 * already in use does nothing at all.
 */
module ChangeBaud {
  import opened Common
  import opened LoaderCommands
  import opened Link
  import opened Port

  class ChangeBaudrateTool {
    const port: LoaderPort
    const com: Communicator

    constructor(com: Communicator, port: LoaderPort)
      ensures this.com == com && this.port == port
    {
      this.com := com;
      this.port := port;
    }

    /**
     * `ChangeBaudAsync`: the loader call carries the new and the current rate;
     * the host switches only after that call returns, so a call that throws
     * leaves the link at its old rate. On success the link runs at exactly
     * the requested rate.
     */
    method ChangeBaudRate(baud: int) returns (r: Outcome<()>)
      modifies port, com
      ensures baud == old(com.baud) ==>
        r == Ok(()) && port.calls == old(port.calls) && port.script == old(port.script) &&
        com.log == old(com.log)
      ensures baud != old(com.baud) ==>
        port.calls == old(port.calls) + [ChangeBaud(baud, old(com.baud))] && port.script == Tail(old(port.script))
      ensures baud != old(com.baud) && Head(old(port.script)).Raised? ==>
        r == Fail(Head(old(port.script)).fault) && com.log == old(com.log)
      ensures baud != old(com.baud) && Head(old(port.script)).Answer? ==>
        r == Ok(()) && com.log == old(com.log) + [BaudSet(baud)]
      ensures r.Ok? ==> com.baud == baud
      ensures r.Fail? ==> com.baud == old(com.baud)
      ensures com.buffered == old(com.buffered) && com.incoming == old(com.incoming)
    {
      var oldBaud := com.GetBaudRate();
      if baud == oldBaud {
        return Ok(());
      }
      var reply := port.Invoke(ChangeBaud(baud, oldBaud));
      if reply.Raised? {
        return Fail(reply.fault);
      }
      com.ChangeBaudRate(baud);
      r := Ok(());
    }
  }
}
