/**
 * `NetDev`: a DDX-RPC connection over a TCP socket. It cuts the socket's byte stream into
 * newline-terminated items once encryption is up, configures the socket's options from the
 * peer's address, and turns socket events into connection events. The `RemDev` part of the
 * object is the `dev` it holds; that connection's transport is this very socket.
 */
module NetDevice {
  import opened Sockets
  import opened RemDevCore

  class NetDev {
    const dev: RemDev
    const sock: Socket
    /** The items passed to `handleItem`, oldest first, each with its newline. */
    var items: seq<seq<char>>

    constructor (dev: RemDev, sock: Socket)
      requires dev.transport == sock
      ensures this.dev == dev && this.sock == sock && items == []
    {
      this.dev := dev;
      this.sock := sock;
      items := [];
    }

    /**
     * The option part of `sub_init`: Nagle's algorithm is always disabled, and keep-alive is
     * turned on unless the peer is the loopback address of its own protocol family.
     */
    method ConfigureSocket()
      modifies sock`lowDelay, sock`keepAlive
      ensures sock.lowDelay
      ensures sock.keepAlive == (old(sock.keepAlive) || !IsLocalPeer(sock.peer))
    {
      var usingIPv6 := sock.peer.IPv6?;
      var localhost := if usingIPv6 then LocalHostIPv6 else LocalHost;
      var isLocal := sock.peer == localhost;
      sock.lowDelay := true;
      if !isLocal {
        sock.keepAlive := true;
      }
    }

    /**
     * `handleData`: nothing is read before the socket is encrypted. Afterwards every complete
     * line is read, each into a buffer one byte larger than what is available, and handed on
     * in arrival order; only a trailing partial line stays in the socket.
     */
    method HandleData()
      modifies sock`buffer, this`items
      ensures !old(sock.encrypted) ==> items == old(items) && sock.buffer == old(sock.buffer)
      ensures old(sock.encrypted) ==>
        && items == old(items) + Lines(old(sock.buffer))
        && sock.buffer == Rest(old(sock.buffer))
        && !sock.CanReadLine()
        && Concat(items[|old(items)|..]) + sock.buffer == old(sock.buffer)
    {
      if !sock.encrypted {
        return;
      }
      while sock.CanReadLine()
        invariant items + Lines(sock.buffer) == old(items) + Lines(old(sock.buffer))
        invariant Rest(sock.buffer) == Rest(old(sock.buffer))
        decreases |sock.buffer|
      {
        ghost var buf := sock.buffer;
        ghost var before := items;
        LinesStep(buf);
        var size := sock.BytesAvailable() + 1;
        var line, amount := sock.ReadLine(size);
        if amount > 0 {
          items := items + [line];
        }
        assert items + Lines(sock.buffer) == before + ([line] + Lines(sock.buffer));
      }
      ghost var consumed := Lines(old(sock.buffer));
      assert items == old(items) + consumed by {
        assert Lines(sock.buffer) == [];
      }
      assert items[|old(items)|..] == consumed;
      LinesPartition(old(sock.buffer));
    }

    /** `handleDisconnection`: a remote disconnect closes the connection as `UnknownReason`, from the remote side. */
    method HandleDisconnection()
      requires dev.Valid() && dev.transport == sock
      modifies dev`logLines, dev`closed, dev`reqs, dev`delivered, dev`disconnects, sock`state
      ensures dev.Valid() && dev.closed && dev.reqs == map[]
      ensures dev.logLines == old(dev.logLines) + [LogRecord(dev.cid, "Remote disconnected", false)]
      ensures !old(dev.closed) ==> dev.disconnects == [(UnknownReason, true)] && sock.state == UnconnectedState
      ensures old(dev.closed) ==> dev.disconnects == old(dev.disconnects)
      ensures old(dev.delivered) <= dev.delivered
      ensures !old(dev.closed) ==>
        DeliversOnceEach(dev.delivered[|old(dev.delivered)|..], dev.requestTimeoutCode, old(dev.reqs),
                         Notified(old(dev.reqs), 0, true))
      ensures old(dev.closed) ==> dev.delivered == old(dev.delivered) && sock.state == old(sock.state)
    {
      dev.Log("Remote disconnected", false);
      var _ := dev.Close(UnknownReason, true);
    }

    /** `handleNetworkError`: `RemoteHostClosedError` is ignored, any other error is logged. */
    method HandleNetworkError(e: SocketError)
      modifies dev`logLines
      ensures IsReportedError(e) ==> dev.logLines == old(dev.logLines) + [LogRecord(dev.cid, UnhandledErrorMessage(e), false)]
      ensures !IsReportedError(e) ==> dev.logLines == old(dev.logLines)
      ensures e == RemoteHostClosedError <==> dev.logLines == old(dev.logLines)
    {
      if e == RemoteHostClosedError {
        return;
      }
      dev.Log(UnhandledErrorMessage(e), false);
    }
  }
}
