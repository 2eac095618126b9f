/**
 * The slice of Qt's socket classes that the connection code relies on: a socket's state,
 * its buffer of received but unread bytes (one `char` per byte), line reads, host addresses
 * and the error filter. The network itself is not modelled: whatever arrives is already in
 * `buffer`, and a state change made by the peer is a field update.
 */
module Sockets {
  import Decimal

  /** `QAbstractSocket::SocketState`. */
  datatype SocketState =
    | UnconnectedState
    | HostLookupState
    | ConnectingState
    | ConnectedState
    | BoundState
    | ListeningState
    | ClosingState

  /** `QAbstractSocket::SocketError`, by its integer value. */
  type SocketError = int

  const UnknownSocketError: SocketError := -1
  const ConnectionRefusedError: SocketError := 0
  /** Reported even on an ordinary disconnection, so it is never treated as a fault. */
  const RemoteHostClosedError: SocketError := 1

  /** Both error handlers return early on `RemoteHostClosedError` and log every other error. */
  predicate IsReportedError(e: SocketError) {
    e != RemoteHostClosedError
  }

  /** The log line both error handlers write for a reported error, the error by its number. */
  function UnhandledErrorMessage(e: SocketError): string {
    "DDX bug: Unhandled network error (QAbstractSocket): '" + Decimal.IntToDecimal(e) + "'"
  }

  /** `QHostAddress`: an IPv4 or IPv6 address, or the wildcard `QHostAddress::Any`. */
  datatype HostAddress = IPv4(v4: nat) | IPv6(v6: nat) | AnyAddress

  /** `QHostAddress::LocalHost`, 127.0.0.1. */
  const LocalHost: HostAddress := IPv4(0x7F00_0001)
  /** `QHostAddress::LocalHostIPv6`, ::1. */
  const LocalHostIPv6: HostAddress := IPv6(1)

  /**
   * A peer is local when it equals the loopback address of its own protocol family:
   * `::1` for an IPv6 peer, `127.0.0.1` otherwise.
   */
  predicate IsLocalPeer(peer: HostAddress) {
    var localhost := if peer.IPv6? then LocalHostIPv6 else LocalHost;
    peer == localhost
  }

  lemma LocalPeers(peer: HostAddress)
    ensures IsLocalPeer(peer) <==> peer == LocalHost || peer == LocalHostIPv6
  {
  }

  const LF: char := '\n'

  /**
   * The number of bytes up to and including the first newline, or the whole buffer when
   * it holds no newline.
   */
  function LineLength(buf: seq<char>): (n: nat)
    ensures n <= |buf|
    ensures LF in buf ==> 0 < n && buf[n - 1] == LF && LF !in buf[..n - 1]
    ensures LF !in buf ==> n == |buf|
  {
    if buf == [] then 0
    else if buf[0] == LF then 1
    else
      var n := 1 + LineLength(buf[1..]);
      assert LF in buf ==> LF in buf[1..];
      assert LF in buf ==> buf[..n - 1] == [buf[0]] + buf[1..][..n - 2];
      n
  }

  /** The complete lines at the front of `buf`, each with its newline, in arrival order. */
  function Lines(buf: seq<char>): seq<seq<char>>
    decreases |buf|
  {
    if LF in buf then [buf[..LineLength(buf)]] + Lines(buf[LineLength(buf)..]) else []
  }

  /** What is left in `buf` after its complete lines: a partial line without a newline. */
  function Rest(buf: seq<char>): seq<char>
    decreases |buf|
  {
    if LF in buf then Rest(buf[LineLength(buf)..]) else buf
  }

  /** Reading one line off a buffer that holds one takes exactly the first of its lines. */
  lemma LinesStep(buf: seq<char>)
    requires LF in buf
    ensures Lines(buf) == [buf[..LineLength(buf)]] + Lines(buf[LineLength(buf)..])
    ensures Rest(buf) == Rest(buf[LineLength(buf)..])
  {
  }

  function Concat(lines: seq<seq<char>>): seq<char> {
    if lines == [] then [] else lines[0] + Concat(lines[1..])
  }

  /** A complete line: it ends with its newline and holds no other. */
  predicate IsLine(l: seq<char>) {
    0 < |l| && l[|l| - 1] == LF && LF !in l[..|l| - 1]
  }

  lemma ConcatCons(line: seq<char>, lines: seq<seq<char>>)
    ensures Concat([line] + lines) == line + Concat(lines)
  {
    assert ([line] + lines)[1..] == lines;
  }

  lemma Reassociate<T>(a: seq<T>, b: seq<T>, c: seq<T>)
    ensures (a + b) + c == a + (b + c)
  {
  }

  lemma SplitJoin(buf: seq<char>, n: nat)
    requires n <= |buf|
    ensures buf[..n] + buf[n..] == buf
  {
  }

  /** The lines, then the rest, give the buffer back. */
  lemma {:induction false} LinesConcat(buf: seq<char>)
    ensures Concat(Lines(buf)) + Rest(buf) == buf
    decreases |buf|
  {
    if LF in buf {
      var n := LineLength(buf);
      var tail := buf[n..];
      LinesConcat(tail);
      LinesStep(buf);
      ConcatCons(buf[..n], Lines(tail));
      Reassociate(buf[..n], Concat(Lines(tail)), Rest(tail));
      SplitJoin(buf, n);
    }
  }

  /** Every line of a buffer is complete. */
  lemma {:induction false} LinesComplete(buf: seq<char>)
    ensures forall k :: 0 <= k < |Lines(buf)| ==> IsLine(Lines(buf)[k])
    decreases |buf|
  {
    if LF in buf {
      var n := LineLength(buf);
      var tail := buf[n..];
      LinesComplete(tail);
      assert Lines(buf) == [buf[..n]] + Lines(tail);
      assert buf[..n][..n - 1] == buf[..n - 1];
    }
  }

  /** What is left after the lines holds no newline. */
  lemma {:induction false} RestHasNoLine(buf: seq<char>)
    ensures LF !in Rest(buf)
    decreases |buf|
  {
    if LF in buf {
      RestHasNoLine(buf[LineLength(buf)..]);
    }
  }

  /**
   * Splitting a buffer into lines loses nothing: the lines, then the rest, give the buffer
   * back; every line is complete, and the rest holds no newline.
   */
  lemma LinesPartition(buf: seq<char>)
    ensures Concat(Lines(buf)) + Rest(buf) == buf
    ensures forall k :: 0 <= k < |Lines(buf)| ==> IsLine(Lines(buf)[k])
    ensures LF !in Rest(buf)
  {
    LinesConcat(buf);
    LinesComplete(buf);
    RestHasNoLine(buf);
  }

  class Socket {
    var state: SocketState
    /** Received bytes not yet read. */
    var buffer: seq<char>
    /** Whether the TLS handshake has completed (`QSslSocket::isEncrypted`). */
    var encrypted: bool
    const peer: HostAddress
    /** `QAbstractSocket::LowDelayOption` (Nagle's algorithm disabled). */
    var lowDelay: bool
    /** `QAbstractSocket::KeepAliveOption`. */
    var keepAlive: bool

    constructor (peer: HostAddress, state: SocketState, buffer: seq<char>, encrypted: bool)
      ensures this.peer == peer && this.state == state && this.buffer == buffer
      ensures this.encrypted == encrypted && !lowDelay && !keepAlive
    {
      this.peer := peer;
      this.state := state;
      this.buffer := buffer;
      this.encrypted := encrypted;
      lowDelay := false;
      keepAlive := false;
    }

    /** `canReadLine`: a complete line is waiting. */
    predicate CanReadLine()
      reads this
    {
      LF in buffer
    }

    function BytesAvailable(): nat
      reads this
    {
      |buffer|
    }

    /**
     * `QIODevice::readLine(data, maxSize)`: reads at most `maxSize - 1` bytes, stopping after
     * the first newline, and returns how many it read; a `maxSize` below 2 is refused with -1.
     */
    method ReadLine(maxSize: int) returns (data: seq<char>, amount: int)
      modifies this`buffer
      ensures maxSize < 2 ==> amount == -1 && data == [] && buffer == old(buffer)
      ensures 2 <= maxSize ==>
        var n := if maxSize - 1 < LineLength(old(buffer)) then maxSize - 1 else LineLength(old(buffer));
        amount == n && data == old(buffer)[..n] && buffer == old(buffer)[n..]
      ensures 2 <= maxSize ==> amount <= maxSize - 1 && amount <= |old(buffer)|
    {
      if maxSize < 2 {
        data, amount := [], -1;
        return;
      }
      var n := LineLength(buffer);
      if maxSize - 1 < n {
        n := maxSize - 1;
      }
      data, amount := buffer[..n], n;
      buffer := buffer[n..];
    }

    /**
     * `QIODevice::readLine()`: reads up to and including the first newline, or everything
     * when no newline has arrived.
     */
    method ReadWholeLine() returns (data: seq<char>)
      modifies this`buffer
      ensures data == old(buffer)[..LineLength(old(buffer))]
      ensures buffer == old(buffer)[LineLength(old(buffer))..]
      ensures data + buffer == old(buffer)
    {
      var n := LineLength(buffer);
      data := buffer[..n];
      buffer := buffer[n..];
    }

    /** `disconnectFromHost`; flushing of pending writes is not modelled. */
    method DisconnectFromHost()
      modifies this`state
      ensures state == UnconnectedState
    {
      state := UnconnectedState;
    }
  }
}
