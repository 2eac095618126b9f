/**
 * The daemon's `Network`: it listens for management connections, keeps the sockets it has
 * accepted (`ur_sockets`, not yet registered) and the registered ones (`sockets`, by name),
 * drops the ones that have disconnected, and watches unregistered sockets for the `exit`
 * command. Every log line it emits carries the `network:` prefix.
 */
module NetworkCore {
  import opened Wrappers
  import Decimal
  import opened Sockets

  /** The exit code the daemon quits with when the server cannot listen (`E_TCP_SERVER_FAILED`). */
  datatype ExitCode = TcpServerFailed

  /** A request to the daemon to quit: queued without a code, or immediate with one. */
  datatype QuitRequest = QueuedQuit | QuitWithCode(code: ExitCode)

  const LogPrefix: string := "network:"

  /** What `log(msg)` emits. */
  function LogLine(msg: string): string {
    LogPrefix + msg
  }

  /** A log line starts with the prefix, and the message is recovered by dropping it. */
  lemma LogLineSpec(msg: string)
    ensures LogPrefix <= LogLine(msg) && LogLine(msg)[|LogPrefix|..] == msg
  {
    assert LogLine(msg)[..|LogPrefix|] == LogPrefix;
  }

  /** The address the server listens on: the loopback address unless external management is allowed. */
  function ListenAddress(allowExternal: bool): (a: HostAddress)
    ensures a == AnyAddress <==> allowExternal
    ensures !allowExternal ==> a == LocalHost
  {
    if allowExternal then AnyAddress else LocalHost
  }

  function ServerFailedMessage(errorString: string): string {
    "Server creation failed with error '" + errorString +
    "'.  This is likely because another DDX daemon is already running on this machine."
  }

  // ---------------------------------------------------------------------------------------
  // Trimming

  /** The whitespace `QString::trimmed` removes, among single-byte characters. */
  predicate IsSpace(c: char) {
    c == ' ' || '\t' <= c <= '\r'
  }

  /** How many whitespace characters `s` starts with. */
  function LeadingSpaces(s: string): (n: nat)
    ensures n <= |s| && (n < |s| ==> !IsSpace(s[n]))
    ensures forall k :: 0 <= k < n ==> IsSpace(s[k])
  {
    if s != [] && IsSpace(s[0]) then 1 + LeadingSpaces(s[1..]) else 0
  }

  /** How many whitespace characters `s` ends with. */
  function TrailingSpaces(s: string): (n: nat)
    ensures n <= |s| && (n < |s| ==> !IsSpace(s[|s| - n - 1]))
    ensures forall k :: |s| - n <= k < |s| ==> IsSpace(s[k])
  {
    if s != [] && IsSpace(s[|s| - 1]) then 1 + TrailingSpaces(s[..|s| - 1]) else 0
  }

  /** `QString::trimmed`: the middle of `s` left once whitespace is stripped from both ends. */
  function Trim(s: string): (r: string)
    ensures |r| <= |s|
    ensures s == [] || (!IsSpace(s[0]) && !IsSpace(s[|s| - 1])) ==> r == s
  {
    var rest := s[LeadingSpaces(s)..];
    assert s == [] || !IsSpace(s[0]) ==> rest == s;
    rest[..|rest| - TrailingSpaces(rest)]
  }

  /**
   * What `Trim` cuts off is whitespace, at both ends, and what it keeps is the rest of `s`
   * in one piece: empty, or starting and ending with a non-space.
   */
  lemma TrimSpec(s: string)
    ensures var r, n := Trim(s), LeadingSpaces(s);
      && n + |r| <= |s| && r == s[n..n + |r|]
      && (forall k :: 0 <= k < n ==> IsSpace(s[k]))
      && (forall k :: n + |r| <= k < |s| ==> IsSpace(s[k]))
      && (r != [] ==> !IsSpace(r[0]) && !IsSpace(r[|r| - 1]))
  {
    var n := LeadingSpaces(s);
    var rest := s[n..];
    var t := TrailingSpaces(rest);
    var r := rest[..|rest| - t];
    assert r == Trim(s);
    assert n + |r| <= |s|;
    assert r == s[n..n + |r|];
    assert Trim(s) == s[n..n + |Trim(s)|];
    forall k | n + |r| <= k < |s|
      ensures IsSpace(s[k])
    {
      assert s[k] == rest[k - n];
    }
    if r != [] {
      assert n < |s| && rest[0] == s[n] && r[0] == rest[0];
      assert t < |rest| && r[|r| - 1] == rest[|rest| - t - 1];
      assert !IsSpace(rest[|rest| - t - 1]);
      assert !IsSpace(r[0]) && !IsSpace(r[|r| - 1]);
    }
  }

  /**
   * The text `QString(QByteArray)` keeps of a line read from a socket: Qt 5 stops copying at
   * the first NUL byte.
   */
  function UntilNul(s: string): string {
    if s == [] || s[0] == '\0' then [] else [s[0]] + UntilNul(s[1..])
  }

  /** `UntilNul` keeps the longest prefix of `s` that holds no NUL. */
  lemma {:induction false} UntilNulSpec(s: string)
    ensures var r := UntilNul(s);
      && r <= s && '\0' !in r
      && (|r| < |s| ==> s[|r|] == '\0')
  {
    if s != [] && s[0] != '\0' {
      UntilNulSpec(s[1..]);
    }
  }

  /** A NUL byte ends the text: whatever follows it is lost. */
  lemma {:induction false} UntilNulStops(text: string, tail: string)
    requires '\0' !in text
    ensures UntilNul(text + ['\0'] + tail) == text
  {
    if text != [] {
      assert (text + ['\0'] + tail)[1..] == text[1..] + ['\0'] + tail;
      UntilNulStops(text[1..], tail);
    }
  }

  /** `exit` padded with whitespace and followed by a NUL byte is the exit command, whatever comes after. */
  lemma ExitBeforeNul(pre: string, post: string, tail: string)
    requires forall k :: 0 <= k < |pre| ==> IsSpace(pre[k])
    requires forall k :: 0 <= k < |post| ==> IsSpace(post[k])
    ensures Trim(UntilNul(pre + "exit" + post + ['\0'] + tail)) == "exit"
  {
    var text := pre + "exit" + post;
    assert forall k :: 0 <= k < |text| ==> text[k] != '\0' by {
      forall k | 0 <= k < |text|
        ensures text[k] != '\0'
      {
        if k < |pre| {
          assert IsSpace(pre[k]);
        } else if |pre| + 4 <= k {
          assert text[k] == post[k - |pre| - 4] && IsSpace(post[k - |pre| - 4]);
        }
      }
    }
    UntilNulStops(text, tail);
    ExitCommand(pre, post);
  }

  /** Trimming twice is trimming once: what `Trim` returns has nothing left to cut. */
  lemma TrimIdempotent(s: string)
    ensures Trim(Trim(s)) == Trim(s)
  {
    TrimSpec(s);
  }

  /** A line that is `exit` padded with whitespace on either side, `exit\r\n` say, is the exit command. */
  lemma ExitCommand(pre: string, post: string)
    requires forall k :: 0 <= k < |pre| ==> IsSpace(pre[k])
    requires forall k :: 0 <= k < |post| ==> IsSpace(post[k])
    ensures Trim(pre + "exit" + post) == "exit"
  {
    var s := pre + "exit" + post;
    assert s[|pre|] == 'e';
    assert LeadingSpaces(s) == |pre|;
    var rest := s[|pre|..];
    assert rest == "exit" + post;
    assert rest[3] == 't';
    assert TrailingSpaces(rest) == |post|;
    assert rest[..|rest| - |post|] == "exit";
  }

  // ---------------------------------------------------------------------------------------
  // Collections of sockets

  predicate Distinct<T(==)>(s: seq<T>) {
    forall i, j :: 0 <= i < j < |s| ==> s[i] != s[j]
  }

  /** A registered socket under its name: one entry of the `sockets` hash. */
  type Entry = (string, Socket)

  /** The names of a list of entries, position by position. */
  function Names(es: seq<Entry>): (r: seq<string>)
    ensures |r| == |es| && forall k :: 0 <= k < |es| ==> r[k] == es[k].0
  {
    if es == [] then [] else [es[0].0] + Names(es[1..])
  }

  /** The states of `ss`, position by position. */
  function States(ss: seq<Socket>): (r: seq<SocketState>)
    reads ss
    ensures |r| == |ss| && forall k :: 0 <= k < |ss| ==> r[k] == ss[k].state
  {
    if ss == [] then [] else [ss[0].state] + States(ss[1..])
  }

  /** The states of the sockets of a list of entries, position by position. */
  function EntryStates(es: seq<Entry>): (r: seq<SocketState>)
    reads set k | 0 <= k < |es| :: es[k].1
    ensures |r| == |es| && forall k :: 0 <= k < |es| ==> r[k] == es[k].1.state
  {
    if es == [] then [] else [es[0].1.state] + EntryStates(es[1..])
  }

  /**
   * The first `n` entries of `xs` whose state (`st[k]` being the state of `xs[k]`) is not
   * `UnconnectedState`, in their original order.
   */
  function KeepFirst<T>(xs: seq<T>, st: seq<SocketState>, n: nat): seq<T>
    requires |xs| == |st| && n <= |xs|
  {
    if n == 0 then []
    else KeepFirst(xs, st, n - 1) + (if st[n - 1] == UnconnectedState then [] else [xs[n - 1]])
  }

  /** The entries of `xs` whose state is not `UnconnectedState`, in their original order. */
  function Keep<T>(xs: seq<T>, st: seq<SocketState>): seq<T>
    requires |xs| == |st|
  {
    KeepFirst(xs, st, |xs|)
  }

  lemma {:induction false} KeepFirstExactly<T>(xs: seq<T>, st: seq<SocketState>, n: nat)
    requires |xs| == |st| && n <= |xs|
    ensures forall x :: x in KeepFirst(xs, st, n) ==> x in xs[..n]
    ensures forall i :: 0 <= i < n && st[i] != UnconnectedState ==> xs[i] in KeepFirst(xs, st, n)
    ensures Distinct(xs) ==> Distinct(KeepFirst(xs, st, n))
    ensures Distinct(xs) ==>
      forall i :: 0 <= i < n && st[i] == UnconnectedState ==> xs[i] !in KeepFirst(xs, st, n)
  {
    if n > 0 {
      var m := n - 1;
      KeepFirstExactly(xs, st, m);
      var kept := KeepFirst(xs, st, m);
      assert KeepFirst(xs, st, n) == kept + (if st[m] == UnconnectedState then [] else [xs[m]]);
      assert xs[..n] == xs[..m] + [xs[m]];
      if Distinct(xs) {
        assert xs[m] !in xs[..m];
        assert xs[m] !in kept;
        forall i | 0 <= i < n && st[i] == UnconnectedState
          ensures xs[i] !in KeepFirst(xs, st, n)
        {
          if i < m {
            assert xs[i] != xs[m];
          }
        }
      }
    }
  }

  /**
   * `Keep` keeps exactly the entries not in `UnconnectedState`: nothing is added, and every
   * entry whose state is not `UnconnectedState` survives. Without repetitions, the entries in
   * `UnconnectedState` are gone and none is repeated.
   */
  lemma KeepExactly<T>(xs: seq<T>, st: seq<SocketState>)
    requires |xs| == |st|
    ensures forall x :: x in Keep(xs, st) ==> x in xs
    ensures forall i :: 0 <= i < |xs| && st[i] != UnconnectedState ==> xs[i] in Keep(xs, st)
    ensures Distinct(xs) ==> Distinct(Keep(xs, st))
    ensures Distinct(xs) ==> forall i :: 0 <= i < |xs| && st[i] == UnconnectedState ==> xs[i] !in Keep(xs, st)
  {
    KeepFirstExactly(xs, st, |xs|);
    assert xs[..|xs|] == xs;
  }

  lemma NamesAppend(a: seq<Entry>, b: seq<Entry>)
    ensures Names(a + b) == Names(a) + Names(b)
  {
  }

  lemma {:induction false} KeepFirstNames(es: seq<Entry>, st: seq<SocketState>, n: nat)
    requires |es| == |st| && n <= |es|
    ensures Names(KeepFirst(es, st, n)) == KeepFirst(Names(es), st, n)
  {
    if n > 0 {
      var last: seq<Entry> := if st[n - 1] == UnconnectedState then [] else [es[n - 1]];
      KeepFirstNames(es, st, n - 1);
      NamesAppend(KeepFirst(es, st, n - 1), last);
      assert Names(last) == if st[n - 1] == UnconnectedState then [] else [Names(es)[n - 1]];
    }
  }

  /** Filtering entries and then taking their names is filtering the names. */
  lemma KeepNames(es: seq<Entry>, st: seq<SocketState>)
    requires |es| == |st|
    ensures Names(Keep(es, st)) == Keep(Names(es), st)
  {
    KeepFirstNames(es, st, |es|);
  }

  /** Filtering both collections keeps the conditions `Network.Valid` places on them. */
  lemma KeepKeepsApart(regs: seq<Entry>, regStates: seq<SocketState>,
                       urs: seq<Socket>, urStates: seq<SocketState>, pending: seq<Socket>)
    requires |regs| == |regStates| && |urs| == |urStates|
    requires Distinct(Names(regs)) && Distinct(urs)
    requires forall k :: 0 <= k < |pending| ==> pending[k] !in urs
    ensures Distinct(Names(Keep(regs, regStates))) && Distinct(Keep(urs, urStates))
    ensures forall k :: 0 <= k < |pending| ==> pending[k] !in Keep(urs, urStates)
  {
    KeepNames(regs, regStates);
    KeepExactly(Names(regs), regStates);
    KeepExactly(urs, urStates);
  }

  /**
   * An in-place filter of `xs` has decided its first `k` entries: `cur` holds the entries kept
   * so far, of which there are `j`, followed by the undecided rest of `xs`.
   */
  ghost predicate Filtered<T>(xs: seq<T>, st: seq<SocketState>, k: nat, cur: seq<T>, j: nat)
    requires |xs| == |st| && k <= |xs|
  {
    cur == KeepFirst(xs, st, k) + xs[k..] && j == |KeepFirst(xs, st, k)|
  }

  /** One step of the filter: drop the next entry at position `j`, or keep it and move on. */
  lemma FilterStep<T>(xs: seq<T>, st: seq<SocketState>, k: nat, cur: seq<T>, j: nat)
    requires |xs| == |st| && k <= |xs| && Filtered(xs, st, k, cur, j) && j < |cur|
    ensures k < |xs| && cur[j] == xs[k]
    ensures st[k] == UnconnectedState ==> Filtered(xs, st, k + 1, cur[..j] + cur[j + 1..], j)
    ensures st[k] != UnconnectedState ==> Filtered(xs, st, k + 1, cur, j + 1)
  {
    assert xs[k..] == [xs[k]] + xs[k + 1..];
    assert cur[..j] == KeepFirst(xs, st, k) && cur[j + 1..] == xs[k + 1..];
  }

  /** A filter with no undecided entry left has kept exactly `Keep(xs, st)`. */
  lemma FilterDone<T>(xs: seq<T>, st: seq<SocketState>, k: nat, cur: seq<T>, j: nat)
    requires |xs| == |st| && k <= |xs| && Filtered(xs, st, k, cur, j) && |cur| <= j
    ensures cur == Keep(xs, st)
  {
  }

  /** The receive buffers of `ss`, position by position. */
  function Buffers(ss: seq<Socket>): (r: seq<seq<char>>)
    reads ss
    ensures |r| == |ss| && forall k :: 0 <= k < |ss| ==> r[k] == ss[k].buffer
  {
    if ss == [] then [] else [ss[0].buffer] + Buffers(ss[1..])
  }

  /** Whether each entry's socket holds a complete line, position by position. */
  function Readable(es: seq<Entry>): (r: seq<bool>)
    reads set k | 0 <= k < |es| :: es[k].1
    ensures |r| == |es| && forall k :: 0 <= k < |es| ==> r[k] == es[k].1.CanReadLine()
  {
    if es == [] then [] else [es[0].1.CanReadLine()] + Readable(es[1..])
  }

  // ---------------------------------------------------------------------------------------
  // What `handleData` does with each socket

  function FirstLine(buf: seq<char>): seq<char> {
    buf[..LineLength(buf)]
  }

  /** The buffer once `handleData` has read one line from it, if it had a complete one. */
  function AfterRead(buf: seq<char>): seq<char> {
    if LF in buf then buf[LineLength(buf)..] else buf
  }

  /** The socket's next complete line, cut at a NUL and trimmed, is the exit command. */
  predicate SaysExit(buf: seq<char>) {
    LF in buf && Trim(UntilNul(FirstLine(buf))) == "exit"
  }

  /** The position of the first buffer that says exit, or the number of buffers when none does. */
  function ExitIndex(bufs: seq<seq<char>>): (e: nat)
    ensures e <= |bufs|
  {
    if bufs == [] then 0
    else if SaysExit(bufs[0]) then 0
    else 1 + ExitIndex(bufs[1..])
  }

  /** `ExitIndex` finds the first buffer that says exit: none before it does, and it does. */
  lemma {:induction false} ExitIndexSpec(bufs: seq<seq<char>>)
    ensures forall k :: 0 <= k < ExitIndex(bufs) ==> !SaysExit(bufs[k])
    ensures ExitIndex(bufs) < |bufs| ==> SaysExit(bufs[ExitIndex(bufs)])
  {
    if bufs != [] && !SaysExit(bufs[0]) {
      ExitIndexSpec(bufs[1..]);
      assert forall k :: 1 <= k < |bufs| ==> bufs[k] == bufs[1..][k - 1];
    }
  }

  /** How many unregistered sockets one `handleData` call visits: up to and including the exit. */
  function Visited(bufs: seq<seq<char>>): nat {
    if ExitIndex(bufs) < |bufs| then ExitIndex(bufs) + 1 else |bufs|
  }

  /** What `handleData` logs for one unregistered socket: its next line, cut at a NUL and trimmed, if it has one. */
  function SaidLine(buf: seq<char>): seq<string> {
    if LF in buf then [LogLine(SaidMessage(Trim(UntilNul(FirstLine(buf)))))] else []
  }

  /** The `Device said` lines for the first `n` buffers, in visiting order. */
  function DeviceSaid(bufs: seq<seq<char>>, n: nat): seq<string>
    requires n <= |bufs|
  {
    if n == 0 then [] else DeviceSaid(bufs, n - 1) + SaidLine(bufs[n - 1])
  }

  /** A visit ends at the first socket that says exit, and only there. */
  lemma ExitStep(bufs: seq<seq<char>>, i: nat)
    requires i < |bufs| && i <= ExitIndex(bufs)
    ensures SaysExit(bufs[i]) ==> ExitIndex(bufs) == i && Visited(bufs) == i + 1 && i < |bufs|
    ensures !SaysExit(bufs[i]) ==> i + 1 <= ExitIndex(bufs)
  {
    ExitIndexSpec(bufs);
  }

  /** A visit that got past every socket visited them all. */
  lemma VisitedAll(bufs: seq<seq<char>>)
    requires |bufs| <= ExitIndex(bufs)
    ensures Visited(bufs) == |bufs|
  {
  }

  /** One `Can read data` line for each of the first `n` registered sockets that holds a complete line. */
  function ReadyLogsFirst(ready: seq<bool>, n: nat): (r: seq<string>)
    requires n <= |ready|
    ensures |r| <= n
  {
    if n == 0 then []
    else ReadyLogsFirst(ready, n - 1) + (if ready[n - 1] then [LogLine("Can read data")] else [])
  }

  /** One `Can read data` line per registered socket that holds a complete line. */
  function ReadyLogs(ready: seq<bool>): (r: seq<string>)
    ensures |r| <= |ready|
  {
    ReadyLogsFirst(ready, |ready|)
  }

  /**
   * The lines logged when a pending connection is taken: a warning for a socket that is
   * not connected, the arrival itself, and a warning for a peer that is not IPv4 loopback.
   */
  function ArrivalLogs(state: SocketState, peer: HostAddress): (r: seq<string>)
    ensures LogLine("Connection found") in r
    ensures LogLine("Not in connected state?") in r <==> state != ConnectedState
    ensures LogLine("Connection not from ipv4 localhost") in r <==> peer != LocalHost
  {
    (if state != ConnectedState then [LogLine("Not in connected state?")] else [])
    + [LogLine("Connection found")]
    + (if peer != LocalHost then [LogLine("Connection not from ipv4 localhost")] else [])
  }

  /** The line logged for a line read from a socket that has not registered. */
  function SaidMessage(line: string): string {
    "Device said '" + line + "'"
  }

  /** The line logged once the pending connections are taken, with the server's child count. */
  function ChildrenMessage(children: nat): string {
    "Server has " + Decimal.NatToDecimal(children) + " children"
  }

  /** The line logged after a disconnection, with the number of connections left. */
  function DisconnectedMessage(active: nat): string {
    "Disconnected; there are " + Decimal.NatToDecimal(active) + " active connections"
  }

  // ---------------------------------------------------------------------------------------

  class Network {
    /** The registered sockets under their names, in the hash's iteration order. */
    var sockets: seq<Entry>
    /** Accepted sockets that have not registered yet. */
    var urSockets: seq<Socket>
    /** Connections the server has accepted but not yet handed out. */
    var pending: seq<Socket>
    /** The address and port the server listens on, once it does. */
    var listening: Option<(HostAddress, int)>
    /** Everything emitted through `sendLog`, oldest first. */
    var logs: seq<string>
    /** Quit requests sent to the daemon, oldest first. */
    var quits: seq<QuitRequest>

    /** The collections stay free of repetitions, and no pending connection is already listed. */
    ghost predicate Valid()
      reads this`sockets, this`urSockets, this`pending
    {
      && Distinct(Names(sockets))
      && Distinct(urSockets) && Distinct(pending)
      && (forall k :: 0 <= k < |pending| ==> pending[k] !in urSockets)
    }

    constructor (pending: seq<Socket>)
      requires Distinct(pending)
      ensures Valid()
      ensures sockets == [] && urSockets == [] && this.pending == pending
      ensures listening == None && logs == [] && quits == []
    {
      sockets := [];
      urSockets := [];
      this.pending := pending;
      listening := None;
      logs := [];
      quits := [];
    }

    /** `log`: every message goes out prefixed with `network:`. */
    method Log(msg: string)
      modifies this`logs
      ensures logs == old(logs) + [LogLine(msg)]
    {
      logs := logs + [LogPrefix + msg];
    }

    /**
     * `init`: listens on the loopback address, or on any address when external management is
     * allowed; when listening fails, logs why and asks the daemon to quit with
     * `E_TCP_SERVER_FAILED`, and goes no further.
     */
    method Init(port: int, allowExternal: bool, listenSucceeds: bool, errorString: string)
      requires Valid()
      modifies this`listening, this`logs, this`quits
      ensures Valid()
      ensures listenSucceeds ==>
        listening == Some((ListenAddress(allowExternal), port)) && logs == old(logs) && quits == old(quits)
      ensures !listenSucceeds ==>
        && listening == old(listening)
        && logs == old(logs) + [LogLine(ServerFailedMessage(errorString))]
        && quits == old(quits) + [QuitWithCode(TcpServerFailed)]
    {
      var a := LocalHost;
      if allowExternal {
        a := AnyAddress;
      }
      if !listenSucceeds {
        Log(ServerFailedMessage(errorString));
        quits := quits + [QuitWithCode(TcpServerFailed)];
        return;
      }
      listening := Some((a, port));
    }

    /**
     * `handleData`: notes each registered socket that holds a line; then, in list order, reads
     * one line from each unregistered socket that holds one and logs it trimmed. A trimmed
     * line equal to `exit` queues a quit request and ends the call at once.
     */
    method HandleData()
      requires Valid()
      modifies this`logs, this`quits, urSockets`buffer
      ensures Valid() && urSockets == old(urSockets)
      ensures sockets == old(sockets) && pending == old(pending)
      ensures old(logs) <= logs && old(quits) <= quits
      ensures ReadAll(old(Buffers(urSockets)), old(logs) + ReadyLogs(old(Readable(sockets))), old(quits))
    {
      ghost var olds := Buffers(urSockets);
      ghost var ready := Readable(sockets);
      ghost var logs0 := logs;
      ReportReady();
      assert logs == logs0 + ReadyLogs(ready);
      assert Buffers(urSockets) == olds;
      ReadUnregistered();
    }

    /** The first loop of `handleData`: one `Can read data` line per registered socket holding a line. */
    method ReportReady()
      requires Valid()
      modifies this`logs
      ensures Valid()
      ensures logs == old(logs) + ReadyLogs(old(Readable(sockets)))
    {
      ghost var ready := Readable(sockets);
      ghost var logs0 := logs;
      for i := 0 to |sockets|
        invariant ready == Readable(sockets) && logs == logs0 + ReadyLogsFirst(ready, i)
      {
        ReportOne(i, ready, logs0);
      }
    }

    /** One turn of the first loop of `handleData`: the `i`-th registered socket is looked at. */
    method ReportOne(i: nat, ghost ready: seq<bool>, ghost logs0: seq<string>)
      requires i < |sockets| && ready == Readable(sockets)
      requires logs == logs0 + ReadyLogsFirst(ready, i)
      modifies this`logs
      ensures logs == logs0 + ReadyLogsFirst(ready, i + 1)
    {
      if sockets[i].1.CanReadLine() {
        Log("Can read data");
      }
      Reassociate(logs0, ReadyLogsFirst(ready, i), if ready[i] then [LogLine("Can read data")] else []);
    }

    /**
     * The second loop of `handleData`: reads and logs one line from each unregistered socket
     * holding one, up to the first that says `exit`, which queues a quit request.
     */
    method ReadUnregistered()
      requires Distinct(urSockets)
      modifies this`logs, this`quits, urSockets`buffer
      ensures ReadAll(old(Buffers(urSockets)), old(logs), old(quits))
    {
      ghost var olds := Buffers(urSockets);
      ghost var logs0, quits0 := logs, quits;
      var i: nat := 0;
      var exit := false;
      while i < |urSockets| && !exit
        modifies this`logs, this`quits, urSockets`buffer
        invariant Reading(olds, logs0, quits0, i, exit)
        decreases |urSockets| - i
      {
        exit := ReadNext(olds, logs0, quits0, i);
        i := i + 1;
      }
      ReadingDone(olds, logs0, quits0, i, exit);
    }

    /**
     * What the second loop of `handleData` leaves, given the buffers `olds`, the log `logs0`
     * and the quit requests `quits0` from before it: the first `Visited(olds)` unregistered
     * sockets had their line read and the others are untouched, one `Device said` line was
     * logged for each line read, and a quit was queued exactly when some line said exit.
     */
    ghost predicate ReadAll(olds: seq<seq<char>>, logs0: seq<string>, quits0: seq<QuitRequest>)
      reads this, urSockets
    {
      && |urSockets| == |olds|
      && (forall k :: 0 <= k < Visited(olds) ==> urSockets[k].buffer == AfterRead(olds[k]))
      && (forall k :: Visited(olds) <= k < |urSockets| ==> urSockets[k].buffer == olds[k])
      && quits == quits0 + (if ExitIndex(olds) < |olds| then [QueuedQuit] else [])
      && logs == logs0 + DeviceSaid(olds, Visited(olds))
    }

    /** When the second loop of `handleData` stops, exactly the first `Visited(olds)` sockets were read. */
    lemma ReadingDone(olds: seq<seq<char>>, logs0: seq<string>, quits0: seq<QuitRequest>, i: nat, exit: bool)
      requires Reading(olds, logs0, quits0, i, exit) && (i == |urSockets| || exit)
      ensures ReadAll(olds, logs0, quits0)
    {
      if !exit {
        VisitedAll(olds);
      }
    }

    /**
     * The second loop of `handleData` has read the first `i` unregistered sockets, whose
     * buffers were `olds` before it began, and has stopped early exactly when `exit` is set.
     */
    ghost predicate Reading(olds: seq<seq<char>>, logs0: seq<string>, quits0: seq<QuitRequest>, i: nat, exit: bool)
      reads this, urSockets
    {
      && Distinct(urSockets) && |urSockets| == |olds| && i <= |olds|
      && (if exit then 0 < i && ExitIndex(olds) == i - 1 && Visited(olds) == i else i <= ExitIndex(olds))
      && (forall k :: 0 <= k < i ==> urSockets[k].buffer == AfterRead(olds[k]))
      && (forall k :: i <= k < |urSockets| ==> urSockets[k].buffer == olds[k])
      && logs == logs0 + DeviceSaid(olds, i)
      && quits == quits0 + (if exit then [QueuedQuit] else [])
    }

    /** One turn of the second loop of `handleData`: the `i`-th unregistered socket is read. */
    method ReadNext(ghost olds: seq<seq<char>>, ghost logs0: seq<string>, ghost quits0: seq<QuitRequest>, i: nat)
        returns (exit: bool)
      requires Reading(olds, logs0, quits0, i, false) && i < |urSockets|
      modifies this`logs, this`quits, {urSockets[i]}`buffer
      ensures Reading(olds, logs0, quits0, i + 1, exit)
    {
      ExitStep(olds, i);
      ghost var before := logs;
      var s := urSockets[i];
      exit := ReadFrom(s, olds[i]);
      assert forall k :: 0 <= k < |urSockets| && k != i ==> urSockets[k] != s;
      assert logs == before + SaidLine(olds[i]);
      assert DeviceSaid(olds, i + 1) == DeviceSaid(olds, i) + SaidLine(olds[i]);
    }

    /**
     * The body of the second loop of `handleData` for one socket: a complete line is read,
     * cut at its first NUL, trimmed and logged, and the result says whether it was the exit command.
     */
    method ReadFrom(s: Socket, ghost buf: seq<char>) returns (exit: bool)
      requires s.buffer == buf
      modifies this`logs, this`quits, s`buffer
      ensures s.buffer == AfterRead(buf)
      ensures logs == old(logs) + SaidLine(buf)
      ensures exit == SaysExit(buf)
      ensures quits == old(quits) + (if exit then [QueuedQuit] else [])
    {
      exit := false;
      if s.CanReadLine() {
        var raw := s.ReadWholeLine();
        var line := Trim(UntilNul(raw));
        Log(SaidMessage(line));
        if line == "exit" {
          quits := quits + [QueuedQuit];
          exit := true;
        }
      }
    }

    /**
     * `handleConnection`: every connection waiting at the server joins the end of the
     * unregistered list, in arrival order, until none is left; one that already holds data
     * has it handled at once.
     */
    method HandleConnection(children: nat)
      requires Valid()
      modifies this`urSockets, this`pending, this`logs, this`quits, urSockets`buffer, pending`buffer
      ensures Valid()
      ensures urSockets == old(urSockets) + old(pending) && pending == [] && sockets == old(sockets)
      ensures forall t :: t in urSockets ==> t.state == old(t.state)
      ensures old(quits) <= quits && forall k :: |old(quits)| <= k < |quits| ==> quits[k] == QueuedQuit
      ensures |old(logs)| < |logs| && logs[..|old(logs)|] == old(logs)
      ensures logs[|logs| - 1] == LogLine(ChildrenMessage(children))
    {
      ghost var arrivals := urSockets + pending;
      ghost var logs0, quits0 := logs, quits;
      while pending != []
        invariant Draining(old(sockets), arrivals, logs0, quits0)
        decreases |pending|
      {
        AcceptNext(old(sockets), arrivals, logs0, quits0);
      }
      Log(ChildrenMessage(children));
    }

    /**
     * The loop of `handleConnection` has admitted, in order, a prefix of the connections
     * `arrivals` that were listed or waiting when it began; the log and the quit requests
     * have only grown, and only by plain quits.
     */
    ghost predicate Draining(sockets0: seq<Entry>, arrivals: seq<Socket>, logs0: seq<string>, quits0: seq<QuitRequest>)
      reads this
    {
      && Valid() && sockets == sockets0
      && urSockets + pending == arrivals
      && logs0 <= logs && quits0 <= quits
      && (forall k :: |quits0| <= k < |quits| ==> quits[k] == QueuedQuit)
    }

    /** One turn of the loop of `handleConnection`: the next waiting connection is accepted. */
    method AcceptNext(ghost sockets0: seq<Entry>, ghost arrivals: seq<Socket>, ghost logs0: seq<string>,
                      ghost quits0: seq<QuitRequest>)
      requires Draining(sockets0, arrivals, logs0, quits0) && pending != []
      modifies this`urSockets, this`pending, this`logs, this`quits, arrivals`buffer
      ensures Draining(sockets0, arrivals, logs0, quits0) && |pending| < old(|pending|)
    {
      ghost var before := urSockets;
      ghost var rest := pending[1..];
      ghost var q := quits;
      assert forall k :: 0 <= k < |urSockets| ==> urSockets[k] == arrivals[k];
      assert pending[0] == arrivals[|urSockets|];
      Accept();
      assert before + [old(pending)[0]] + rest == before + ([old(pending)[0]] + rest);
      assert urSockets + pending == arrivals;
      assert forall k :: |quits0| <= k < |quits| ==> quits[k] == QueuedQuit by {
        assert quits == q || quits == q + [QueuedQuit];
      }
    }

    /** The log lines written for a newly accepted connection. */
    method LogArrival(s: Socket)
      modifies this`logs
      ensures logs == old(logs) + ArrivalLogs(s.state, s.peer)
    {
      if s.state != ConnectedState {
        Log("Not in connected state?");
      }
      Log("Connection found");
      if s.peer != LocalHost {
        Log("Connection not from ipv4 localhost");
      }
    }

    /** The next waiting connection is taken from the server, logged, and joins the unregistered list. */
    method Admit() returns (s: Socket)
      requires Valid() && pending != []
      modifies this`urSockets, this`pending, this`logs
      ensures Valid() && sockets == old(sockets) && s == old(pending[0])
      ensures urSockets == old(urSockets) + [s] && pending == old(pending[1..])
      ensures logs == old(logs) + ArrivalLogs(s.state, s.peer)
    {
      s := pending[0];
      assert s !in urSockets;
      assert forall k :: 1 <= k < |pending| ==> pending[k] != s;
      pending := pending[1..];
      LogArrival(s);
      urSockets := urSockets + [s];
    }

    /**
     * What one round of the loop of `handleConnection` leaves, given the unregistered buffers
     * `olds` with the newcomer's last, the log `arrived` that ends with its arrival lines, the
     * quit requests `quits0` and the registered sockets' readiness `ready` from before the
     * round: when the newcomer held data, `handleData` ran over all of them, as `ReadAll`
     * describes; otherwise no buffer, log line or quit request changed.
     */
    ghost predicate Accepted(olds: seq<seq<char>>, arrived: seq<string>, quits0: seq<QuitRequest>,
                             ready: seq<bool>, hadData: bool)
      reads this, urSockets
    {
      if hadData then ReadAll(olds, arrived + ReadyLogs(ready), quits0)
      else logs == arrived && quits == quits0 && Buffers(urSockets) == olds
    }

    /**
     * One round of the loop of `handleConnection`: the next waiting connection is admitted,
     * and its data, if it already has some, is handled.
     */
    method Accept()
      requires Valid() && pending != []
      modifies this`urSockets, this`pending, this`logs, this`quits, urSockets`buffer, {pending[0]}`buffer
      ensures Valid() && sockets == old(sockets)
      ensures urSockets == old(urSockets) + [old(pending[0])] && pending == old(pending[1..])
      ensures old(logs) <= logs && (quits == old(quits) || quits == old(quits) + [QueuedQuit])
      ensures Accepted(old(Buffers(urSockets)) + [old(pending[0].buffer)],
                       old(logs) + ArrivalLogs(old(pending[0].state), old(pending[0]).peer),
                       old(quits), old(Readable(sockets)), old(pending[0].BytesAvailable()) > 0)
    {
      ghost var olds := Buffers(urSockets) + [pending[0].buffer];
      ghost var ready := Readable(sockets);
      var s := Admit();
      assert Buffers(urSockets) == olds;
      assert Readable(sockets) == ready;
      if s.BytesAvailable() > 0 {
        HandleData();
      }
    }

    /**
     * `handleDisconnection`: drops every socket in `UnconnectedState` from both collections,
     * the others keeping their order, and logs how many connections remain.
     */
    method HandleDisconnection()
      requires Valid()
      modifies this`sockets, this`urSockets, this`logs
      ensures Valid()
      ensures sockets == Keep(old(sockets), old(EntryStates(sockets)))
      ensures urSockets == Keep(old(urSockets), old(States(urSockets)))
      ensures forall k :: 0 <= k < |sockets| ==> sockets[k].1.state != UnconnectedState
      ensures forall k :: 0 <= k < |urSockets| ==> urSockets[k].state != UnconnectedState
      ensures logs == old(logs) +
        [LogLine(DisconnectedMessage(|sockets| + |urSockets|))]
    {
      DropClosed();
      Log(DisconnectedMessage(|sockets| + |urSockets|));
    }

    /** Both loops of `handleDisconnection`: the closed sockets leave both collections. */
    method DropClosed()
      requires Valid()
      modifies this`sockets, this`urSockets
      ensures Valid()
      ensures sockets == Keep(old(sockets), old(EntryStates(sockets)))
      ensures urSockets == Keep(old(urSockets), old(States(urSockets)))
      ensures forall k :: 0 <= k < |sockets| ==> sockets[k].1.state != UnconnectedState
      ensures forall k :: 0 <= k < |urSockets| ==> urSockets[k].state != UnconnectedState
    {
      ghost var regs, regStates := sockets, EntryStates(sockets);
      ghost var urs, urStates := urSockets, States(urSockets);
      DropRegistered();
      DropUnregistered();
      KeepKeepsApart(regs, regStates, urs, urStates, pending);
    }

    /** Decides the `k`-th registered entry, which sits at position `i`: it goes or it stays. */
    method DropRegisteredStep(ghost regs: seq<Entry>, ghost st: seq<SocketState>, ghost k: nat, i: nat)
      returns (i': nat)
      requires |regs| == |st| && k <= |regs| && Filtered(regs, st, k, sockets, i) && i < |sockets|
      requires st == EntryStates(regs)
      requires forall m :: 0 <= m < i ==> sockets[m].1.state != UnconnectedState
      modifies this`sockets
      ensures k < |regs| && Filtered(regs, st, k + 1, sockets, i')
      ensures forall m :: 0 <= m < i' ==> sockets[m].1.state != UnconnectedState
    {
      FilterStep(regs, st, k, sockets, i);
      if sockets[i].1.state == UnconnectedState {
        sockets := sockets[..i] + sockets[i + 1..];
        i' := i;
      } else {
        i' := i + 1;
      }
    }

    /** The first loop of `handleDisconnection`: erases the registered entries whose socket is unconnected. */
    method DropRegistered()
      modifies this`sockets
      ensures sockets == Keep(old(sockets), old(EntryStates(sockets)))
      ensures forall k :: 0 <= k < |sockets| ==> sockets[k].1.state != UnconnectedState
    {
      ghost var regs := sockets;
      ghost var st := EntryStates(sockets);
      var i: nat := 0;
      ghost var k := 0;
      while i < |sockets|
        invariant 0 <= k <= |regs| && |regs| == |st| && Filtered(regs, st, k, sockets, i)
        invariant st == EntryStates(regs)
        invariant forall m :: 0 <= m < i ==> sockets[m].1.state != UnconnectedState
        decreases |regs| - k
      {
        i := DropRegisteredStep(regs, st, k, i);
        k := k + 1;
      }
      FilterDone(regs, st, k, sockets, i);
    }

    /** Decides the `k`-th unregistered socket, which sits at position `j`: it goes or it stays. */
    method DropUnregisteredStep(ghost urs: seq<Socket>, ghost st: seq<SocketState>, ghost k: nat, j: nat)
      returns (j': nat)
      requires |urs| == |st| && k <= |urs| && Filtered(urs, st, k, urSockets, j) && j < |urSockets|
      requires st == States(urs)
      requires forall m :: 0 <= m < j ==> urSockets[m].state != UnconnectedState
      modifies this`urSockets
      ensures k < |urs| && Filtered(urs, st, k + 1, urSockets, j')
      ensures forall m :: 0 <= m < j' ==> urSockets[m].state != UnconnectedState
    {
      FilterStep(urs, st, k, urSockets, j);
      if urSockets[j].state == UnconnectedState {
        urSockets := urSockets[..j] + urSockets[j + 1..];
        j' := j;
      } else {
        j' := j + 1;
      }
    }

    /** The second loop of `handleDisconnection`: removes the unregistered sockets that are unconnected. */
    method DropUnregistered()
      modifies this`urSockets
      ensures urSockets == Keep(old(urSockets), old(States(urSockets)))
      ensures forall k :: 0 <= k < |urSockets| ==> urSockets[k].state != UnconnectedState
    {
      ghost var urs := urSockets;
      ghost var st := States(urSockets);
      var j: nat := 0;
      ghost var k := 0;
      while j < |urSockets|
        invariant 0 <= k <= |urs| && |urs| == |st| && Filtered(urs, st, k, urSockets, j)
        invariant st == States(urs)
        invariant forall m :: 0 <= m < j ==> urSockets[m].state != UnconnectedState
        decreases |urs| - k
      {
        j := DropUnregisteredStep(urs, st, k, j);
        k := k + 1;
      }
      FilterDone(urs, st, k, urSockets, j);
    }

    /** `handleNetworkError`: `RemoteHostClosedError` is ignored, any other error is logged. */
    method HandleNetworkError(e: SocketError)
      requires Valid()
      modifies this`logs
      ensures Valid()
      ensures IsReportedError(e) ==> logs == old(logs) + [LogLine(UnhandledErrorMessage(e))]
      ensures !IsReportedError(e) ==> logs == old(logs)
    {
      if e == RemoteHostClosedError {
        return;
      }
      Log(UnhandledErrorMessage(e));
    }
  }
}
