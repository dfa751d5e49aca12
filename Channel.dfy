/**
 * The SMTP channel of smtp-channel.ts: one socket at a time, the listeners on
 * it, the promises of the commands in flight, and the logs of what the
 * channel's subjects emit. Socket events (the connection being established,
 * data, end, error, close, timeout) are methods the environment calls.
 */
module Channel {
  import opened Wrappers
  import opened JsText
  import opened LineFraming
  import opened Reply
  import opened Delivery

  /** The callback of the pending `lib.connect`, run when the socket connects. */
  datatype ConnectCallback = PlainConnect | TlsConnect(command: nat)

  class SMTPChannel {
    /** Whether `_connectAsPromised` and `_closeAsPromised` reject where
        smtp-channel.ts resolves, as the compiled dist/debug/smtp-channel.js does. */
    const compiledGuards: bool
    /** `_config.secure`. */
    const secureConfig: bool
    /** `_receiveBuffer`: frames server replies into lines. */
    const receiveBuffer: LineBuffer
    /** `_sendBuffer`: frames what is written into command lines. */
    const sendBuffer: LineBuffer

    /** `_socket`, by identity. */
    var socket: Option<nat>
    var nextSocket: nat
    /** `_isSecure`. */
    var isSecure: bool
    /** The listeners on the socket the channel holds, in registration order. */
    var listeners: seq<Listener>
    /** The connect callback of the held socket, until it connects. */
    var pendingConnect: Option<ConnectCallback>
    /** The subscriptions to the receive framer's line subject, in order. */
    var subscribers: seq<Subscriber>
    /** The promise of every command, indexed by command. */
    var cells: seq<Settlement>
    /** Every call of a client handler. */
    var calls: seq<HandlerCall>
    /** Everything piped to the socket. */
    var writes: seq<string>
    /** What the subjects emitted. */
    var notices: seq<Notice>

    ghost predicate Valid()
      reads this`socket, this`nextSocket, this`listeners, this`pendingConnect, this`subscribers, this`cells
    {
      && receiveBuffer != sendBuffer
      && (socket.None? ==> listeners == [] && pendingConnect.None?)
      && (socket.Some? ==> socket.value < nextSocket)
      && ListenersBelow(listeners, |cells|)
      && Below(subscribers, |cells|)
      && (pendingConnect.Some? ==> NoHandlers(listeners))
      && (pendingConnect.Some? && pendingConnect.value.TlsConnect? ==> pendingConnect.value.command < |cells|)
    }

    constructor (compiledGuards: bool, secureConfig: bool)
      ensures Valid()
      ensures this.compiledGuards == compiledGuards && this.secureConfig == secureConfig
      ensures socket.None? && !isSecure && listeners == [] && pendingConnect.None?
      ensures subscribers == [] && cells == [] && calls == [] && writes == [] && notices == []
      ensures fresh(receiveBuffer) && fresh(sendBuffer)
      ensures receiveBuffer.buffer == [] && sendBuffer.buffer == []
    {
      this.compiledGuards := compiledGuards;
      this.secureConfig := secureConfig;
      receiveBuffer := new LineBuffer();
      sendBuffer := new LineBuffer();
      socket := None;
      nextSocket := 0;
      isSecure := false;
      listeners := [];
      pendingConnect := None;
      subscribers := [];
      cells := [];
      calls := [];
      writes := [];
      notices := [];
    }

    /** The part of `_resolveCommand` that runs at once: the guards of command
        `c` on the socket and its subscription to the line subject. */
    method ResolveCommand(c: nat, handler: Option<nat>)
      requires Valid() && socket.Some? && c < |cells|
      modifies this
      ensures Valid()
      ensures listeners == old(listeners) + [CloseGuard(c), ErrorGuard(c)]
      ensures subscribers == old(subscribers) + [Subscriber(c, handler)]
      ensures socket == old(socket) && nextSocket == old(nextSocket) && isSecure == old(isSecure)
      ensures pendingConnect == old(pendingConnect) && cells == old(cells)
      ensures calls == old(calls) && writes == old(writes) && notices == old(notices)
    {
      listeners := listeners + [CloseGuard(c), ErrorGuard(c)];
      subscribers := subscribers + [Subscriber(c, handler)];
    }

    /** `_connectAsPromised(handler)`: the new command is `c`. */
    method Connect(handler: Option<nat>) returns (c: nat)
      requires Valid()
      modifies this
      ensures Valid() && c == |old(cells)|
      ensures old(socket).Some? ==>
        && cells == old(cells) + [if compiledGuards then Rejected(NoReason) else Resolved(None)]
        && socket == old(socket) && listeners == old(listeners) && subscribers == old(subscribers)
        && pendingConnect == old(pendingConnect) && nextSocket == old(nextSocket)
      ensures old(socket).None? ==>
        && cells == old(cells) + [Pending]
        && socket == Some(old(nextSocket)) && nextSocket == old(nextSocket) + 1
        && listeners == [CloseGuard(c), ErrorGuard(c)]
        && subscribers == old(subscribers) + [Subscriber(c, handler)]
        && pendingConnect == Some(PlainConnect)
      ensures isSecure == old(isSecure)
      ensures calls == old(calls) && writes == old(writes) && notices == old(notices)
    {
      c := |cells|;
      if socket.Some? {
        cells := cells + [if compiledGuards then Rejected(NoReason) else Resolved(None)];
        return;
      }
      cells := cells + [Pending];
      socket := Some(nextSocket);
      nextSocket := nextSocket + 1;
      pendingConnect := Some(PlainConnect);
      ResolveCommand(c, handler);
    }

    /** The held socket connects and its `lib.connect` callback runs. */
    method SocketConnect()
      requires Valid()
      modifies this
      ensures Valid()
      ensures old(pendingConnect) == Some(PlainConnect) ==>
        && isSecure == secureConfig
        && listeners == old(listeners) + ChannelHandlers
        && notices == old(notices) + [Connected]
        && cells == old(cells)
      ensures old(pendingConnect).Some? && old(pendingConnect).value.TlsConnect? ==>
        && isSecure
        && listeners == WithoutKind(old(listeners), ErrorEvent) + ChannelHandlers
        && notices == old(notices)
        && cells == Settle(old(cells), old(pendingConnect).value.command, Resolved(None))
      ensures old(pendingConnect).None? ==>
        isSecure == old(isSecure) && listeners == old(listeners) && notices == old(notices) && cells == old(cells)
      ensures pendingConnect.None?
      ensures socket == old(socket) && nextSocket == old(nextSocket) && subscribers == old(subscribers)
      ensures calls == old(calls) && writes == old(writes)
    {
      match pendingConnect
      case None =>
      case Some(PlainConnect) =>
        isSecure := secureConfig;
        listeners := listeners + ChannelHandlers;
        notices := notices + [Connected];
        pendingConnect := None;
      case Some(TlsConnect(t)) =>
        isSecure := true;
        listeners := WithoutKind(listeners, ErrorEvent) + ChannelHandlers;
        cells := Settle(cells, t, Resolved(None));
        pendingConnect := None;
    }

    /** Runs the listeners `fired` of a `close` event, in order. */
    method FireClose(fired: seq<Listener>)
      requires Valid() && ListenersBelow(fired, |cells|)
      requires Handler(CloseEvent) in fired ==> pendingConnect.None?
      modifies this
      ensures Valid()
      ensures cells == CloseCells(old(cells), fired)
      ensures listeners == CloseListeners(old(listeners), fired)
      ensures notices == old(notices) + CloseNotices(fired)
      ensures socket == if Handler(CloseEvent) in fired then None else old(socket)
      ensures pendingConnect == old(pendingConnect) && nextSocket == old(nextSocket) && isSecure == old(isSecure)
      ensures subscribers == old(subscribers) && calls == old(calls) && writes == old(writes)
    {
      var settled, kept, heard := CloseRound(fired, cells, listeners);
      cells, listeners, notices := settled, kept, notices + heard;
      if Handler(CloseEvent) in fired {
        socket := None;
      }
    }

    /** The listeners `fired` of a `close` event run one after the other. */
    static method CloseRound(fired: seq<Listener>, cells0: seq<Settlement>, listeners0: seq<Listener>)
      returns (cells: seq<Settlement>, listeners: seq<Listener>, notices: seq<Notice>)
      requires ListenersBelow(fired, |cells0|)
      ensures cells == CloseCells(cells0, fired)
      ensures listeners == CloseListeners(listeners0, fired)
      ensures notices == CloseNotices(fired)
    {
      cells, listeners, notices := cells0, listeners0, [];
      var i := 0;
      while i < |fired|
        invariant 0 <= i <= |fired|
        invariant cells == CloseCells(cells0, fired[..i])
        invariant listeners == CloseListeners(listeners0, fired[..i])
        invariant notices == CloseNotices(fired[..i])
      {
        var l := fired[i];
        assert AllButLast(fired[..i + 1]) == fired[..i] && Last(fired[..i + 1]) == l;
        assert InRange(l, |cells|);
        match l {
          case CloseGuard(c) =>
            listeners := Detach(listeners, c);
            cells := Settle(cells, c, Rejected(ClosedUnexpectedly));
          case Handler(CloseEvent) =>
            listeners := [];
            notices := notices + [Closed];
          case _ =>
        }
        i := i + 1;
      }
      assert fired[..i] == fired;
    }

    /** The remote side closes the held socket. */
    method SocketClose()
      requires Valid()
      modifies this
      ensures Valid()
      ensures old(socket).Some? ==>
        && cells == CloseCells(old(cells), OfKind(old(listeners), CloseEvent))
        && listeners == CloseListeners(old(listeners), OfKind(old(listeners), CloseEvent))
        && notices == old(notices) + CloseNotices(OfKind(old(listeners), CloseEvent))
        && socket == if Handler(CloseEvent) in old(listeners) then None else old(socket)
      ensures old(socket).None? ==> cells == old(cells) && listeners == old(listeners) && notices == old(notices) && socket == old(socket)
      ensures pendingConnect == old(pendingConnect) && nextSocket == old(nextSocket) && isSecure == old(isSecure)
      ensures subscribers == old(subscribers) && calls == old(calls) && writes == old(writes)
    {
      if socket.Some? {
        var fired := OfKind(listeners, CloseEvent);
        assert Handler(CloseEvent) in fired <==> Handler(CloseEvent) in listeners;
        FireClose(fired);
      }
    }

    /** `_closeAsPromised()`: the new command is `c`. The socket is destroyed,
        its `close` event reaches the listeners it had, and then the
        `once('close', resolve)` added last resolves `c`. */
    method Close() returns (c: nat)
      requires Valid()
      modifies this
      ensures Valid() && c == |old(cells)|
      ensures old(socket).None? ==>
        && cells == old(cells) + [if compiledGuards then Rejected(NoReason) else Resolved(None)]
        && notices == old(notices)
      ensures old(socket).Some? ==>
        && cells == CloseCells(old(cells), OfKind(old(listeners), CloseEvent)) + [Resolved(None)]
        && notices == old(notices) + CloseNotices(OfKind(old(listeners), CloseEvent))
      ensures socket.None? && listeners == [] && pendingConnect.None?
      ensures nextSocket == old(nextSocket) && isSecure == old(isSecure)
      ensures subscribers == old(subscribers) && calls == old(calls) && writes == old(writes)
    {
      c := |cells|;
      if socket.None? {
        cells := cells + [if compiledGuards then Rejected(NoReason) else Resolved(None)];
        return;
      }
      var fired := OfKind(listeners, CloseEvent);
      cells := cells + [Pending];
      socket := None;
      listeners := [];
      pendingConnect := None;
      FireClose(fired);
      CloseCellsLast(old(cells), fired);
      cells := Settle(cells, c, Resolved(None));
      assert cells == CloseCells(old(cells), fired) + [Resolved(None)];
    }

    /** `_onSend(chunk)`. */
    method OnSend(chunk: string)
      requires Valid()
      modifies this, sendBuffer
      ensures Valid()
      ensures sendBuffer.buffer == Tail(old(sendBuffer.buffer) + chunk)
      ensures sendBuffer.lineEvents == old(sendBuffer.lineEvents) + Completed(old(sendBuffer.buffer) + chunk)
      ensures sendBuffer.drainEvents == old(sendBuffer.drainEvents)
      ensures notices == old(notices) + [Sent(chunk)] + Commands(Completed(old(sendBuffer.buffer) + chunk))
      ensures socket == old(socket) && nextSocket == old(nextSocket) && isSecure == old(isSecure)
      ensures listeners == old(listeners) && pendingConnect == old(pendingConnect) && subscribers == old(subscribers)
      ensures cells == old(cells) && calls == old(calls) && writes == old(writes)
    {
      assert ChunkText(Some(chunk)) == chunk;
      var lines := sendBuffer.Feed(Some(chunk));
      var commands := CommandNotices(lines);
      notices := notices + [Sent(chunk)] + commands;
    }

    /** Each line the send framer completes becomes a `commandSubject` event, in order. */
    static method CommandNotices(lines: seq<string>) returns (notices: seq<Notice>)
      ensures notices == Commands(lines)
    {
      notices := [];
      var i := 0;
      while i < |lines|
        invariant 0 <= i <= |lines|
        invariant notices == Commands(lines[..i])
      {
        assert AllButLast(lines[..i + 1]) == lines[..i];
        notices := notices + [Command(lines[i])];
        i := i + 1;
      }
      assert lines[..i] == lines;
    }

    /** `_writeAsPromised(data, handler)`: the new command is `c`. */
    method Write(data: string, handler: Option<nat>) returns (c: nat)
      requires Valid()
      modifies this, sendBuffer
      ensures Valid() && c == |old(cells)|
      ensures old(socket).None? ==>
        && cells == old(cells) + [Rejected(SocketClosed)]
        && listeners == old(listeners) && subscribers == old(subscribers)
        && writes == old(writes) && notices == old(notices)
        && sendBuffer.buffer == old(sendBuffer.buffer)
      ensures old(socket).Some? ==>
        && cells == old(cells) + [Pending]
        && listeners == old(listeners) + [CloseGuard(c), ErrorGuard(c)]
        && subscribers == old(subscribers) + [Subscriber(c, handler)]
        && writes == old(writes) + [data]
        && notices == old(notices) + [Sent(data)] + Commands(Completed(old(sendBuffer.buffer) + data))
        && sendBuffer.buffer == Tail(old(sendBuffer.buffer) + data)
      ensures socket == old(socket) && nextSocket == old(nextSocket) && isSecure == old(isSecure)
      ensures pendingConnect == old(pendingConnect) && calls == old(calls)
    {
      c := |cells|;
      if socket.None? {
        cells := cells + [Rejected(SocketClosed)];
        return;
      }
      cells := cells + [Pending];
      ResolveCommand(c, handler);
      writes := writes + [data];
      OnSend(data);
    }

    /** The `onLine` function of each subscription in turn, on the values of
        the three fields it changes. */
    static method Subscriptions(subs: seq<Subscriber>, line: string, calls0: seq<HandlerCall>,
        cells0: seq<Settlement>, listeners0: seq<Listener>)
      returns (calls: seq<HandlerCall>, cells: seq<Settlement>, listeners: seq<Listener>)
      requires Below(subs, |cells0|)
      ensures calls == calls0 + LineCalls(subs, line)
      ensures cells == LineCells(cells0, subs, line)
      ensures listeners == LineListeners(listeners0, subs, line)
    {
      calls, cells, listeners := calls0, cells0, listeners0;
      var j := 0;
      while j < |subs|
        invariant 0 <= j <= |subs|
        invariant Below(subs[..j], |cells0|)
        invariant calls == calls0 + LineCalls(subs[..j], line)
        invariant cells == LineCells(cells0, subs[..j], line)
        invariant listeners == LineListeners(listeners0, subs[..j], line)
      {
        LineStep(cells0, listeners0, subs, j, line);
        calls, cells, listeners := OnLine(subs[j], line, calls, cells, listeners);
        j := j + 1;
      }
      assert subs[..j] == subs;
    }

    /** The `onLine` function of one subscription: it calls the client handler
        with the line, whether it is the last one and its code, and on a last
        line detaches the resolver's guards and resolves the command. */
    static method OnLine(s: Subscriber, line: string, calls0: seq<HandlerCall>,
        cells0: seq<Settlement>, listeners0: seq<Listener>)
      returns (calls: seq<HandlerCall>, cells: seq<Settlement>, listeners: seq<Listener>)
      requires s.command < |cells0|
      ensures calls == calls0 + CallOf(s, line)
      ensures cells == if Ends(line) then Settle(cells0, s.command, Resolved(ParseReplyCode(Some(line)))) else cells0
      ensures listeners == if Ends(line) then Detach(listeners0, s.command) else listeners0
    {
      var isLast := IsLastReply(Some(line));
      var code := ParseReplyCode(Some(line));
      calls, cells, listeners := calls0, cells0, listeners0;
      if s.handler.Some? {
        calls := calls + [HandlerCall(s.handler.value, line, isLast, code)];
      }
      if isLast == Some(true) {
        listeners := Detach(listeners, s.command);
        cells := Settle(cells, s.command, Resolved(code));
      }
    }

    /** The lines of one feed reach the subscriptions, and each is then
        emitted by `_onReply`. */
    method DeliverLines(lines: seq<string>)
      requires Valid()
      modifies this
      ensures Valid()
      ensures notices == old(notices) + Replies(lines)
      ensures calls == old(calls) + LinesCalls(old(subscribers), lines)
      ensures cells == LinesCells(old(cells), old(subscribers), lines)
      ensures listeners == LinesListeners(old(listeners), old(subscribers), lines)
      ensures socket == old(socket) && nextSocket == old(nextSocket) && isSecure == old(isSecure)
      ensures pendingConnect == old(pendingConnect) && subscribers == old(subscribers) && writes == old(writes)
    {
      if socket.None? {
        NoListenersStay(subscribers, lines);
      }
      var delivered, settled, kept, replies := Deliveries(subscribers, lines, cells, listeners);
      ThinnedBelow(listeners, kept, |cells|);
      calls, cells, listeners, notices := calls + delivered, settled, kept, notices + replies;
    }

    /** All the lines reach the subscriptions, in order, through the framer's
        line events; then one reply event is emitted per line: the handler
        calls and the reply events this causes, and the new promises and
        listeners. */
    static method Deliveries(subs: seq<Subscriber>, lines: seq<string>, cells0: seq<Settlement>, listeners0: seq<Listener>)
      returns (calls: seq<HandlerCall>, cells: seq<Settlement>, listeners: seq<Listener>, notices: seq<Notice>)
      requires Below(subs, |cells0|)
      ensures notices == Replies(lines)
      ensures calls == LinesCalls(subs, lines)
      ensures cells == LinesCells(cells0, subs, lines)
      ensures listeners == LinesListeners(listeners0, subs, lines)
    {
      calls, cells, listeners, notices := [], cells0, listeners0, [];
      var i := 0;
      while i < |lines|
        invariant 0 <= i <= |lines| && |cells| == |cells0|
        invariant calls == LinesCalls(subs, lines[..i])
        invariant cells == LinesCells(cells0, subs, lines[..i])
        invariant listeners == LinesListeners(listeners0, subs, lines[..i])
        invariant notices == Replies(lines[..i])
      {
        LinesStep(cells0, listeners0, subs, lines, i);
        ReplyStep(lines, i);
        var line := lines[i];
        calls, cells, listeners := Subscriptions(subs, line, calls, cells, listeners);
        notices := notices + [Replied(line)];
        i := i + 1;
      }
      assert lines[..i] == lines;
    }

    /** `_onReceive(chunk)`: the framed lines reach the subscriptions and are
        emitted as replies. */
    method OnReceive(chunk: string)
      requires Valid()
      modifies this, receiveBuffer
      ensures Valid()
      ensures receiveBuffer.buffer == Tail(old(receiveBuffer.buffer) + chunk)
      ensures receiveBuffer.lineEvents == old(receiveBuffer.lineEvents) + Completed(old(receiveBuffer.buffer) + chunk)
      ensures receiveBuffer.drainEvents == old(receiveBuffer.drainEvents)
      ensures notices == old(notices) + [Received(chunk)] + Replies(Completed(old(receiveBuffer.buffer) + chunk))
      ensures calls == old(calls) + LinesCalls(old(subscribers), Completed(old(receiveBuffer.buffer) + chunk))
      ensures cells == LinesCells(old(cells), old(subscribers), Completed(old(receiveBuffer.buffer) + chunk))
      ensures listeners == LinesListeners(old(listeners), old(subscribers), Completed(old(receiveBuffer.buffer) + chunk))
      ensures socket == old(socket) && nextSocket == old(nextSocket) && isSecure == old(isSecure)
      ensures pendingConnect == old(pendingConnect) && subscribers == old(subscribers) && writes == old(writes)
    {
      notices := notices + [Received(chunk)];
      var lines := receiveBuffer.Feed(Some(chunk));
      DeliverLines(lines);
    }

    /** The held socket emits `data`. */
    method SocketData(chunk: string)
      requires Valid()
      modifies this, receiveBuffer
      ensures Valid()
      ensures Handler(DataEvent) in old(listeners) ==>
        && receiveBuffer.buffer == Tail(old(receiveBuffer.buffer) + chunk)
        && notices == old(notices) + [Received(chunk)] + Replies(Completed(old(receiveBuffer.buffer) + chunk))
        && calls == old(calls) + LinesCalls(old(subscribers), Completed(old(receiveBuffer.buffer) + chunk))
        && cells == LinesCells(old(cells), old(subscribers), Completed(old(receiveBuffer.buffer) + chunk))
        && listeners == LinesListeners(old(listeners), old(subscribers), Completed(old(receiveBuffer.buffer) + chunk))
      ensures Handler(DataEvent) !in old(listeners) ==>
        && receiveBuffer.buffer == old(receiveBuffer.buffer)
        && notices == old(notices) && calls == old(calls) && cells == old(cells) && listeners == old(listeners)
      ensures socket == old(socket) && nextSocket == old(nextSocket) && isSecure == old(isSecure)
      ensures pendingConnect == old(pendingConnect) && subscribers == old(subscribers) && writes == old(writes)
    {
      if Handler(DataEvent) in listeners {
        OnReceive(chunk);
      }
    }

    /** The held socket emits one `data` chunk that carries whole reply lines,
        with nothing left over from an earlier chunk. */
    method SocketReply(reply: seq<string>)
      requires Valid() && receiveBuffer.buffer == [] && AllLines(reply)
      modifies this, receiveBuffer
      ensures Valid() && receiveBuffer.buffer == []
      ensures (Handler(DataEvent) in listeners) == (Handler(DataEvent) in old(listeners))
      ensures Handler(DataEvent) in old(listeners) ==>
        && cells == LinesCells(old(cells), old(subscribers), reply)
        && calls == old(calls) + LinesCalls(old(subscribers), reply)
      ensures Handler(DataEvent) !in old(listeners) ==> cells == old(cells) && calls == old(calls)
      ensures socket == old(socket) && nextSocket == old(nextSocket) && isSecure == old(isSecure)
      ensures pendingConnect == old(pendingConnect) && subscribers == old(subscribers) && writes == old(writes)
    {
      ghost var listeners0 := listeners;
      var chunk := Frame(reply);
      FrameRoundTrip(reply);
      assert receiveBuffer.buffer + chunk == chunk;
      SocketData(chunk);
      if Handler(DataEvent) in listeners0 {
        assert Thinned(listeners0, listeners);
      }
    }

    /** The held socket emits `end`. */
    method SocketEnd()
      requires Valid()
      modifies this
      ensures notices == old(notices) + (if Handler(EndEvent) in listeners then [Ended] else [])
      ensures socket == old(socket) && nextSocket == old(nextSocket) && isSecure == old(isSecure)
      ensures listeners == old(listeners) && pendingConnect == old(pendingConnect) && subscribers == old(subscribers)
      ensures cells == old(cells) && calls == old(calls) && writes == old(writes)
    {
      if Handler(EndEvent) in listeners {
        notices := notices + [Ended];
      }
    }

    /** The held socket emits `error`. */
    method SocketError(error: string)
      requires Valid()
      modifies this
      ensures Valid()
      ensures cells == ErrorCells(old(cells), OfKind(old(listeners), ErrorEvent), error)
      ensures listeners == ErrorListeners(old(listeners), OfKind(old(listeners), ErrorEvent))
      ensures notices == old(notices) + ErrorNotices(OfKind(old(listeners), ErrorEvent), error)
      ensures socket == old(socket) && nextSocket == old(nextSocket) && isSecure == old(isSecure)
      ensures pendingConnect == old(pendingConnect) && subscribers == old(subscribers)
      ensures calls == old(calls) && writes == old(writes)
    {
      var fired := OfKind(listeners, ErrorEvent);
      var settled, kept, heard := ErrorRound(fired, error, cells, listeners);
      assert listeners == [] ==> fired == [];
      ThinnedBelow(listeners, kept, |cells|);
      cells, listeners, notices := settled, kept, notices + heard;
    }

    /** The listeners `fired` of an `error` event run one after the other. */
    static method ErrorRound(fired: seq<Listener>, error: string, cells0: seq<Settlement>, listeners0: seq<Listener>)
      returns (cells: seq<Settlement>, listeners: seq<Listener>, notices: seq<Notice>)
      requires ListenersBelow(fired, |cells0|)
      ensures cells == ErrorCells(cells0, fired, error)
      ensures listeners == ErrorListeners(listeners0, fired)
      ensures notices == ErrorNotices(fired, error)
    {
      cells, listeners, notices := cells0, listeners0, [];
      var i := 0;
      while i < |fired|
        invariant 0 <= i <= |fired|
        invariant cells == ErrorCells(cells0, fired[..i], error)
        invariant listeners == ErrorListeners(listeners0, fired[..i])
        invariant notices == ErrorNotices(fired[..i], error)
      {
        var l := fired[i];
        assert AllButLast(fired[..i + 1]) == fired[..i] && Last(fired[..i + 1]) == l;
        assert InRange(l, |cells|);
        match l {
          case ErrorGuard(c) =>
            listeners := Detach(listeners, c);
            cells := Settle(cells, c, Rejected(SocketFailure(error)));
          case HandshakeReject(c) =>
            cells := Settle(cells, c, Rejected(SocketFailure(error)));
          case Handler(ErrorEvent) =>
            notices := notices + [Errored(error)];
          case _ =>
        }
        i := i + 1;
      }
      assert fired[..i] == fired;
    }

    /** The held socket emits `timeout`: `_onTimeout` logs it and writes `QUIT`. */
    method SocketTimeout()
      requires Valid()
      modifies this, sendBuffer
      ensures Valid()
      ensures Handler(TimeoutEvent) in old(listeners) ==>
        && writes == old(writes) + ["QUIT\r\n"]
        && cells == old(cells) + [Pending]
        && subscribers == old(subscribers) + [Subscriber(|old(cells)|, None)]
        && notices == old(notices) + [TimedOut, Sent("QUIT\r\n")] + Commands(Completed(old(sendBuffer.buffer) + "QUIT\r\n"))
      ensures Handler(TimeoutEvent) !in old(listeners) ==>
        writes == old(writes) && cells == old(cells) && subscribers == old(subscribers) && notices == old(notices)
      ensures socket == old(socket) && nextSocket == old(nextSocket) && isSecure == old(isSecure)
      ensures pendingConnect == old(pendingConnect) && calls == old(calls)
    {
      if Handler(TimeoutEvent) in listeners {
        notices := notices + [TimedOut];
        var _ := Write("QUIT\r\n", None);
      }
    }

    /** `_negotiateTLSAsPromised(config)`: the new command is `t`. The old
        socket loses all five kinds of listener and is wrapped in a TLS socket
        that only has `on('error', reject)` until it connects. */
    method NegotiateTLS() returns (t: nat)
      requires Valid()
      modifies this
      ensures Valid() && t == |old(cells)|
      ensures old(socket).None? ==>
        cells == old(cells) + [Rejected(NullSocket)] && socket.None? && pendingConnect == old(pendingConnect)
        && listeners == old(listeners) && nextSocket == old(nextSocket)
      ensures old(socket).Some? ==>
        && cells == old(cells) + [Pending]
        && socket == Some(old(nextSocket)) && nextSocket == old(nextSocket) + 1
        && listeners == [HandshakeReject(t)]
        && pendingConnect == Some(TlsConnect(t))
      ensures isSecure == old(isSecure) && subscribers == old(subscribers)
      ensures calls == old(calls) && writes == old(writes) && notices == old(notices)
    {
      t := |cells|;
      if socket.None? {
        cells := cells + [Rejected(NullSocket)];
        return;
      }
      cells := cells + [Pending];
      var stale := WithoutKind(WithoutKind(WithoutKind(WithoutKind(WithoutKind(
        listeners, CloseEvent), DataEvent), EndEvent), ErrorEvent), TimeoutEvent);
      assert forall l :: l !in stale;
      socket := Some(nextSocket);
      nextSocket := nextSocket + 1;
      listeners := [HandshakeReject(t)];
      pendingConnect := Some(TlsConnect(t));
    }
  }

  lemma {:induction false} CloseCellsLast(cells: seq<Settlement>, fired: seq<Listener>)
    requires ListenersBelow(fired, |cells|)
    ensures CloseCells(cells + [Pending], fired) == CloseCells(cells, fired) + [Pending]
    decreases |fired|
  {
    if fired != [] {
      CloseCellsLast(cells, AllButLast(fired));
      assert InRange(fired[|fired| - 1], |cells|);
    }
  }
}
