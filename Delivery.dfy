/**
 * What the channel's socket listeners and line subscriptions do, as functions
 * of the listeners and subscriptions in place. Every command resolver of
 * smtp-channel.ts (`_resolveCommand`) registers a `once('close')` and a
 * `once('error')` guard on the socket and subscribes an `onLine` function to
 * the receive framer's line subject; the subscription is never removed.
 */
module Delivery {
  import opened Wrappers
  import opened JsText
  import opened Reply

  /** The socket events the channel listens to. */
  datatype EventKind = CloseEvent | DataEvent | EndEvent | ErrorEvent | TimeoutEvent

  /** A listener on the socket the channel holds. */
  datatype Listener =
    | Handler(kind: EventKind)    // `_onClose`, `_onReceive`, `_onEnd`, `_onError`, `_onTimeout`
    | CloseGuard(command: nat)    // the `onClose` of the resolver of a command
    | ErrorGuard(command: nat)    // the `onError` of that resolver
    | HandshakeReject(command: nat) // `on('error', reject)` of a TLS negotiation

  function KindOf(l: Listener): EventKind {
    match l
    case Handler(k) => k
    case CloseGuard(_) => CloseEvent
    case ErrorGuard(_) => ErrorEvent
    case HandshakeReject(_) => ErrorEvent
  }

  /** The five listeners a connected socket gets, in registration order. */
  const ChannelHandlers: seq<Listener> :=
    [Handler(CloseEvent), Handler(DataEvent), Handler(EndEvent), Handler(ErrorEvent), Handler(TimeoutEvent)]

  /** Why a command's promise was rejected. */
  datatype Reason =
    | NoReason                      // `reject()`
    | SocketClosed                  // `new Error('Socket has closed')`
    | ClosedUnexpectedly            // `new Error('Socket has closed unexpectedly')`
    | SocketFailure(error: string)  // the error the socket emitted
    | NullSocket                    // the TypeError of using `this._socket` when it is null

  /** The state of one command's promise. */
  datatype Settlement = Pending | Resolved(value: Option<string>) | Rejected(reason: Reason)

  /** A promise settles once: a later resolve or reject changes nothing. */
  function Settle(cells: seq<Settlement>, i: nat, v: Settlement): (r: seq<Settlement>)
    requires i < |cells| && !v.Pending?
    ensures |r| == |cells| && !r[i].Pending?
    ensures cells[i].Pending? ==> r[i] == v
    ensures forall j :: 0 <= j < |cells| && (j != i || !cells[i].Pending?) ==> r[j] == cells[j]
  {
    if cells[i].Pending? then cells[i := v] else cells
  }

  predicate GuardOf(l: Listener, c: nat) {
    l == CloseGuard(c) || l == ErrorGuard(c)
  }

  /** `removeListener('close', onClose)` and `removeListener('error', onError)`
      of the resolver of command `c`. */
  function Detach(ls: seq<Listener>, c: nat): (r: seq<Listener>)
    ensures forall l :: l in r <==> l in ls && !GuardOf(l, c)
  {
    if ls == [] then [] else (if GuardOf(ls[0], c) then [] else [ls[0]]) + Detach(ls[1..], c)
  }

  /** `removeAllListeners(kind)`. */
  function WithoutKind(ls: seq<Listener>, kind: EventKind): (r: seq<Listener>)
    ensures forall l :: l in r <==> l in ls && KindOf(l) != kind
  {
    if ls == [] then [] else (if KindOf(ls[0]) == kind then [] else [ls[0]]) + WithoutKind(ls[1..], kind)
  }

  /** A listener refers only to commands below `n`. */
  predicate InRange(l: Listener, n: nat) {
    match l
    case Handler(_) => true
    case CloseGuard(c) => c < n
    case ErrorGuard(c) => c < n
    case HandshakeReject(c) => c < n
  }

  predicate ListenersBelow(ls: seq<Listener>, n: nat) {
    forall l :: l in ls ==> InRange(l, n)
  }

  predicate NoHandlers(ls: seq<Listener>) {
    forall k :: Handler(k) !in ls
  }

  /** Every listener of `r` is one of `ls`, and every handler of `ls` is still in `r`. */
  predicate Thinned(ls: seq<Listener>, r: seq<Listener>) {
    (forall l :: l in r ==> l in ls) && (forall k :: Handler(k) in ls ==> Handler(k) in r)
  }

  /** Dropping listeners keeps every command number in range and adds no handler. */
  lemma ThinnedBelow(ls: seq<Listener>, r: seq<Listener>, n: nat)
    requires Thinned(ls, r) && ListenersBelow(ls, n)
    ensures ListenersBelow(r, n)
    ensures NoHandlers(ls) ==> NoHandlers(r)
  {
  }

  /** A subscription of an `onLine` function to the receive framer's lines: the
      command it settles and the client handler it calls, if any. */
  datatype Subscriber = Subscriber(command: nat, handler: Option<nat>)

  /** One call `handler(line, {isLast, code})`. */
  datatype HandlerCall = HandlerCall(handler: nat, line: string, isLast: Option<bool>, code: Option<string>)

  predicate Below(subs: seq<Subscriber>, n: nat) {
    forall i :: 0 <= i < |subs| ==> subs[i].command < n
  }

  /** Some subscription settles command `c`. */
  predicate Subscribed(subs: seq<Subscriber>, c: nat)
    decreases |subs|
  {
    subs != [] && (Subscribed(AllButLast(subs), c) || Last(subs).command == c)
  }

  /** How many subscriptions call handler `h`. */
  function Count(subs: seq<Subscriber>, h: nat): nat
    decreases |subs|
  {
    if subs == [] then 0
    else Count(AllButLast(subs), h) + (if Last(subs).handler == Some(h) then 1 else 0)
  }

  /** A line that ends a reply: its fourth character is a space. */
  predicate Ends(line: string) {
    IsLastReply(Some(line)) == Some(true)
  }

  function CallOf(sub: Subscriber, line: string): seq<HandlerCall> {
    match sub.handler
    case None => []
    case Some(h) => [HandlerCall(h, line, IsLastReply(Some(line)), ParseReplyCode(Some(line)))]
  }

  /** The handler calls one line causes, in subscription order. */
  function LineCalls(subs: seq<Subscriber>, line: string): seq<HandlerCall>
    decreases |subs|
  {
    if subs == [] then [] else LineCalls(AllButLast(subs), line) + CallOf(Last(subs), line)
  }

  /** The promises after one line: on a last line every subscription resolves
      its command with the line's code. */
  function LineCells(cells: seq<Settlement>, subs: seq<Subscriber>, line: string): (r: seq<Settlement>)
    requires Below(subs, |cells|)
    ensures |r| == |cells|
    decreases |subs|
  {
    if subs == [] then cells
    else
      var before := LineCells(cells, AllButLast(subs), line);
      if Ends(line) then Settle(before, Last(subs).command, Resolved(ParseReplyCode(Some(line)))) else before
  }

  /** The listeners after one line: a last line detaches each subscription's guards. */
  function LineListeners(ls: seq<Listener>, subs: seq<Subscriber>, line: string): (r: seq<Listener>)
    ensures Thinned(ls, r)
    decreases |subs|
  {
    if subs == [] || !Ends(line) then ls
    else Detach(LineListeners(ls, AllButLast(subs), line), Last(subs).command)
  }

  function LinesCalls(subs: seq<Subscriber>, lines: seq<string>): seq<HandlerCall>
    decreases |lines|
  {
    if lines == [] then [] else LinesCalls(subs, AllButLast(lines)) + LineCalls(subs, Last(lines))
  }

  function LinesCells(cells: seq<Settlement>, subs: seq<Subscriber>, lines: seq<string>): (r: seq<Settlement>)
    requires Below(subs, |cells|)
    ensures |r| == |cells|
    decreases |lines|
  {
    if lines == [] then cells else LineCells(LinesCells(cells, subs, AllButLast(lines)), subs, Last(lines))
  }

  function LinesListeners(ls: seq<Listener>, subs: seq<Subscriber>, lines: seq<string>): (r: seq<Listener>)
    ensures Thinned(ls, r)
    decreases |lines|
  {
    if lines == [] then ls else LineListeners(LinesListeners(ls, subs, AllButLast(lines)), subs, Last(lines))
  }

  /** With no listeners, delivering lines leaves none. */
  lemma {:induction false} NoListenersStay(subs: seq<Subscriber>, lines: seq<string>)
    ensures LinesListeners([], subs, lines) == []
    decreases |lines|
  {
    if lines != [] {
      NoListenersStay(subs, AllButLast(lines));
      NoLineListenersStay(subs, Last(lines));
    }
  }

  lemma {:induction false} NoLineListenersStay(subs: seq<Subscriber>, line: string)
    ensures LineListeners([], subs, line) == []
    decreases |subs|
  {
    if subs != [] {
      NoLineListenersStay(AllButLast(subs), line);
    }
  }

  /** Delivering a line to one more subscription extends the three effects by
      that subscription's own. */
  lemma LineStep(cells: seq<Settlement>, ls: seq<Listener>, subs: seq<Subscriber>, j: nat, line: string)
    requires j < |subs| && Below(subs, |cells|)
    ensures Below(subs[..j], |cells|) && Below(subs[..j + 1], |cells|)
    ensures LineCalls(subs[..j + 1], line) == LineCalls(subs[..j], line) + CallOf(subs[j], line)
    ensures LineCells(cells, subs[..j + 1], line) ==
      if Ends(line) then Settle(LineCells(cells, subs[..j], line), subs[j].command, Resolved(ParseReplyCode(Some(line))))
      else LineCells(cells, subs[..j], line)
    ensures LineListeners(ls, subs[..j + 1], line) ==
      if Ends(line) then Detach(LineListeners(ls, subs[..j], line), subs[j].command)
      else LineListeners(ls, subs[..j], line)
  {
    assert AllButLast(subs[..j + 1]) == subs[..j];
  }

  /** Delivering one more line extends the three effects by that line's own. */
  lemma LinesStep(cells: seq<Settlement>, ls: seq<Listener>, subs: seq<Subscriber>, lines: seq<string>, i: nat)
    requires i < |lines| && Below(subs, |cells|)
    ensures LinesCalls(subs, lines[..i + 1]) == LinesCalls(subs, lines[..i]) + LineCalls(subs, lines[i])
    ensures LinesCells(cells, subs, lines[..i + 1]) == LineCells(LinesCells(cells, subs, lines[..i]), subs, lines[i])
    ensures LinesListeners(ls, subs, lines[..i + 1]) == LineListeners(LinesListeners(ls, subs, lines[..i]), subs, lines[i])
  {
    assert AllButLast(lines[..i + 1]) == lines[..i];
  }

  /** The index of the first line that ends a reply, if there is one. */
  function FirstEnd(lines: seq<string>): (r: Option<nat>)
    ensures r.Some? ==> r.value < |lines| && Ends(lines[r.value])
    ensures r.Some? ==> forall j :: 0 <= j < r.value ==> !Ends(lines[j])
    ensures r.None? ==> forall j :: 0 <= j < |lines| ==> !Ends(lines[j])
    decreases |lines|
  {
    if lines == [] then None
    else
      var f := FirstEnd(AllButLast(lines));
      if f.Some? then f else if Ends(Last(lines)) then Some(|lines| - 1) else None
  }

  /** What a subscribed, pending command becomes once `lines` are delivered:
      resolved with the code of the first last line, or still pending. */
  function Outcome(lines: seq<string>): (r: Settlement)
    ensures r.Resolved? ==> r.value.Some? && |r.value.value| == 3
    ensures !r.Rejected?
  {
    match FirstEnd(lines)
    case None => Pending
    case Some(i) => Resolved(ParseReplyCode(Some(lines[i])))
  }

  /** One line resolves every pending subscribed command when it is a last
      line, and leaves every other promise as it was. */
  lemma {:induction false} LineCellsAt(cells: seq<Settlement>, subs: seq<Subscriber>, line: string, c: nat)
    requires Below(subs, |cells|) && c < |cells|
    ensures LineCells(cells, subs, line)[c] ==
      if Ends(line) && Subscribed(subs, c) && cells[c].Pending? then Resolved(ParseReplyCode(Some(line))) else cells[c]
    decreases |subs|
  {
    if subs != [] {
      LineCellsAt(cells, AllButLast(subs), line, c);
    }
  }

  /** Delivering a sequence of lines resolves a pending subscribed command with
      the code of the first last line among them (the later ones cannot change
      it), and leaves every other promise as it was. */
  lemma {:induction false} LinesCellsAt(cells: seq<Settlement>, subs: seq<Subscriber>, lines: seq<string>, c: nat)
    requires Below(subs, |cells|) && c < |cells|
    ensures LinesCells(cells, subs, lines)[c] ==
      if Subscribed(subs, c) && cells[c].Pending? then Outcome(lines) else cells[c]
    decreases |lines|
  {
    if lines != [] {
      var init := AllButLast(lines);
      LinesCellsAt(cells, subs, init, c);
      LineCellsAt(LinesCells(cells, subs, init), subs, Last(lines), c);
      if FirstEnd(init).Some? {
        assert lines[FirstEnd(init).value] == init[FirstEnd(init).value];
      }
    }
  }

  /** Settled promises never change when lines are delivered. */
  lemma SettledStays(cells: seq<Settlement>, subs: seq<Subscriber>, lines: seq<string>, c: nat)
    requires Below(subs, |cells|) && c < |cells| && !cells[c].Pending?
    ensures LinesCells(cells, subs, lines)[c] == cells[c]
  {
    LinesCellsAt(cells, subs, lines, c);
  }

  /** `k` copies of `x`. */
  function Repeat(x: string, k: nat): (r: seq<string>)
    ensures |r| == k
  {
    if k == 0 then [] else Repeat(x, k - 1) + [x]
  }

  /** Each line repeated `k` times in place: what a handler subscribed `k` times collects. */
  function Echo(lines: seq<string>, k: nat): seq<string>
    decreases |lines|
  {
    if lines == [] then [] else Echo(AllButLast(lines), k) + Repeat(Last(lines), k)
  }

  /** The lines handed to handler `h`, in order. */
  function Collected(calls: seq<HandlerCall>, h: nat): seq<string>
    decreases |calls|
  {
    if calls == [] then []
    else Collected(AllButLast(calls), h) + (if Last(calls).handler == h then [Last(calls).line] else [])
  }

  lemma {:induction false} CollectedAppend(a: seq<HandlerCall>, b: seq<HandlerCall>, h: nat)
    ensures Collected(a + b, h) == Collected(a, h) + Collected(b, h)
    decreases |b|
  {
    if b == [] {
      assert a + b == a;
    } else {
      CollectedAppend(a, AllButLast(b), h);
      assert AllButLast(a + b) == a + AllButLast(b);
      assert Last(a + b) == Last(b);
    }
  }

  lemma {:induction false} CollectedLine(subs: seq<Subscriber>, line: string, h: nat)
    ensures Collected(LineCalls(subs, line), h) == Repeat(line, Count(subs, h))
    decreases |subs|
  {
    if subs != [] {
      CollectedLine(AllButLast(subs), line, h);
      CollectedAppend(LineCalls(AllButLast(subs), line), CallOf(Last(subs), line), h);
      CollectedCall(Last(subs), line, h);
    }
  }

  /** A subscription hands a line to its own handler only. */
  lemma CollectedCall(sub: Subscriber, line: string, h: nat)
    ensures Collected(CallOf(sub, line), h) == if sub.handler == Some(h) then [line] else []
  {
    var call := CallOf(sub, line);
    if call != [] {
      assert AllButLast(call) == [];
    }
  }

  /** A handler subscribed `k` times receives every line `k` times, in order. */
  lemma {:induction false} CollectedLines(subs: seq<Subscriber>, lines: seq<string>, h: nat)
    ensures Collected(LinesCalls(subs, lines), h) == Echo(lines, Count(subs, h))
    decreases |lines|
  {
    if lines != [] {
      CollectedLines(subs, AllButLast(lines), h);
      CollectedLine(subs, Last(lines), h);
      CollectedAppend(LinesCalls(subs, AllButLast(lines)), LineCalls(subs, Last(lines)), h);
    }
  }

  /** Subscribed once, a handler receives exactly the lines. */
  lemma {:induction false} EchoOnce(lines: seq<string>)
    ensures Echo(lines, 1) == lines
    decreases |lines|
  {
    if lines != [] {
      EchoOnce(AllButLast(lines));
      assert Repeat(Last(lines), 1) == [Last(lines)];
    }
  }

  /** The first collected line is the first line, however many times it is echoed. */
  lemma {:induction false} EchoFirst(lines: seq<string>, k: nat)
    requires lines != [] && k > 0
    ensures |Echo(lines, k)| == |lines| * k
    ensures Echo(lines, k)[0] == lines[0]
    decreases |lines|
  {
    EchoLength(lines, k);
    if |lines| == 1 {
      assert Echo(lines, k) == Repeat(lines[0], k);
      RepeatAt(lines[0], k, 0);
    } else {
      EchoFirst(AllButLast(lines), k);
      assert AllButLast(lines)[0] == lines[0];
    }
  }

  lemma {:induction false} EchoLength(lines: seq<string>, k: nat)
    ensures |Echo(lines, k)| == |lines| * k
    decreases |lines|
  {
    if lines != [] {
      EchoLength(AllButLast(lines), k);
      assert |lines| * k == (|lines| - 1) * k + k;
    }
  }

  lemma {:induction false} RepeatAt(x: string, k: nat, i: nat)
    requires i < k
    ensures Repeat(x, k)[i] == x
    decreases k
  {
    if i < k - 1 {
      RepeatAt(x, k - 1, i);
    }
  }

  /** A handler id no subscription uses is subscribed zero times. */
  lemma {:induction false} CountFresh(subs: seq<Subscriber>, h: nat)
    requires forall i :: 0 <= i < |subs| ==> subs[i].handler != Some(h)
    ensures Count(subs, h) == 0
    decreases |subs|
  {
    if subs != [] {
      CountFresh(AllButLast(subs), h);
    }
  }

  /** The notices `_onReply` emits for the delivered lines. */
  function Replies(lines: seq<string>): (r: seq<Notice>)
    ensures |r| == |lines|
    ensures forall i :: 0 <= i < |lines| ==> r[i] == Replied(lines[i])
    decreases |lines|
  {
    if lines == [] then [] else Replies(AllButLast(lines)) + [Replied(Last(lines))]
  }

  lemma ReplyStep(lines: seq<string>, i: nat)
    requires i < |lines|
    ensures Replies(lines[..i + 1]) == Replies(lines[..i]) + [Replied(lines[i])]
  {
    assert AllButLast(lines[..i + 1]) == lines[..i];
  }

  /** The notices `_onCommand` emits for the framed command lines. */
  function Commands(lines: seq<string>): (r: seq<Notice>)
    ensures |r| == |lines|
    ensures forall i :: 0 <= i < |lines| ==> r[i] == Command(lines[i])
    decreases |lines|
  {
    if lines == [] then [] else Commands(AllButLast(lines)) + [Command(Last(lines))]
  }

  /** What the channel's subjects emit, in one log: `closeSubject`,
      `commandSubject`, `connectSubject`, `endSubject`, `errorSubject`,
      `receiveSubject`, `replySubject`, `sendSubject`, `timeoutSubject`. */
  datatype Notice =
    | Closed
    | Command(line: string)
    | Connected
    | Ended
    | Errored(error: string)
    | Received(chunk: string)
    | Replied(line: string)
    | Sent(chunk: string)
    | TimedOut

  /** The promises after the listeners `fired` of a `close` event ran: every
      `onClose` guard rejects its command. */
  function CloseCells(cells: seq<Settlement>, fired: seq<Listener>): (r: seq<Settlement>)
    requires ListenersBelow(fired, |cells|)
    ensures |r| == |cells|
    decreases |fired|
  {
    if fired == [] then cells
    else
      var before := CloseCells(cells, AllButLast(fired));
      assert InRange(fired[|fired| - 1], |cells|);
      match Last(fired)
      case CloseGuard(c) => Settle(before, c, Rejected(ClosedUnexpectedly))
      case _ => before
  }

  /** A `close` event rejects with "Socket has closed unexpectedly" every pending
      command whose close guard is still attached, and leaves every other
      promise as it was. */
  lemma {:induction false} CloseCellsAt(cells: seq<Settlement>, fired: seq<Listener>, c: nat)
    requires ListenersBelow(fired, |cells|) && c < |cells|
    ensures CloseCells(cells, fired)[c] ==
      if CloseGuard(c) in fired && cells[c].Pending? then Rejected(ClosedUnexpectedly) else cells[c]
    decreases |fired|
  {
    if fired != [] {
      var init := AllButLast(fired);
      assert fired == init + [Last(fired)];
      CloseCellsAt(cells, init, c);
    }
  }

  /** The listeners left after a `close` event: each guard detaches itself and
      its error guard, and `_onClose` drops the socket with all its listeners. */
  function CloseListeners(ls: seq<Listener>, fired: seq<Listener>): (r: seq<Listener>)
    ensures forall l :: l in r ==> l in ls
    ensures Handler(CloseEvent) in fired ==> r == []
    decreases |fired|
  {
    if fired == [] then ls
    else
      var before := CloseListeners(ls, AllButLast(fired));
      assert Handler(CloseEvent) in fired ==> Handler(CloseEvent) in AllButLast(fired) || Last(fired) == Handler(CloseEvent);
      match Last(fired)
      case CloseGuard(c) => Detach(before, c)
      case Handler(CloseEvent) => []
      case _ => before
  }

  function CloseNotices(fired: seq<Listener>): seq<Notice>
    decreases |fired|
  {
    if fired == [] then [] else CloseNotices(AllButLast(fired)) + (if Last(fired) == Handler(CloseEvent) then [Closed] else [])
  }

  /** The promises after the listeners `fired` of an `error` event ran: each
      `onError` guard and each handshake rejects its command with the error. */
  function ErrorCells(cells: seq<Settlement>, fired: seq<Listener>, error: string): (r: seq<Settlement>)
    requires ListenersBelow(fired, |cells|)
    ensures |r| == |cells|
    decreases |fired|
  {
    if fired == [] then cells
    else
      var before := ErrorCells(cells, AllButLast(fired), error);
      assert InRange(fired[|fired| - 1], |cells|);
      match Last(fired)
      case ErrorGuard(c) => Settle(before, c, Rejected(SocketFailure(error)))
      case HandshakeReject(c) => Settle(before, c, Rejected(SocketFailure(error)))
      case _ => before
  }

  /** An `error` event rejects with the error every pending command whose error
      guard or handshake listener is still attached, and leaves every other
      promise as it was. */
  lemma {:induction false} ErrorCellsAt(cells: seq<Settlement>, fired: seq<Listener>, error: string, c: nat)
    requires ListenersBelow(fired, |cells|) && c < |cells|
    ensures ErrorCells(cells, fired, error)[c] ==
      if (ErrorGuard(c) in fired || HandshakeReject(c) in fired) && cells[c].Pending?
      then Rejected(SocketFailure(error)) else cells[c]
    decreases |fired|
  {
    if fired != [] {
      var init := AllButLast(fired);
      assert fired == init + [Last(fired)];
      ErrorCellsAt(cells, init, error, c);
    }
  }

  /** The listeners left after an `error` event: each error guard detaches itself and its close guard. */
  function ErrorListeners(ls: seq<Listener>, fired: seq<Listener>): (r: seq<Listener>)
    ensures Thinned(ls, r)
    decreases |fired|
  {
    if fired == [] then ls
    else
      var before := ErrorListeners(ls, AllButLast(fired));
      match Last(fired)
      case ErrorGuard(c) => Detach(before, c)
      case _ => before
  }

  function ErrorNotices(fired: seq<Listener>, error: string): seq<Notice>
    decreases |fired|
  {
    if fired == [] then [] else ErrorNotices(AllButLast(fired), error) + (if Last(fired) == Handler(ErrorEvent) then [Errored(error)] else [])
  }

  /** The listeners of one kind, in registration order: those an event of that kind calls. */
  function OfKind(ls: seq<Listener>, kind: EventKind): (r: seq<Listener>)
    ensures forall l :: l in r <==> l in ls && KindOf(l) == kind
  {
    if ls == [] then [] else (if KindOf(ls[0]) == kind then [ls[0]] else []) + OfKind(ls[1..], kind)
  }
}
