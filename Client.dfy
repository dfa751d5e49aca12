/**
 * The SMTP client of dist/debug/smtp-client.js. Every command script writes
 * its command on the channel with a handler that collects the reply lines,
 * and checks the code the command's promise resolves with. The server's
 * reply to each command is a parameter: the lines it sends back, delivered
 * as one `data` chunk after the command is written.
 *
 * The client extends the channel in the source; here it holds one.
 */
module Client {
  import opened Wrappers
  import opened JsText
  import opened LineFraming
  import opened Reply
  import opened Delivery
  import opened Channel
  import opened Commands

  /** What the server side of the held socket can do with a command. */
  datatype Link =
    | NoSocket    // writes are rejected
    | Connecting  // a socket that has not connected: nothing is read from it
    | Ready       // a connected socket: its replies reach the subscriptions

  function LinkOf(socket: Option<nat>, listeners: seq<Listener>): Link {
    if socket.None? then NoSocket else if Handler(DataEvent) in listeners then Ready else Connecting
  }

  /** The promise of a command written on `link` when the server answers `reply`. */
  function Settled(link: Link, reply: seq<string>): (s: Settlement)
    ensures s == Rejected(SocketClosed) <==> link.NoSocket?
    ensures link.Connecting? ==> s.Pending?
    ensures s.Resolved? ==> s.value.Some? && |s.value.value| == 3
  {
    match link
    case NoSocket => Rejected(SocketClosed)
    case Connecting => Pending
    case Ready => Outcome(reply)
  }

  /** What a `lines.push` handler subscribed `k` times collects of `reply`. */
  function Heard(link: Link, reply: seq<string>, k: nat): seq<string> {
    if link.Ready? then Echo(reply, k) else []
  }

  /** The commands a link lets through to the socket. */
  function Written(link: Link, commands: seq<string>): seq<string> {
    if link.NoSocket? then [] else commands
  }

  /** How a client promise settles: fulfilled, rejected, or never. */
  datatype Answer<T> = Done(value: T) | Failed(error: SmtpError) | Stalled

  /** The `.then((code) => ...)` of a command: fulfilled with the code when it
      starts with `digit`, otherwise rejected with an error built from `lines`. */
  function Checked(extensions: seq<string>, s: Settlement, lines: seq<string>, digit: char): (a: Answer<string>)
    ensures a.Done? ==> s == Resolved(Some(a.value)) && StartsWith(a.value, digit)
    ensures a.Stalled? <==> s.Pending?
  {
    match s
    case Pending => Stalled
    case Rejected(r) => Failed(Rejection(r))
    case Resolved(None) => Failed(UndefinedAccess)
    case Resolved(Some(code)) => if StartsWith(code, digit) then Done(code) else Failed(CreateResponseError(extensions, lines))
  }

  /** One AUTH LOGIN step: its first collected line must be `prompt`. */
  function Prompted(extensions: seq<string>, s: Settlement, lines: seq<string>, prompt: string): (a: Answer<string>)
    ensures a.Done? ==> s.Resolved? && lines != [] && lines[0] == prompt
    ensures a.Stalled? <==> s.Pending?
  {
    match s
    case Pending => Stalled
    case Rejected(r) => Failed(Rejection(r))
    case Resolved(_) => if lines != [] && lines[0] == prompt then Done(prompt) else Failed(CreateResponseError(extensions, lines))
  }

  /** HELO, MAIL, RCPT, NOOP, RSET, QUIT and AUTH PLAIN: one command that needs a 2xx reply. */
  function SimpleOutcome(extensions: seq<string>, link: Link, reply: seq<string>): (a: Answer<string>)
    ensures link.NoSocket? ==> a == Failed(Rejection(SocketClosed))
    ensures a.Stalled? <==> Settled(link, reply).Pending?
    ensures a.Done? ==> link.Ready? && Outcome(reply) == Resolved(Some(a.value)) && |a.value| == 3 && StartsWith(a.value, '2')
  {
    Checked(extensions, Settled(link, reply), Heard(link, reply, 1), '2')
  }

  /** The extensions an EHLO reply advertises: the text of every line but the
      first, read while the list is empty, so never as enhanced status text. */
  function EhloExtensions(lines: seq<string>): (r: seq<string>)
    ensures |r| == |Drop(lines, 1)|
    ensures forall i :: 0 <= i < |r| ==> r[i] == Substr(lines[i + 1], 4)
  {
    Texts([], Drop(lines, 1))
  }

  /** The extension list after EHLO: rebuilt on success, kept otherwise. */
  function EhloState(extensions: seq<string>, link: Link, reply: seq<string>): seq<string> {
    if SimpleOutcome(extensions, link, reply).Done? then EhloExtensions(Heard(link, reply, 1)) else extensions
  }

  /** `greet`: EHLO, and HELO when EHLO is rejected. */
  function GreetOutcome(extensions: seq<string>, link: Link, ehloReply: seq<string>, heloReply: seq<string>): (a: Answer<string>)
    ensures link.NoSocket? ==> a == Failed(Rejection(SocketClosed))
    ensures link.Connecting? ==> a.Stalled?
    ensures SimpleOutcome(extensions, link, ehloReply).Done? ==> a == SimpleOutcome(extensions, link, ehloReply)
    ensures a.Done? ==>
      && link.Ready? && StartsWith(a.value, '2')
      && (Outcome(ehloReply) == Resolved(Some(a.value)) || Outcome(heloReply) == Resolved(Some(a.value)))
  {
    var ehlo := SimpleOutcome(extensions, link, ehloReply);
    if ehlo.Failed? then SimpleOutcome(extensions, link, heloReply) else ehlo
  }

  function GreetWrites(extensions: seq<string>, link: Link, host: string, ehloReply: seq<string>): seq<string> {
    Written(link, [EhloCommand(host)])
      + (if SimpleOutcome(extensions, link, ehloReply).Failed? then Written(link, [HeloCommand(host)]) else [])
  }

  /** Whether the SIZE limit refuses a message of `size` bytes before anything is written. */
  predicate TooLarge(extensions: seq<string>, size: int) {
    var limit := GetDataSizeLimit(extensions);
    limit.Some? && size > limit.value
  }

  /** The answer to DATA: it needs a 3xx reply. */
  function DataReady(extensions: seq<string>, link: Link, dataReply: seq<string>): Answer<string> {
    Checked(extensions, Settled(link, dataReply), Heard(link, dataReply, 1), '3')
  }

  /** `data`: the size check, DATA, then the message and the final `.`, whose
      reply reaches the handler once for each of its two subscriptions. */
  function DataOutcome(extensions: seq<string>, link: Link, size: int, dataReply: seq<string>, bodyReply: seq<string>): (a: Answer<string>)
    ensures !TooLarge(extensions, size) && link.NoSocket? ==> a == Failed(Rejection(SocketClosed))
    ensures !TooLarge(extensions, size) && link.Connecting? ==> a.Stalled?
    ensures a.Done? ==>
      && !TooLarge(extensions, size) && link.Ready?
      && DataReady(extensions, link, dataReply).Done? && StartsWith(DataReady(extensions, link, dataReply).value, '3')
      && Outcome(bodyReply) == Resolved(Some(a.value)) && StartsWith(a.value, '2')
  {
    if TooLarge(extensions, size) then Failed(SizeLimit(GetDataSizeLimit(extensions).value))
    else
      match DataReady(extensions, link, dataReply)
      case Done(_) => Checked(extensions, Settled(link, bodyReply), Heard(link, bodyReply, 2), '2')
      case Failed(e) => Failed(e)
      case Stalled => Stalled
  }

  function DataWrites(extensions: seq<string>, link: Link, size: int, source: string, dataReply: seq<string>): seq<string> {
    if TooLarge(extensions, size) then []
    else Written(link, [DataCommand]) + (if DataReady(extensions, link, dataReply).Done? then [DataBody(source)] else [])
  }

  /** The TLS negotiation: the wrapped socket connects, or emits `error`. */
  function HandshakeOutcome(handshakeError: Option<string>): Answer<bool> {
    match handshakeError
    case None => Done(true)
    case Some(error) => Failed(Rejection(SocketFailure(error)))
  }

  /** `secure`: STARTTLS must be advertised and answered with 2xx. */
  function SecureOutcome(extensions: seq<string>, link: Link, reply: seq<string>, handshakeError: Option<string>): (a: Answer<bool>)
    ensures HasExtension(extensions, "STARTTLS") && link.NoSocket? ==> a == Failed(Rejection(SocketClosed))
    ensures a.Done? ==>
      && a.value && HasExtension(extensions, "STARTTLS") && link.Ready? && handshakeError.None?
      && SimpleOutcome(extensions, link, reply).Done?
    ensures HasExtension(extensions, "STARTTLS") && SimpleOutcome(extensions, link, reply).Done? && handshakeError.Some? ==>
      a == Failed(Rejection(SocketFailure(handshakeError.value)))
  {
    if !HasExtension(extensions, "STARTTLS") then Failed(NoStartTls)
    else
      match SimpleOutcome(extensions, link, reply)
      case Done(_) => HandshakeOutcome(handshakeError)
      case Failed(e) => Failed(e)
      case Stalled => Stalled
  }

  function SecureWrites(extensions: seq<string>, link: Link): seq<string> {
    if !HasExtension(extensions, "STARTTLS") then [] else Written(link, [StartTlsCommand])
  }

  predicate SupportsLogin(extensions: seq<string>) {
    "LOGIN" in GetAuthMechanisms(extensions)
  }

  /** The first two AUTH LOGIN steps, with the handler subscribed once and twice. */
  function LoginUserStep(extensions: seq<string>, link: Link, r1: seq<string>): Answer<string> {
    Prompted(extensions, Settled(link, r1), Heard(link, r1, 1), UsernameChallenge)
  }

  function LoginPasswordStep(extensions: seq<string>, link: Link, r2: seq<string>): Answer<string> {
    Prompted(extensions, Settled(link, r2), Heard(link, r2, 2), PasswordChallenge)
  }

  /** `authLogin`: AUTH LOGIN, the user name, the password, a 2xx at the end. */
  function AuthLoginOutcome(extensions: seq<string>, link: Link, r1: seq<string>, r2: seq<string>, r3: seq<string>): (a: Answer<string>)
    ensures SupportsLogin(extensions) && link.NoSocket? ==> a == Failed(Rejection(SocketClosed))
    ensures SupportsLogin(extensions) && link.Connecting? ==> a.Stalled?
    ensures a.Done? ==>
      && SupportsLogin(extensions) && link.Ready?
      && Heard(link, r1, 1) != [] && Heard(link, r1, 1)[0] == UsernameChallenge
      && Heard(link, r2, 2) != [] && Heard(link, r2, 2)[0] == PasswordChallenge
      && Outcome(r3) == Resolved(Some(a.value)) && StartsWith(a.value, '2')
  {
    if !SupportsLogin(extensions) then Failed(NoLogin) else LoginOutcome(extensions, link, r1, r2, r3)
  }

  /** The rounds of `authLogin` once LOGIN is known to be supported. */
  function LoginOutcome(extensions: seq<string>, link: Link, r1: seq<string>, r2: seq<string>, r3: seq<string>): (a: Answer<string>)
    ensures link.NoSocket? ==> a == Failed(Rejection(SocketClosed))
    ensures link.Connecting? ==> a.Stalled?
    ensures a.Done? ==>
      && link.Ready? && Heard(link, r1, 1) != [] && Heard(link, r1, 1)[0] == UsernameChallenge
      && Heard(link, r2, 2) != [] && Heard(link, r2, 2)[0] == PasswordChallenge
      && Outcome(r3) == Resolved(Some(a.value)) && StartsWith(a.value, '2')
  {
    match LoginUserStep(extensions, link, r1)
    case Failed(e) => Failed(e)
    case Stalled => Stalled
    case Done(_) => PasswordOutcome(extensions, link, r2, r3)
  }

  /** The rounds after the user name prompt. */
  function PasswordOutcome(extensions: seq<string>, link: Link, r2: seq<string>, r3: seq<string>): (a: Answer<string>)
    ensures link.Ready? || a.Failed? || a.Stalled?
    ensures a.Done? ==>
      && Heard(link, r2, 2) != [] && Heard(link, r2, 2)[0] == PasswordChallenge
      && Outcome(r3) == Resolved(Some(a.value)) && StartsWith(a.value, '2')
  {
    match LoginPasswordStep(extensions, link, r2)
    case Failed(e) => Failed(e)
    case Stalled => Stalled
    case Done(_) => Checked(extensions, Settled(link, r3), Heard(link, r3, 3), '2')
  }

  function AuthLoginWrites(extensions: seq<string>, link: Link, username: string, password: string, r1: seq<string>, r2: seq<string>): seq<string> {
    if !SupportsLogin(extensions) then [] else LoginWrites(extensions, link, username, password, r1, r2)
  }

  function LoginWrites(extensions: seq<string>, link: Link, username: string, password: string, r1: seq<string>, r2: seq<string>): seq<string> {
    Written(link, [AuthLoginCommand])
      + if LoginUserStep(extensions, link, r1).Done? then PasswordWrites(extensions, link, username, password, r2) else []
  }

  function PasswordWrites(extensions: seq<string>, link: Link, username: string, password: string, r2: seq<string>): seq<string> {
    [LoginAnswer(username)] + if LoginPasswordStep(extensions, link, r2).Done? then [LoginAnswer(password)] else []
  }

  /** `authCramMd5`: the promise resolves with the three-character code, which
      never matches the challenge pattern, so it fulfils with null. */
  function CramOutcome(link: Link, reply: seq<string>): (a: Answer<Option<string>>)
    ensures a.Done? ==> a.value.None? && link.Ready?
    ensures link.NoSocket? ==> a == Failed(Rejection(SocketClosed))
    ensures a.Stalled? <==> Settled(link, reply).Pending?
  {
    match Settled(link, reply)
    case Pending => Stalled
    case Rejected(r) => Failed(Rejection(r))
    case Resolved(None) => Failed(UndefinedAccess)
    case Resolved(Some(code)) => if MatchChallenge(code).None? then Done(None) else assert false; Stalled
  }

  /** `connect`: the greeting needs a 2xx code. */
  function ConnectOutcome(compiledGuards: bool, extensions: seq<string>, hadSocket: bool, connectError: Option<string>, greeting: seq<string>): (a: Answer<string>)
    ensures hadSocket ==> a == Failed(if compiledGuards then Rejection(NoReason) else UndefinedAccess)
    ensures !hadSocket && connectError.Some? ==> a == Failed(Rejection(SocketFailure(connectError.value)))
    ensures a.Done? ==> !hadSocket && connectError.None? && Outcome(greeting) == Resolved(Some(a.value)) && StartsWith(a.value, '2')
  {
    if hadSocket then Checked(extensions, if compiledGuards then Rejected(NoReason) else Resolved(None), [], '2')
    else if connectError.Some? then Failed(Rejection(SocketFailure(connectError.value)))
    else SimpleOutcome(extensions, Ready, greeting)
  }

  predicate HandlersBelow(subs: seq<Subscriber>, n: nat) {
    forall i :: 0 <= i < |subs| && subs[i].handler.Some? ==> subs[i].handler.value < n
  }

  lemma CountAppend(subs: seq<Subscriber>, s: Subscriber, h: nat)
    ensures Count(subs + [s], h) == Count(subs, h) + if s.handler == Some(h) then 1 else 0
  {
    assert AllButLast(subs + [s]) == subs;
  }

  /** The `error` event of a socket that only has the guards of command `c`. */
  lemma GuardsOnError(cells: seq<Settlement>, c: nat, error: string)
    requires c < |cells| && cells[c].Pending?
    ensures OfKind([CloseGuard(c), ErrorGuard(c)], ErrorEvent) == [ErrorGuard(c)]
    ensures ListenersBelow([ErrorGuard(c)], |cells|)
    ensures ErrorCells(cells, [ErrorGuard(c)], error)[c] == Rejected(SocketFailure(error))
    ensures Handler(DataEvent) !in ErrorListeners([CloseGuard(c), ErrorGuard(c)], [ErrorGuard(c)])
  {
    var guards := [CloseGuard(c), ErrorGuard(c)];
    var rest := guards[1..];
    assert rest == [ErrorGuard(c)] && rest[1..] == [];
    assert OfKind(rest, ErrorEvent) == [ErrorGuard(c)] + OfKind(rest[1..], ErrorEvent);
    assert OfKind(guards, ErrorEvent) == [] + OfKind(rest, ErrorEvent);
    assert AllButLast([ErrorGuard(c)]) == [];
    assert Thinned(guards, ErrorListeners(guards, [ErrorGuard(c)]));
  }

  class SMTPClient {
    const channel: SMTPChannel
    /** `_extensions`: the extension lines of the last successful EHLO. */
    var extensions: seq<string>
    /** The identity the next `lines.push` handler gets. */
    var nextHandler: nat

    ghost predicate Valid()
      reads this, channel, channel.receiveBuffer
    {
      && channel.Valid()
      && channel.receiveBuffer.buffer == []
      && HandlersBelow(channel.subscribers, nextHandler)
    }

    function LinkState(): Link
      reads this, channel
    {
      LinkOf(channel.socket, channel.listeners)
    }

    constructor (compiledGuards: bool, secureConfig: bool)
      ensures Valid() && LinkState() == NoSocket
      ensures extensions == [] && channel.writes == [] && !channel.isSecure
      ensures channel.compiledGuards == compiledGuards && channel.secureConfig == secureConfig
      ensures fresh(channel) && fresh(channel.sendBuffer) && fresh(channel.receiveBuffer)
    {
      channel := new SMTPChannel(compiledGuards, secureConfig);
      extensions := [];
      nextHandler := 0;
    }

    /** A new `lines.push` handler, subscribed to nothing yet. */
    method NewHandler() returns (h: nat)
      requires Valid()
      modifies this
      ensures Valid() && h == old(nextHandler) && nextHandler == h + 1
      ensures Count(channel.subscribers, h) == 0
      ensures extensions == old(extensions)
    {
      h := nextHandler;
      nextHandler := nextHandler + 1;
      CountFresh(channel.subscribers, h);
    }

    /** The server's reply arrives as one `data` chunk. */
    method Deliver(reply: seq<string>)
      requires Valid() && AllLines(reply)
      modifies channel, channel.receiveBuffer
      ensures Valid() && LinkState() == old(LinkState())
      ensures old(LinkState()).Ready? ==>
        && channel.cells == LinesCells(old(channel.cells), old(channel.subscribers), reply)
        && channel.calls == old(channel.calls) + LinesCalls(old(channel.subscribers), reply)
      ensures !old(LinkState()).Ready? ==> channel.cells == old(channel.cells) && channel.calls == old(channel.calls)
      ensures channel.subscribers == old(channel.subscribers) && channel.writes == old(channel.writes)
      ensures channel.socket == old(channel.socket) && channel.isSecure == old(channel.isSecure)
      ensures channel.pendingConnect == old(channel.pendingConnect) && channel.nextSocket == old(channel.nextSocket)
    {
      channel.SocketReply(reply);
    }

    /** `super.write(command, handler)` and the server's reply to it. */
    method Exchange(command: string, handler: Option<nat>, reply: seq<string>) returns (s: Settlement)
      requires Valid() && AllLines(reply)
      requires handler.Some? ==> handler.value < nextHandler
      modifies channel, channel.sendBuffer, channel.receiveBuffer
      ensures Valid() && LinkState() == old(LinkState())
      ensures s == Settled(old(LinkState()), reply)
      ensures channel.writes == old(channel.writes) + Written(old(LinkState()), [command])
      ensures |old(channel.calls)| <= |channel.calls|
      ensures handler.Some? ==>
        Collected(channel.calls[|old(channel.calls)|..], handler.value)
          == Heard(old(LinkState()), reply, old(Count(channel.subscribers, handler.value)) + 1)
      ensures handler.Some? ==>
        Count(channel.subscribers, handler.value)
          == old(Count(channel.subscribers, handler.value)) + if old(channel.socket).Some? then 1 else 0
      ensures channel.socket == old(channel.socket) && channel.isSecure == old(channel.isSecure)
    {
      var c := Send(command, handler);
      s := AwaitReply(c, handler, reply);
    }

    /** `super.write(command, handler)`: the command's promise, and the
        subscription of `handler` while a socket is held. */
    method Send(command: string, handler: Option<nat>) returns (c: nat)
      requires Valid()
      requires handler.Some? ==> handler.value < nextHandler
      modifies channel, channel.sendBuffer
      ensures Valid() && LinkState() == old(LinkState()) && c < |channel.cells|
      ensures LinkState().NoSocket? ==> channel.cells[c] == Rejected(SocketClosed)
      ensures !LinkState().NoSocket? ==>
        channel.cells[c].Pending? && channel.subscribers != [] && Last(channel.subscribers) == Subscriber(c, handler)
      ensures channel.writes == old(channel.writes) + Written(old(LinkState()), [command])
      ensures channel.calls == old(channel.calls)
      ensures handler.Some? ==>
        Count(channel.subscribers, handler.value)
          == old(Count(channel.subscribers, handler.value)) + if old(channel.socket).Some? then 1 else 0
      ensures channel.socket == old(channel.socket) && channel.isSecure == old(channel.isSecure)
    {
      ghost var subs0 := channel.subscribers;
      c := channel.Write(command, handler);
      if handler.Some? && channel.socket.Some? {
        CountAppend(subs0, Subscriber(c, handler), handler.value);
      }
    }

    /** The server's reply to the command `c` just written with `handler`: the
        command's promise and the lines the handler collects. */
    method AwaitReply(c: nat, handler: Option<nat>, reply: seq<string>) returns (s: Settlement)
      requires Valid() && AllLines(reply) && c < |channel.cells|
      requires LinkState().NoSocket? ==> channel.cells[c] == Rejected(SocketClosed)
      requires !LinkState().NoSocket? ==>
        channel.cells[c].Pending? && channel.subscribers != [] && Last(channel.subscribers) == Subscriber(c, handler)
      modifies channel, channel.receiveBuffer
      ensures Valid() && LinkState() == old(LinkState())
      ensures s == Settled(old(LinkState()), reply)
      ensures |old(channel.calls)| <= |channel.calls|
      ensures handler.Some? ==>
        Collected(channel.calls[|old(channel.calls)|..], handler.value)
          == Heard(old(LinkState()), reply, old(Count(channel.subscribers, handler.value)))
      ensures channel.subscribers == old(channel.subscribers) && channel.writes == old(channel.writes)
      ensures channel.socket == old(channel.socket) && channel.isSecure == old(channel.isSecure)
    {
      ghost var link := LinkState();
      ghost var calls0 := channel.calls;
      ghost var cells1 := channel.cells;
      ghost var subs1 := channel.subscribers;
      Deliver(reply);
      if link.Ready? {
        LinesCellsAt(cells1, subs1, reply, c);
        assert channel.calls[|calls0|..] == LinesCalls(subs1, reply);
        if handler.Some? {
          CollectedLines(subs1, reply, handler.value);
        }
      } else {
        assert channel.calls[|calls0|..] == [];
      }
      s := channel.cells[c];
    }

    /** One round of a script: `command` written with handler `h`, which is
        then subscribed for the `k`-th time, and the lines it collects of the reply. */
    method Round(command: string, h: nat, reply: seq<string>, k: nat) returns (s: Settlement, lines: seq<string>)
      requires Valid() && AllLines(reply) && h < nextHandler
      requires k >= 1 && Count(channel.subscribers, h) == k - 1
      modifies channel, channel.sendBuffer, channel.receiveBuffer
      ensures Valid() && LinkState() == old(LinkState())
      ensures s == Settled(old(LinkState()), reply)
      ensures lines == Heard(old(LinkState()), reply, k)
      ensures old(LinkState()).Ready? ==> Count(channel.subscribers, h) == k
      ensures channel.writes == old(channel.writes) + Written(old(LinkState()), [command])
      ensures channel.isSecure == old(channel.isSecure)
    {
      var mark := |channel.calls|;
      s := Exchange(command, Some(h), reply);
      lines := Collected(channel.calls[mark..], h);
    }

    /** One command that needs a 2xx reply, and the lines its handler collected. */
    method Simple(command: string, reply: seq<string>) returns (a: Answer<string>, lines: seq<string>)
      requires Valid() && AllLines(reply)
      modifies this, channel, channel.sendBuffer, channel.receiveBuffer
      ensures Valid() && LinkState() == old(LinkState())
      ensures a == SimpleOutcome(old(extensions), old(LinkState()), reply)
      ensures lines == Heard(old(LinkState()), reply, 1)
      ensures channel.writes == old(channel.writes) + Written(old(LinkState()), [command])
      ensures extensions == old(extensions) && channel.isSecure == old(channel.isSecure)
    {
      var h := NewHandler();
      var s;
      s, lines := Round(command, h, reply, 1);
      a := Checked(extensions, s, lines, '2');
    }

    /** `helo(hostname)`. */
    method Helo(hostname: Option<string>, osHostname: Option<string>, reply: seq<string>) returns (a: Answer<string>)
      requires Valid() && AllLines(reply)
      modifies this, channel, channel.sendBuffer, channel.receiveBuffer
      ensures Valid() && LinkState() == old(LinkState())
      ensures a == SimpleOutcome(old(extensions), old(LinkState()), reply)
      ensures channel.writes == old(channel.writes) + Written(old(LinkState()), [HeloCommand(GreetingHost(hostname, osHostname))])
      ensures extensions == old(extensions) && channel.isSecure == old(channel.isSecure)
    {
      var host := GreetingHost(hostname, osHostname);
      var lines;
      a, lines := Simple(HeloCommand(host), reply);
    }

    /** `ehlo(hostname)`: on success the extension list is cleared and rebuilt
        from the reply. */
    method Ehlo(hostname: Option<string>, osHostname: Option<string>, reply: seq<string>) returns (a: Answer<string>)
      requires Valid() && AllLines(reply)
      modifies this, channel, channel.sendBuffer, channel.receiveBuffer
      ensures Valid() && LinkState() == old(LinkState())
      ensures a == SimpleOutcome(old(extensions), old(LinkState()), reply)
      ensures extensions == EhloState(old(extensions), old(LinkState()), reply)
      ensures channel.writes == old(channel.writes) + Written(old(LinkState()), [EhloCommand(GreetingHost(hostname, osHostname))])
      ensures channel.isSecure == old(channel.isSecure)
    {
      var host := GreetingHost(hostname, osHostname);
      var lines;
      a, lines := Simple(EhloCommand(host), reply);
      if a.Done? {
        extensions := [];
        extensions := Texts(extensions, Drop(lines, 1));
      }
    }

    /** `greet(hostname)`. */
    method Greet(hostname: Option<string>, osHostname: Option<string>, ehloReply: seq<string>, heloReply: seq<string>) returns (a: Answer<string>)
      requires Valid() && AllLines(ehloReply) && AllLines(heloReply)
      modifies this, channel, channel.sendBuffer, channel.receiveBuffer
      ensures Valid() && LinkState() == old(LinkState())
      ensures a == GreetOutcome(old(extensions), old(LinkState()), ehloReply, heloReply)
      ensures extensions == EhloState(old(extensions), old(LinkState()), ehloReply)
      ensures channel.writes == old(channel.writes) + GreetWrites(old(extensions), old(LinkState()), GreetingHost(hostname, osHostname), ehloReply)
      ensures channel.isSecure == old(channel.isSecure)
    {
      a := Ehlo(hostname, osHostname, ehloReply);
      if a.Failed? {
        a := Helo(hostname, osHostname, heloReply);
      }
    }

    /** `mail(from)`. */
    method Mail(from: string, reply: seq<string>) returns (a: Answer<string>)
      requires Valid() && AllLines(reply)
      modifies this, channel, channel.sendBuffer, channel.receiveBuffer
      ensures Valid() && LinkState() == old(LinkState())
      ensures a == SimpleOutcome(old(extensions), old(LinkState()), reply)
      ensures channel.writes == old(channel.writes) + Written(old(LinkState()), [MailCommand(from)])
      ensures extensions == old(extensions) && channel.isSecure == old(channel.isSecure)
    {
      var lines;
      a, lines := Simple(MailCommand(from), reply);
    }

    /** `rcpt(to)`. */
    method Rcpt(to: string, reply: seq<string>) returns (a: Answer<string>)
      requires Valid() && AllLines(reply)
      modifies this, channel, channel.sendBuffer, channel.receiveBuffer
      ensures Valid() && LinkState() == old(LinkState())
      ensures a == SimpleOutcome(old(extensions), old(LinkState()), reply)
      ensures channel.writes == old(channel.writes) + Written(old(LinkState()), [RcptCommand(to)])
      ensures extensions == old(extensions) && channel.isSecure == old(channel.isSecure)
    {
      var lines;
      a, lines := Simple(RcptCommand(to), reply);
    }

    /** `noop()`. */
    method Noop(reply: seq<string>) returns (a: Answer<string>)
      requires Valid() && AllLines(reply)
      modifies this, channel, channel.sendBuffer, channel.receiveBuffer
      ensures Valid() && LinkState() == old(LinkState())
      ensures a == SimpleOutcome(old(extensions), old(LinkState()), reply)
      ensures channel.writes == old(channel.writes) + Written(old(LinkState()), [NoopCommand])
      ensures extensions == old(extensions) && channel.isSecure == old(channel.isSecure)
    {
      var lines;
      a, lines := Simple(NoopCommand, reply);
    }

    /** `rset()`. */
    method Rset(reply: seq<string>) returns (a: Answer<string>)
      requires Valid() && AllLines(reply)
      modifies this, channel, channel.sendBuffer, channel.receiveBuffer
      ensures Valid() && LinkState() == old(LinkState())
      ensures a == SimpleOutcome(old(extensions), old(LinkState()), reply)
      ensures channel.writes == old(channel.writes) + Written(old(LinkState()), [RsetCommand])
      ensures extensions == old(extensions) && channel.isSecure == old(channel.isSecure)
    {
      var lines;
      a, lines := Simple(RsetCommand, reply);
    }

    /** `quit()`. */
    method Quit(reply: seq<string>) returns (a: Answer<string>)
      requires Valid() && AllLines(reply)
      modifies this, channel, channel.sendBuffer, channel.receiveBuffer
      ensures Valid() && LinkState() == old(LinkState())
      ensures a == SimpleOutcome(old(extensions), old(LinkState()), reply)
      ensures channel.writes == old(channel.writes) + Written(old(LinkState()), [QuitCommand])
      ensures extensions == old(extensions) && channel.isSecure == old(channel.isSecure)
    {
      var lines;
      a, lines := Simple(QuitCommand, reply);
    }

    /** `authPlain(username, password)`: the mechanism list is read but not checked. */
    method AuthPlain(username: string, password: string, reply: seq<string>) returns (a: Answer<string>)
      requires Valid() && AllLines(reply)
      modifies this, channel, channel.sendBuffer, channel.receiveBuffer
      ensures Valid() && LinkState() == old(LinkState())
      ensures a == SimpleOutcome(old(extensions), old(LinkState()), reply)
      ensures channel.writes == old(channel.writes) + Written(old(LinkState()), [AuthPlainCommand(username, password)])
      ensures extensions == old(extensions) && channel.isSecure == old(channel.isSecure)
    {
      var mechanisms := GetAuthMechanisms(extensions);
      var lines;
      a, lines := Simple(AuthPlainCommand(username, password), reply);
    }

    /** `data(source, sourceSize)`. */
    method Data(source: string, size: int, dataReply: seq<string>, bodyReply: seq<string>) returns (a: Answer<string>)
      requires Valid() && AllLines(dataReply) && AllLines(bodyReply)
      modifies this, channel, channel.sendBuffer, channel.receiveBuffer
      ensures Valid() && LinkState() == old(LinkState())
      ensures a == DataOutcome(old(extensions), old(LinkState()), size, dataReply, bodyReply)
      ensures channel.writes == old(channel.writes) + DataWrites(old(extensions), old(LinkState()), size, source, dataReply)
      ensures extensions == old(extensions) && channel.isSecure == old(channel.isSecure)
    {
      var limit := GetDataSizeLimit(extensions);
      if limit.Some? && size > limit.value {
        return Failed(SizeLimit(limit.value));
      }
      var h := NewHandler();
      var s, lines := Round(DataCommand, h, dataReply, 1);
      a := Checked(extensions, s, lines, '3');
      if !a.Done? {
        return;
      }
      s, lines := Round(DataBody(source), h, bodyReply, 2);
      a := Checked(extensions, s, lines, '2');
    }

    /** The TLS negotiation on the connected socket, and how it ends. */
    method Handshake(handshakeError: Option<string>) returns (a: Answer<bool>)
      requires Valid() && LinkState().Ready?
      modifies channel
      ensures Valid()
      ensures a == HandshakeOutcome(handshakeError)
      ensures LinkState() == if handshakeError.None? then Ready else Connecting
      ensures channel.isSecure == (handshakeError.None? || old(channel.isSecure))
      ensures channel.writes == old(channel.writes)
    {
      var t := channel.NegotiateTLS();
      match handshakeError {
        case None =>
          channel.SocketConnect();
          assert Handler(DataEvent) in channel.listeners;
        case Some(error) =>
          assert OfKind(channel.listeners, ErrorEvent) == [HandshakeReject(t)];
          channel.SocketError(error);
          assert Handler(DataEvent) !in channel.listeners;
      }
      match channel.cells[t] {
        case Resolved(_) => a := Done(true);
        case Rejected(r) => a := Failed(Rejection(r));
        case Pending => a := Stalled;
      }
    }

    /** `secure()`: STARTTLS, then the TLS upgrade. */
    method Secure(reply: seq<string>, handshakeError: Option<string>) returns (a: Answer<bool>)
      requires Valid() && AllLines(reply)
      modifies this, channel, channel.sendBuffer, channel.receiveBuffer
      ensures Valid()
      ensures a == SecureOutcome(old(extensions), old(LinkState()), reply, handshakeError)
      ensures a.Done? ==> channel.isSecure && LinkState() == Ready
      ensures LinkState() ==
        if HasExtension(old(extensions), "STARTTLS") && SimpleOutcome(old(extensions), old(LinkState()), reply).Done?
        then (if handshakeError.None? then Ready else Connecting)
        else old(LinkState())
      ensures channel.isSecure == (a.Done? || old(channel.isSecure))
      ensures channel.writes == old(channel.writes) + SecureWrites(old(extensions), old(LinkState()))
      ensures extensions == old(extensions)
    {
      if !HasExtension(extensions, "STARTTLS") {
        return Failed(NoStartTls);
      }
      var started, lines := Simple(StartTlsCommand, reply);
      match started {
        case Done(_) => a := Handshake(handshakeError);
        case Failed(e) => a := Failed(e);
        case Stalled => a := Stalled;
      }
    }

    /** `authLogin(username, password)`. */
    method AuthLogin(username: string, password: string, r1: seq<string>, r2: seq<string>, r3: seq<string>) returns (a: Answer<string>)
      requires Valid() && AllLines(r1) && AllLines(r2) && AllLines(r3)
      modifies this, channel, channel.sendBuffer, channel.receiveBuffer
      ensures Valid() && LinkState() == old(LinkState())
      ensures a == AuthLoginOutcome(old(extensions), old(LinkState()), r1, r2, r3)
      ensures channel.writes == old(channel.writes) + AuthLoginWrites(old(extensions), old(LinkState()), username, password, r1, r2)
      ensures extensions == old(extensions) && channel.isSecure == old(channel.isSecure)
    {
      if !SupportsLogin(extensions) {
        return Failed(NoLogin);
      }
      a := LoginRounds(username, password, r1, r2, r3);
    }

    /** The three rounds of `authLogin`, on one handler. */
    method LoginRounds(username: string, password: string, r1: seq<string>, r2: seq<string>, r3: seq<string>) returns (a: Answer<string>)
      requires Valid() && AllLines(r1) && AllLines(r2) && AllLines(r3)
      modifies this, channel, channel.sendBuffer, channel.receiveBuffer
      ensures Valid() && LinkState() == old(LinkState())
      ensures a == LoginOutcome(old(extensions), old(LinkState()), r1, r2, r3)
      ensures channel.writes == old(channel.writes) + LoginWrites(old(extensions), old(LinkState()), username, password, r1, r2)
      ensures extensions == old(extensions) && channel.isSecure == old(channel.isSecure)
    {
      var h := NewHandler();
      var s, lines := Round(AuthLoginCommand, h, r1, 1);
      a := Prompted(extensions, s, lines, UsernameChallenge);
      if a.Done? {
        a := PasswordRounds(h, username, password, r2, r3);
      }
    }

    /** The user name and password rounds of `authLogin`, on the handler `h`
        subscribed once already. */
    method PasswordRounds(h: nat, username: string, password: string, r2: seq<string>, r3: seq<string>) returns (a: Answer<string>)
      requires Valid() && AllLines(r2) && AllLines(r3) && LinkState().Ready?
      requires h < nextHandler && Count(channel.subscribers, h) == 1
      modifies channel, channel.sendBuffer, channel.receiveBuffer
      ensures Valid() && LinkState() == old(LinkState())
      ensures a == PasswordOutcome(extensions, Ready, r2, r3)
      ensures channel.writes == old(channel.writes) + PasswordWrites(extensions, Ready, username, password, r2)
      ensures channel.isSecure == old(channel.isSecure)
    {
      var s, lines := Round(LoginAnswer(username), h, r2, 2);
      a := Prompted(extensions, s, lines, PasswordChallenge);
      if a.Done? {
        s, lines := Round(LoginAnswer(password), h, r3, 3);
        a := Checked(extensions, s, lines, '2');
      }
    }

    /** `authCramMd5(username, password)`: written without a handler. */
    method AuthCramMd5(reply: seq<string>) returns (a: Answer<Option<string>>)
      requires Valid() && AllLines(reply)
      modifies channel, channel.sendBuffer, channel.receiveBuffer
      ensures Valid() && LinkState() == old(LinkState())
      ensures a == CramOutcome(old(LinkState()), reply)
      ensures channel.writes == old(channel.writes) + Written(old(LinkState()), [CramMd5Command])
      ensures channel.isSecure == old(channel.isSecure)
    {
      var s := Exchange(CramMd5Command, None, reply);
      match s {
        case Pending => a := Stalled;
        case Rejected(r) => a := Failed(Rejection(r));
        case Resolved(None) => a := Failed(UndefinedAccess);
        case Resolved(Some(code)) =>
          var challenge := MatchChallenge(code);
          if challenge.Some? {
            assert false;
          }
          a := Done(None);
      }
    }

    /** `connect()`: the socket connects, or emits `error` first, and the
        server's greeting arrives. */
    method Connect(connectError: Option<string>, greeting: seq<string>) returns (a: Answer<string>)
      requires Valid() && AllLines(greeting)
      modifies this, channel, channel.sendBuffer, channel.receiveBuffer
      ensures Valid()
      ensures a == ConnectOutcome(channel.compiledGuards, old(extensions), old(channel.socket).Some?, connectError, greeting)
      ensures LinkState() == if old(channel.socket).Some? then old(LinkState()) else if connectError.Some? then Connecting else Ready
      ensures channel.isSecure ==
        if old(channel.socket).None? && connectError.None? then channel.secureConfig else old(channel.isSecure)
      ensures channel.writes == old(channel.writes) && extensions == old(extensions)
    {
      var h := NewHandler();
      if channel.socket.Some? {
        var c := channel.Connect(Some(h));
        a := Checked(extensions, channel.cells[c], [], '2');
        return;
      }
      match connectError {
        case Some(error) => a := Refused(h, error);
        case None => a := Greeted(h, greeting);
      }
    }

    /** A new socket emits `error` before it connects. */
    method Refused(h: nat, error: string) returns (a: Answer<string>)
      requires Valid() && channel.socket.None? && h < nextHandler
      modifies channel
      ensures Valid() && LinkState() == Connecting
      ensures a == Failed(Rejection(SocketFailure(error)))
      ensures channel.writes == old(channel.writes) && channel.isSecure == old(channel.isSecure)
    {
      var c := channel.Connect(Some(h));
      ghost var cells1 := channel.cells;
      GuardsOnError(cells1, c, error);
      channel.SocketError(error);
      a := Checked(extensions, channel.cells[c], [], '2');
    }

    /** A new socket connects and the server sends its greeting. */
    method Greeted(h: nat, greeting: seq<string>) returns (a: Answer<string>)
      requires Valid() && AllLines(greeting) && channel.socket.None?
      requires h < nextHandler && Count(channel.subscribers, h) == 0
      modifies channel, channel.receiveBuffer
      ensures Valid() && LinkState() == Ready
      ensures a == SimpleOutcome(extensions, Ready, greeting)
      ensures channel.isSecure == channel.secureConfig
      ensures channel.writes == old(channel.writes)
    {
      var mark := |channel.calls|;
      ghost var subs0 := channel.subscribers;
      var c := channel.Connect(Some(h));
      ghost var subs1 := channel.subscribers;
      channel.SocketConnect();
      ghost var cells2 := channel.cells;
      assert Last(subs1) == Subscriber(c, Some(h));
      Deliver(greeting);
      LinesCellsAt(cells2, subs1, greeting, c);
      CountAppend(subs0, Subscriber(c, Some(h)), h);
      CollectedLines(subs1, greeting, h);
      EchoOnce(greeting);
      assert channel.calls[mark..] == LinesCalls(subs1, greeting);
      var lines := Collected(channel.calls[mark..], h);
      a := Checked(extensions, channel.cells[c], lines, '2');
    }
  }
}
