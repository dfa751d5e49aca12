/**
 * What the command scripts of dist/debug/smtp-client.js do with well-formed
 * server replies: which answers they settle with, which errors they build,
 * and what they write on the socket before and after each reply.
 */
module ClientProperties {
  import opened Wrappers
  import opened JsText
  import opened Reply
  import opened Delivery
  import opened Commands
  import opened Client

  /** A reply as RFC 5321 writes it: one line per text, every line but the last
      continued with `-`. */
  function MultiLine(code: string, texts: seq<string>): seq<string> {
    seq(|texts|, i requires 0 <= i < |texts| => FormatReplyLine(code, i == |texts| - 1, texts[i]))
  }

  /** A well-formed reply settles its command at its last line, with its code. */
  lemma MultiLineSettles(code: string, texts: seq<string>)
    requires |code| == 3 && texts != []
    ensures FirstEnd(MultiLine(code, texts)) == Some(|texts| - 1)
    ensures Outcome(MultiLine(code, texts)) == Resolved(Some(code))
  {
    var reply := MultiLine(code, texts);
    var last := |texts| - 1;
    forall j | 0 <= j < last ensures !Ends(reply[j]) {
      assert reply[j][3] == '-';
    }
    assert reply[last][3] == ' ';
    ParseFormatted(code, true, texts[last]);
  }

  /** Every one-command script on each kind of link: rejected without a socket,
      never settled before the socket connects, and on a connected socket
      settled by the first line that ends the reply, with that line's code when
      it is 2xx and otherwise with an error built from all the lines received. */
  lemma SimpleAnswer(extensions: seq<string>, link: Link, reply: seq<string>)
    ensures link.NoSocket? ==> SimpleOutcome(extensions, link, reply) == Failed(Rejection(SocketClosed))
    ensures link.Connecting? ==> SimpleOutcome(extensions, link, reply) == Stalled
    ensures link.Ready? ==> (SimpleOutcome(extensions, link, reply).Stalled? <==> FirstEnd(reply).None?)
    ensures link.Ready? && FirstEnd(reply).Some? ==>
      var line := reply[FirstEnd(reply).value];
      SimpleOutcome(extensions, link, reply)
        == if line[0] == '2' then Done(line[..3]) else Failed(CreateResponseError(extensions, reply))
  {
    if link.Ready? {
      EchoOnce(reply);
      if FirstEnd(reply).Some? {
        var line := reply[FirstEnd(reply).value];
        assert Ends(line);
        assert ParseReplyCode(Some(line)) == Some(line[..3]);
      }
    }
  }

  /** EHLO answered with a 2xx multi-line reply fulfils with the code and keeps
      the text of every line after the first as the extension list. */
  lemma EhloRoundTrip(extensions: seq<string>, code: string, texts: seq<string>)
    requires |code| == 3 && code[0] == '2' && texts != []
    ensures SimpleOutcome(extensions, Ready, MultiLine(code, texts)) == Done(code)
    ensures EhloState(extensions, Ready, MultiLine(code, texts)) == texts[1..]
  {
    var reply := MultiLine(code, texts);
    MultiLineSettles(code, texts);
    EchoOnce(reply);
    var r := EhloExtensions(reply);
    assert |r| == |texts[1..]|;
    forall i | 0 <= i < |r| ensures r[i] == texts[1..][i] {
      assert reply[i + 1][4..] == texts[i + 1];
    }
  }

  /** `greet` falls back to HELO when EHLO is rejected, and writes both commands. */
  lemma GreetFallsBack(extensions: seq<string>, host: string, ehloCode: string, ehloText: string, heloCode: string, heloText: string)
    requires |ehloCode| == 3 && ehloCode[0] != '2' && |heloCode| == 3
    ensures var ehloReply := [FormatReplyLine(ehloCode, true, ehloText)];
      var heloReply := [FormatReplyLine(heloCode, true, heloText)];
      && GreetOutcome(extensions, Ready, ehloReply, heloReply)
        == (if heloCode[0] == '2' then Done(heloCode) else Failed(CreateResponseError(extensions, heloReply)))
      && GreetWrites(extensions, Ready, host, ehloReply) == [EhloCommand(host), HeloCommand(host)]
  {
    var ehloReply := [FormatReplyLine(ehloCode, true, ehloText)];
    var heloReply := [FormatReplyLine(heloCode, true, heloText)];
    MultiLineSettles(ehloCode, [ehloText]);
    MultiLineSettles(heloCode, [heloText]);
    assert MultiLine(ehloCode, [ehloText]) == ehloReply;
    assert MultiLine(heloCode, [heloText]) == heloReply;
    SimpleAnswer(extensions, Ready, ehloReply);
    SimpleAnswer(extensions, Ready, heloReply);
    assert ehloReply[0][..3] == ehloCode && heloReply[0][..3] == heloCode;
  }

  /** An advertised `SIZE n` refuses exactly the messages larger than n bytes. */
  lemma SizeLimitGate(extensions: seq<string>, n: nat, size: int)
    requires FindExtension(extensions, "SIZE") == Some("SIZE " + NatToString(n))
    ensures TooLarge(extensions, size) <==> size > n
  {
    DataSizeLimitOf(extensions, n);
  }

  /** A first `SIZE` entry with no second piece, or one in which `parseInt`
      finds no digit after its leading white space, gives the NaN limit, and
      `sourceSize > NaN` refuses nothing. */
  lemma SizeWithoutNumber(extensions: seq<string>, e: string, size: int)
    requires FindExtension(extensions, "SIZE") == Some(e)
    requires |Split(e, ' ')| < 2 || DigitPrefix(UnsignedPart(TrimStart(Split(e, ' ')[1]))) == []
    ensures GetDataSizeLimit(extensions) == None && !TooLarge(extensions, size)
  {
    SizeLimitOfEntry(extensions, e);
  }

  /** A bare `SIZE` keyword has no limit at all. */
  lemma BareSizeKeyword(size: int)
    ensures GetDataSizeLimit(["SIZE"]) == None && !TooLarge(["SIZE"], size)
  {
    SplitSingle("SIZE", ' ');
    SizeWithoutNumber(["SIZE"], "SIZE", size);
  }

  /** With two spaces before the number, `split(' ')[1]` is the empty piece,
      so the number is never read. */
  lemma SizeAfterTwoSpaces(size: int)
    ensures GetDataSizeLimit(["SIZE  10"]) == None && !TooLarge(["SIZE  10"], size)
  {
    SplitJoin(["SIZE", "", "10"], ' ');
    assert Join(["SIZE", "", "10"], " ") == "SIZE  10";
    SizeWithoutNumber(["SIZE  10"], "SIZE  10", size);
  }

  /** A refused size settles `data` with the size error before anything is
      written; without a SIZE entry every non-empty message is refused. */
  lemma TooLargeWritesNothing(extensions: seq<string>, link: Link, size: int, source: string, dataReply: seq<string>, bodyReply: seq<string>)
    ensures FindExtension(extensions, "SIZE").None? ==> (TooLarge(extensions, size) <==> size > 0)
    ensures TooLarge(extensions, size) ==>
      && DataOutcome(extensions, link, size, dataReply, bodyReply) == Failed(SizeLimit(GetDataSizeLimit(extensions).value))
      && DataWrites(extensions, link, size, source, dataReply) == []
  {
  }

  /** A one-line reply settles with its code and reaches a handler subscribed
      k times as k copies of the line. */
  lemma OneLineReply(code: string, text: string)
    requires |code| == 3
    ensures var line := FormatReplyLine(code, true, text);
      && FirstEnd([line]) == Some(0) && Outcome([line]) == Resolved(Some(code))
      && Echo([line], 1) == [line] && Echo([line], 2) == [line, line] && Echo([line], 3) == [line, line, line]
      && line[0] == code[0] && line[..3] == code
  {
    var line := FormatReplyLine(code, true, text);
    MultiLineSettles(code, [text]);
    assert MultiLine(code, [text]) == [line];
    EchoSingle(line);
  }

  /** A one-line reply reaches a handler subscribed k times as k copies of it. */
  lemma EchoSingle(line: string)
    ensures Echo([line], 1) == [line] && Echo([line], 2) == [line, line] && Echo([line], 3) == [line, line, line]
  {
    assert AllButLast([line]) == [];
    assert Repeat(line, 1) == [line];
    assert Repeat(line, 2) == [line, line];
    assert Repeat(line, 3) == [line, line, line];
  }

  /** The error built from a one-line reply received twice repeats its text. */
  lemma TwiceReceivedError(extensions: seq<string>, code: string, text: string)
    requires !HasExtension(extensions, "ENHANCEDSTATUSCODES") && |code| == 3
    ensures var line := FormatReplyLine(code, true, text);
      CreateResponseError(extensions, [line, line]) == ResponseError(CollapseWhiteSpace(text + " " + text), Some(code), None)
  {
    var line := FormatReplyLine(code, true, text);
    PlainReplyText(extensions, code, true, text);
    ParseFormatted(code, true, text);
    assert Texts(extensions, [line, line]) == [text, text];
    assert Join([text, text], " ") == text + " " + text;
  }

  /** `data` with DATA accepted by a one-line 3xx reply: the message is written
      after DATA, and the reply to the final `.` reaches the handler twice, so a
      rejection's message repeats the server's text. */
  lemma DataScript(extensions: seq<string>, size: int, source: string, readyCode: string, readyText: string, code: string, text: string)
    requires !TooLarge(extensions, size) && !HasExtension(extensions, "ENHANCEDSTATUSCODES")
    requires |readyCode| == 3 && readyCode[0] == '3' && |code| == 3
    ensures var dataReply := [FormatReplyLine(readyCode, true, readyText)];
      var bodyReply := [FormatReplyLine(code, true, text)];
      && DataWrites(extensions, Ready, size, source, dataReply) == [DataCommand, DataBody(source)]
      && DataOutcome(extensions, Ready, size, dataReply, bodyReply)
        == if code[0] == '2' then Done(code)
           else Failed(ResponseError(CollapseWhiteSpace(text + " " + text), Some(code), None))
  {
    var dataReply := [FormatReplyLine(readyCode, true, readyText)];
    OneLineReply(readyCode, readyText);
    OneLineReply(code, text);
    assert DataReady(extensions, Ready, dataReply) == Done(readyCode);
    TwiceReceivedError(extensions, code, text);
  }

  /** `secure` needs STARTTLS advertised, writes nothing otherwise, and with a
      2xx reply settles as the TLS negotiation does. */
  lemma SecureScript(extensions: seq<string>, link: Link, code: string, text: string, handshakeError: Option<string>)
    requires |code| == 3
    ensures !HasExtension(extensions, "STARTTLS") ==>
      SecureOutcome(extensions, link, [FormatReplyLine(code, true, text)], handshakeError) == Failed(NoStartTls)
      && SecureWrites(extensions, link) == []
    ensures HasExtension(extensions, "STARTTLS") ==>
      var reply := [FormatReplyLine(code, true, text)];
      && SecureWrites(extensions, Ready) == [StartTlsCommand]
      && SecureOutcome(extensions, Ready, reply, handshakeError)
        == if code[0] == '2' then HandshakeOutcome(handshakeError) else Failed(CreateResponseError(extensions, reply))
  {
    OneLineReply(code, text);
  }

  /** A one-line reply that is the expected prompt settles its step with it. */
  lemma PromptAccepted(extensions: seq<string>, prompt: string, k: nat)
    requires |prompt| > 3 && prompt[3] == ' ' && k > 0
    ensures Prompted(extensions, Settled(Ready, [prompt]), Heard(Ready, [prompt], k), prompt) == Done(prompt)
  {
    assert Ends(prompt);
    assert FirstEnd([prompt]) == Some(0);
    EchoFirst([prompt], k);
  }

  /** Both AUTH LOGIN prompts settle their step with the prompt itself. */
  lemma PromptsAccepted(extensions: seq<string>)
    ensures LoginUserStep(extensions, Ready, [UsernameChallenge]) == Done(UsernameChallenge)
    ensures LoginPasswordStep(extensions, Ready, [PasswordChallenge]) == Done(PasswordChallenge)
  {
    PromptAccepted(extensions, UsernameChallenge, 1);
    PromptAccepted(extensions, PasswordChallenge, 2);
  }

  /** The rounds of `authLogin` against a server that sends both prompts. */
  lemma LoginRoundsScript(extensions: seq<string>, username: string, password: string, code: string, text: string)
    requires |code| == 3
    ensures var line := FormatReplyLine(code, true, text);
      && LoginWrites(extensions, Ready, username, password, [UsernameChallenge], [PasswordChallenge])
        == [AuthLoginCommand, LoginAnswer(username), LoginAnswer(password)]
      && LoginOutcome(extensions, Ready, [UsernameChallenge], [PasswordChallenge], [line])
        == if code[0] == '2' then Done(code) else Failed(CreateResponseError(extensions, [line, line, line]))
  {
    PromptsAccepted(extensions);
    OneLineReply(code, text);
  }

  /** `authLogin` against a server that advertises LOGIN and sends both
      prompts: AUTH LOGIN, the user name and the password are written in turn,
      and the last reply, which the handler receives three times, decides. */
  lemma AuthLoginScript(extensions: seq<string>, username: string, password: string, code: string, text: string)
    requires SupportsLogin(extensions) && |code| == 3
    ensures var line := FormatReplyLine(code, true, text);
      && AuthLoginWrites(extensions, Ready, username, password, [UsernameChallenge], [PasswordChallenge])
        == [AuthLoginCommand, LoginAnswer(username), LoginAnswer(password)]
      && AuthLoginOutcome(extensions, Ready, [UsernameChallenge], [PasswordChallenge], [line])
        == if code[0] == '2' then Done(code) else Failed(CreateResponseError(extensions, [line, line, line]))
  {
    LoginRoundsScript(extensions, username, password, code, text);
  }

  /** `authLogin` writes nothing when LOGIN is not advertised, and never sends
      the user name when the first reply is not the user name prompt. */
  lemma AuthLoginGuards(extensions: seq<string>, username: string, password: string, r1: seq<string>, r2: seq<string>, r3: seq<string>)
    ensures !SupportsLogin(extensions) ==>
      AuthLoginOutcome(extensions, Ready, r1, r2, r3) == Failed(NoLogin)
      && AuthLoginWrites(extensions, Ready, username, password, r1, r2) == []
    ensures SupportsLogin(extensions) && FirstEnd(r1).Some? && r1[0] != UsernameChallenge ==>
      AuthLoginOutcome(extensions, Ready, r1, r2, r3) == Failed(CreateResponseError(extensions, r1))
      && AuthLoginWrites(extensions, Ready, username, password, r1, r2) == [AuthLoginCommand]
  {
    if SupportsLogin(extensions) && FirstEnd(r1).Some? && r1[0] != UsernameChallenge {
      WrongUserPromptWrites(extensions, username, password, r1, r2, r3);
    }
  }

  lemma WrongUserPromptWrites(extensions: seq<string>, username: string, password: string, r1: seq<string>, r2: seq<string>, r3: seq<string>)
    requires SupportsLogin(extensions) && FirstEnd(r1).Some? && r1[0] != UsernameChallenge
    ensures LoginOutcome(extensions, Ready, r1, r2, r3) == Failed(CreateResponseError(extensions, r1))
    ensures LoginWrites(extensions, Ready, username, password, r1, r2) == [AuthLoginCommand]
  {
    WrongUserPrompt(extensions, r1);
    assert LoginWrites(extensions, Ready, username, password, r1, r2) == [AuthLoginCommand] + [];
  }

  /** A first reply that ends without the user name prompt fails the user name step. */
  lemma WrongUserPrompt(extensions: seq<string>, r1: seq<string>)
    requires FirstEnd(r1).Some? && r1[0] != UsernameChallenge
    ensures LoginUserStep(extensions, Ready, r1) == Failed(CreateResponseError(extensions, r1))
  {
    EchoOnce(r1);
    PromptMissed(extensions, Settled(Ready, r1), Heard(Ready, r1, 1), UsernameChallenge);
  }

  lemma PromptMissed(extensions: seq<string>, s: Settlement, lines: seq<string>, prompt: string)
    requires s.Resolved? && lines != [] && lines[0] != prompt
    ensures Prompted(extensions, s, lines, prompt) == Failed(CreateResponseError(extensions, lines))
  {
  }

  /** `authCramMd5` on a connected socket: any reply that ends fulfils it with
      null, and nothing is written after AUTH CRAM-MD5. */
  lemma CramYieldsNull(reply: seq<string>)
    ensures CramOutcome(Ready, reply) == if FirstEnd(reply).None? then Stalled else Done(None)
  {
    match Settled(Ready, reply)
    case Pending =>
    case Rejected(_) =>
    case Resolved(code) =>
      NoChallengeInCode(code.value);
  }

  /** `connect` without a socket: a connection error rejects it, otherwise the
      greeting is checked as any one-command reply. With a socket already
      held, the compiled guard rejects and the TypeScript reads a property
      of undefined. */
  lemma ConnectScript(compiledGuards: bool, extensions: seq<string>, connectError: Option<string>, code: string, text: string)
    requires |code| == 3
    ensures var greeting := [FormatReplyLine(code, true, text)];
      ConnectOutcome(compiledGuards, extensions, false, connectError, greeting)
        == if connectError.Some? then Failed(Rejection(SocketFailure(connectError.value)))
           else if code[0] == '2' then Done(code)
           else Failed(CreateResponseError(extensions, greeting))
    ensures ConnectOutcome(compiledGuards, extensions, true, connectError, [])
      == if compiledGuards then Failed(Rejection(NoReason)) else Failed(UndefinedAccess)
  {
    var greeting := [FormatReplyLine(code, true, text)];
    MultiLineSettles(code, [text]);
    assert MultiLine(code, [text]) == greeting;
    SimpleAnswer(extensions, Ready, greeting);
    assert greeting[0][..3] == code;
  }
}
