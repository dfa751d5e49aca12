# A verified model of a small SMTP client

This project models the three layers of a promise-based SMTP client (RFC 5321)
written for Node.js, and proves properties of the model in Dafny.

- **Line framer** (`LineFraming`). The `LineBuffer` of `src/line-buffer.ts` and
  its compiled copy `dist/debug/line-buffer.js`. Text is accumulated and cut at
  every `\r?\n`. The non-empty completed lines are emitted and returned. The
  unterminated tail stays buffered. `drain` empties the buffer.
- **Channel** (`Reply`, `Delivery`, `Channel`). The `SMTPChannel` of
  `smtp-channel.ts`, with a flag `compiledGuards` for the compiled
  `dist/debug/smtp-channel.js`. It holds one socket, which the model represents
  by its identity and the listeners on it. A command's promise is a cell that
  settles once. Every command resolver puts a `close` guard and an `error` guard
  on the socket and subscribes to the receive framer's lines. That subscription
  is never removed, so the subscriptions form a list that only grows. A handler
  reused by k writes therefore receives each later line k times.
- **Client** (`Base64`, `Commands`, `Client`, `ClientProperties`). The
  `SMTPClient` of `dist/debug/smtp-client.js`. It covers:
  - the parsers over the EHLO extension list (RFC 1870 SIZE, RFC 4954 AUTH,
    RFC 2034 enhanced status codes);
  - the construction of response errors and the host name given to EHLO/HELO;
  - the exact command strings, including the RFC 4648 base64 of AUTH PLAIN and
    AUTH LOGIN;
  - every command script as a method run against the server's scripted replies.
  Each script is specified by a function giving its answer (fulfilled, rejected
  with an error, or never settled) and by a function giving what it writes on
  the socket.

`Wrappers` holds `Option`. `JsText` models the JavaScript string built-ins the
code relies on: `split` on one character, `substr`, `trim`, `toUpperCase` on
ASCII, `parseInt`, `replace(/\s\s+/g, ' ')` and the `\s` class.

The socket's events (connected, `data`, `end`, `error`, `close`, `timeout`) are
methods the environment calls. On the client, a server reply is the list of its
lines. It arrives as one CRLF-framed `data` chunk after the command is written.

Where the two copies of the channel differ, the TypeScript is followed, and
`compiledGuards` selects the compiled behaviour:
- `connect` with a socket already held resolves in `smtp-channel.ts`. The
  client's `code.charAt(0)` then reads a property of `undefined`. The compiled
  copy rejects.
- `close` with no socket resolves in `smtp-channel.ts` and rejects in the
  compiled copy.

Three behaviours of the code are modelled as written:
- `ehlo` empties the extension list before it parses the reply. Its texts are
  therefore always read as plain text, even when the server advertises
  ENHANCEDSTATUSCODES.
- `authPlain` reads the mechanism list but does not check it, because the check
  is commented out.
- `_negotiateTLSAsPromised` never drains the line framers on the TLS upgrade.

## Model

| member | source | states |
|---|---|---|
| LineFraming.LineBuffer.constructor | src/line-buffer.ts:10-14 | the buffer starts empty and nothing has been emitted |
| LineFraming.LineBuffer.Feed | src/line-buffer.ts:16-31 | the new buffer is the text after the last `\n` of old buffer + chunk (a missing chunk reads as `''`); the returned lines are exactly the completed lines of that text; the line events grow by exactly those lines, in order; no drain event; `dist/debug/line-buffer.js` has the same `feed` |
| LineFraming.LineBuffer.Emit | src/line-buffer.ts:24-27 | the line events grow by exactly the given lines, in order |
| LineFraming.FeedParts | src/line-buffer.ts:19-30 | with more than one piece the last is the kept buffer and the filtered others are the completed lines; with one piece nothing is completed and the whole text is kept |
| LineFraming.LineBuffer.Drain | src/line-buffer.ts:38-41 | the buffer becomes empty, exactly one drain event is added, the line events are unchanged; the same in `dist/debug/line-buffer.js` |
| LineFraming.Completed | src/line-buffer.ts:19-23 | every line `feed` returns is non-empty and holds no `\n` |
| LineFraming.Tail | src/line-buffer.ts:19-21 | the kept buffer never holds a `\n` |
| LineFraming.NonEmpty | src/line-buffer.ts:23 | the filter keeps at most as many strings, and keeps only lines when none holds `\n` |
| LineFraming.StripEach | src/line-buffer.ts:19 | a segment loses its `\r` only where that `\r` stood directly before the `\n` |
| LineFraming.NoLineFeedNoLines | src/line-buffer.ts:17-20 | without a `\n` in old buffer + chunk, nothing is returned and the whole text stays buffered |
| LineFraming.Reconstruct | src/line-buffer.ts:17-23 | the split lines, each followed by the terminator it was cut at, followed by the new buffer, give back old buffer + chunk |
| LineFraming.ChunkIndependence | src/line-buffer.ts:17-23 | feeding `a` then `b` returns the same lines in total, and leaves the same buffer, as feeding `a + b` at once |
| LineFraming.FrameRoundTrip | src/line-buffer.ts:16-31 | non-empty lines without `\n`, each sent as `line\r\n`, are returned exactly and leave the buffer empty |
| LineFraming.TerminatedTail | src/line-buffer.ts:17-21 | text that ends with `\r\n` leaves the buffer empty |
| JsText.Split | dist/debug/smtp-client.js:89 | `split(' ')` gives at least one piece, and no piece holds the separator |
| JsText.JoinSplit | dist/debug/smtp-client.js:89 | joining the pieces of a split with the separator gives back the string |
| JsText.SplitJoin | dist/debug/smtp-client.js:109 | splitting strings joined by a separator they do not hold gives them back |
| JsText.SplitFirst | dist/debug/smtp-client.js:125 | the first piece of a split is the text before the first separator, or the whole text when there is none |
| JsText.InSplit | dist/debug/smtp-client.js:394 | every character other than the separator lies in some piece of the split |
| JsText.TrimStart | dist/debug/smtp-client.js:109 | removes exactly the leading white space |
| JsText.TrimEnd | dist/debug/smtp-client.js:109 | removes exactly the trailing white space |
| JsText.ToUpperAscii | dist/debug/smtp-client.js:109 | keeps the length and maps exactly the ASCII lower-case letters to upper case, so no lower-case ASCII letter is left |
| JsText.ParseInt | dist/debug/smtp-client.js:97 | `parseInt(s, 10)` is NaN (None) exactly when no digit follows the leading white space and sign |
| JsText.ParseIntString | dist/debug/smtp-client.js:97 | `parseInt` reads back every integer written in decimal |
| JsText.NatToString | dist/debug/smtp-client.js:238 | the decimal digits of n: non-empty, all digits, and of value n |
| JsText.CollapseWhiteSpace | dist/debug/smtp-client.js:378 | `replace(/\s\s+/g, ' ')` leaves no two white-space characters in a row, empties only the empty string and keeps a leading non-space character |
| JsText.CollapseFixpoint | dist/debug/smtp-client.js:378 | a string without a white-space run is left unchanged |
| JsText.CollapseIdempotent | dist/debug/smtp-client.js:378 | collapsing twice is collapsing once |
| JsText.Substr | dist/debug/smtp-client.js:136 | `substr(start)` is what `substr(0, start)` leaves over: the two put together give the string back, and the rest has length `|s| - start`, or none past the end |
| JsText.Drop | dist/debug/smtp-client.js:68 | `slice(n)` keeps the elements from index n on, in order: the first n followed by the result give the array back, and past the end it is empty |
| Reply.ParseReplyCode | smtp-channel.ts:96-98 | the code is present exactly for a non-empty line, is a prefix of it, and is its first three characters (the whole line when shorter); the same in `dist/debug/smtp-channel.js` |
| Reply.IsLastReply | smtp-channel.ts:100-102 | null exactly for a missing or empty line; true exactly when the line has a fourth character and it is a space; the same in `dist/debug/smtp-channel.js` |
| Reply.ParseFormatted | smtp-channel.ts:96-102 | a line written as code, `-` or space, text reads back as that code and that continuation mark |
| Delivery.Settle | smtp-channel.ts:223-225 | a promise settles once: a pending cell takes the value, a settled cell and every other cell stay as they were |
| Delivery.Detach | smtp-channel.ts:229-232 | removing a resolver's two guards keeps exactly the other listeners |
| Delivery.WithoutKind | smtp-channel.ts:164-168 | `removeAllListeners(kind)` keeps exactly the listeners of the other kinds |
| Delivery.OfKind | smtp-channel.ts:235-236 | the listeners an event calls are exactly those of its kind |
| Delivery.LineListeners | smtp-channel.ts:229-232 | a line adds no listener and keeps every channel handler |
| Delivery.FirstEnd | smtp-channel.ts:223-225 | the first line whose fourth character is a space: it ends the reply and no earlier line does; None when no line does |
| Delivery.Outcome | smtp-channel.ts:211-233 | a resolved reply code always has three characters, and lines never reject a command |
| Delivery.LineCellsAt | smtp-channel.ts:211-233 | one line resolves every pending subscribed command with the line's code exactly when it is a last line; every other promise is unchanged |
| Delivery.LinesCellsAt | smtp-channel.ts:279-285 | delivering lines resolves a pending subscribed command with the code of the first last line among them, and leaves every other promise unchanged |
| Delivery.SettledStays | smtp-channel.ts:223-225 | a settled promise is never changed by later lines |
| Delivery.CollectedLines | smtp-channel.ts:218-220 | a handler subscribed k times receives every delivered line k times, in order |
| Delivery.CollectedCall | smtp-channel.ts:218-220 | a subscription hands a line to its own handler and to no other |
| Delivery.EchoOnce | smtp-channel.ts:237 | subscribed once, a handler receives exactly the delivered lines |
| Delivery.EchoFirst | dist/debug/smtp-client.js:322-340 | a handler subscribed k times receives k times as many lines, and the first is the reply's first line |
| Delivery.CloseCellsAt | smtp-channel.ts:196-201 | a `close` rejects with "Socket has closed unexpectedly" exactly the pending commands whose close guard is attached |
| Delivery.CloseListeners | smtp-channel.ts:258-260 | after a `close` only listeners that were there remain, and none once `_onClose` has run |
| Delivery.ErrorCellsAt | smtp-channel.ts:203-209 | an `error` rejects with the error exactly the pending commands whose error guard or handshake listener is attached |
| Delivery.ErrorListeners | smtp-channel.ts:203-209 | an `error` adds no listener and keeps every channel handler |
| Delivery.Replies | smtp-channel.ts:282-289 | one reply event per received line, in order |
| Delivery.Commands | smtp-channel.ts:294-297 | one command event per sent line, in order |
| Channel.SMTPChannel.constructor | smtp-channel.ts:29-58 | no socket, not secure, no listener, no command and empty framers |
| Channel.SMTPChannel.Connect | smtp-channel.ts:111-133 | with a socket already there, a command resolved with nothing (rejected under `compiledGuards`, as `dist/debug/smtp-channel.js` does) and nothing else changes; otherwise a new socket with the command's two guards and subscription and a pending connect callback |
| Channel.SMTPChannel.SocketConnect | smtp-channel.ts:119-186 | the connect callback adds the five channel handlers and sets `isSecure` to the configured `secure`; the TLS callback drops the `error` listeners, adds the five handlers, sets `isSecure` and resolves the negotiation; `isSecure` becomes true only when the TLS socket connects |
| Channel.SMTPChannel.FireClose | smtp-channel.ts:196-201 | the fired `close` listeners run in order: guards reject their command and detach, and `_onClose` drops the socket and emits on the close subject |
| Channel.SMTPChannel.CloseRound | smtp-channel.ts:196-201 | the `close` listeners, run in order, settle, detach and notify exactly as `CloseCells`, `CloseListeners` and `CloseNotices` say |
| Channel.SMTPChannel.SocketClose | smtp-channel.ts:258-261 | a `close` runs exactly the close listeners of the held socket; the socket becomes null when `_onClose` is among them |
| Channel.SMTPChannel.Close | smtp-channel.ts:135-146 | with no socket, a command resolved with nothing (rejected under `compiledGuards`, as `dist/debug/smtp-channel.js` does); otherwise the close listeners run, the new command resolves, and no socket and no listener remain |
| Channel.SMTPChannel.ResolveCommand | smtp-channel.ts:235-237 | adds exactly the command's close and error guards and one subscription for it |
| Channel.SMTPChannel.OnSend | smtp-channel.ts:291-298 | the send framer is fed the chunk; one send event, then one command event per framed line |
| Channel.SMTPChannel.CommandNotices | smtp-channel.ts:294-297 | one command event per framed line, in order |
| Channel.SMTPChannel.Write | smtp-channel.ts:148-160 | without a socket the command is rejected with "Socket has closed", nothing is written and no resolver is armed; otherwise guards and subscription are armed before the data is written and logged; `dist/debug/smtp-channel.js` does the same |
| Channel.SMTPChannel.Subscriptions | smtp-channel.ts:211-233 | every subscription, in order, calls its handler with the line, its last-line flag and its code, resolves on a last line and detaches its guards |
| Channel.SMTPChannel.OnLine | smtp-channel.ts:211-233 | one subscription calls its handler, if any, with the line, its last-line flag and its code; only a last line resolves its command with the code and detaches its two guards |
| Channel.SMTPChannel.Deliveries | smtp-channel.ts:279-285 | all the lines reach the subscriptions in order, then one reply event is emitted per line |
| Channel.SMTPChannel.DeliverLines | smtp-channel.ts:282-284 | the channel's handler calls, promises, listeners and events become those of delivering the lines; the socket, the subscriptions and the writes are untouched |
| Channel.SMTPChannel.OnReceive | smtp-channel.ts:279-285 | the receive framer is fed the chunk; one receive event, the framed lines reach the subscriptions and one reply event each |
| Channel.SMTPChannel.SocketData | smtp-channel.ts:279-285 | a `data` event is handled only while `_onReceive` is registered |
| Channel.SMTPChannel.SocketReply | smtp-channel.ts:279-285 | a chunk carrying whole reply lines, on an empty receive buffer, delivers exactly those lines and leaves the buffer empty; a `data` handler stays registered exactly when it was |
| Channel.SMTPChannel.SocketEnd | smtp-channel.ts:271-273 | an `end` event is logged only while `_onEnd` is registered; nothing else changes |
| Channel.SMTPChannel.SocketError | smtp-channel.ts:203-209 | the `error` listeners run in order: guards and handshakes reject their command with the error, guards detach, `_onError` emits it |
| Channel.SMTPChannel.ErrorRound | smtp-channel.ts:203-209 | the `error` listeners, run in order, reject, detach and notify exactly as `ErrorCells`, `ErrorListeners` and `ErrorNotices` say |
| Channel.SMTPChannel.SocketTimeout | smtp-channel.ts:300-303 | a `timeout` is logged and writes `QUIT\r\n` with a resolver of its own |
| Channel.SMTPChannel.NegotiateTLS | smtp-channel.ts:162-189 | the five kinds of listener are removed and the socket becomes a TLS socket whose only listener rejects the negotiation on `error`; with no socket the negotiation rejects; `isSecure` is not changed here; `dist/debug/smtp-channel.js` does the same |
| Base64.Encode | dist/debug/smtp-client.js:298 | base64 output is 4 characters per started group of 3 bytes and never holds a line feed |
| Base64.DecodeEncode | dist/debug/smtp-client.js:298 | decoding the base64 of any bytes gives them back |
| Base64.Utf8Ascii | dist/debug/smtp-client.js:330 | the UTF-8 of an ASCII string is its character codes |
| Base64.Utf8Char | dist/debug/smtp-client.js:298 | one to four bytes per character, a single byte exactly for ASCII, a lead byte first and continuation bytes `10xxxxxx` after it |
| Base64.Utf8 | dist/debug/smtp-client.js:298 | between one and four bytes per character, and a non-empty string starts with a lead byte |
| Base64.UsernamePrompt | dist/debug/smtp-client.js:325 | `334 VXNlcm5hbWU6` carries the base64 of "Username:" |
| Base64.PasswordPrompt | dist/debug/smtp-client.js:334 | `334 UGFzc3dvcmQ6` carries the base64 of "Password:" |
| Commands.CredentialsDecode | dist/debug/smtp-client.js:298-299 | the AUTH PLAIN argument decodes to the UTF-8 of NUL, user name, NUL, password, and an AUTH LOGIN answer decodes to the UTF-8 of the secret |
| Commands.GreetingLines | dist/debug/smtp-client.js:42-64 | HELO and EHLO with a host name holding no line feed are one command line each and leave nothing buffered |
| Commands.AuthPlainLine | dist/debug/smtp-client.js:298-299 | AUTH PLAIN is one command line whatever the credentials hold, because base64 has no line feed |
| Commands.DataBodyLines | dist/debug/smtp-client.js:249 | the message goes out as the lines it holds followed by the end-of-data line `.`, with nothing left buffered |
| Commands.OneCommandLine | smtp-channel.ts:291-298 | a command whose argument holds no line feed is framed as exactly one command line |
| Commands.FindExtension | dist/debug/smtp-client.js:89 | finds an entry whose first space-separated token is the name, and finds none exactly when no entry has that token |
| Commands.HasExtension | dist/debug/smtp-client.js:88-90 | true only when some non-empty entry has the name as its first token, and false when none has |
| Commands.HasExtensionIff | dist/debug/smtp-client.js:88-90 | for a non-empty name, `hasExtension` holds exactly when some entry's first token equals the name |
| Commands.GetDataSizeLimit | dist/debug/smtp-client.js:94-102 | the limit is 0 when no SIZE entry exists |
| Commands.SizeLimitOfEntry | dist/debug/smtp-client.js:95-97 | for any first SIZE entry, the limit is `parseInt` of its second space-separated piece, and NaN when there is none |
| Commands.DataSizeLimitOf | dist/debug/smtp-client.js:94-102 | a first SIZE entry `SIZE n` gives the limit n |
| Commands.Normalize | dist/debug/smtp-client.js:109 | at most one name per piece, none holding a lower-case ASCII letter |
| Commands.NormalizeMember | dist/debug/smtp-client.js:109 | a name is in the result exactly when some non-empty piece trims and upper-cases to it |
| Commands.NormalizeNames | dist/debug/smtp-client.js:109 | upper-case words without white space pass the filter, trim and upper-casing unchanged |
| Commands.GetAuthMechanisms | dist/debug/smtp-client.js:106-114 | no mechanism without an AUTH entry, and no mechanism holds a lower-case ASCII letter |
| Commands.AuthMechanismsOfEntry | dist/debug/smtp-client.js:107-109 | for any first AUTH entry, `slice(1)` drops exactly the keyword: the mechanisms are the normalized pieces after it |
| Commands.MechanismAdvertised | dist/debug/smtp-client.js:107-109 | for any first AUTH entry, a mechanism (LOGIN for `authLogin`) is advertised exactly when a non-empty piece after the keyword trims and upper-cases to it |
| Commands.AuthMechanismsOf | dist/debug/smtp-client.js:106-114 | an `AUTH m1 ... mk` entry of mechanism names gives exactly m1 ... mk, in order |
| Commands.FirstSpace | dist/debug/smtp-client.js:133 | the index of the first white-space character, and None exactly when there is none |
| Commands.UpToTerminator | dist/debug/smtp-client.js:133 | `(.+)` takes the longest prefix without a line terminator |
| Commands.SplitAfterSpace | dist/debug/smtp-client.js:133 | a captured text is a non-empty run without line terminator that follows some white-space character, and a string without white space captures nothing |
| Commands.ParseReplyText | dist/debug/smtp-client.js:130-138 | without ENHANCEDSTATUSCODES the text is everything after the first four characters; with it, any text is one line that follows a white-space character of that rest |
| Commands.ParseEnhancedReplyCode | dist/debug/smtp-client.js:123-126 | defined exactly when ENHANCEDSTATUSCODES is advertised, and then the longest space-free start of the line after its first four characters |
| Commands.EnhancedLineParts | dist/debug/smtp-client.js:123-138 | with ENHANCEDSTATUSCODES, a line `code status text` gives `status` as its enhanced code and `text` as its text |
| Commands.PlainReplyText | dist/debug/smtp-client.js:130-138 | without ENHANCEDSTATUSCODES, the text is everything after code and separator, and there is no enhanced code |
| Commands.Texts | dist/debug/smtp-client.js:378 | one text per line, an undefined text read as `''` |
| Commands.CreateResponseError | dist/debug/smtp-client.js:374-380 | an error is built unless there is no line and ENHANCEDSTATUSCODES is advertised (a TypeError); its message has no white-space run; its code is that of the last line; its enhanced code is that of the last line |
| Commands.SingleLineError | dist/debug/smtp-client.js:374-380 | a one-line reply without enhanced codes gives its code and its text with white space collapsed |
| Commands.GetHostname | dist/debug/smtp-client.js:389-398 | the host name always has a `.`; a missing or empty name, or one without a `.`, becomes `[127.0.0.1]` |
| Commands.HostnameOfAddress | dist/debug/smtp-client.js:394-395 | four groups of one to three digits joined by dots are sent in brackets |
| Commands.HostnameOfName | dist/debug/smtp-client.js:390-397 | a dotted name holding a character that is neither a digit nor a dot is sent as it is |
| Commands.GreetingHost | dist/debug/smtp-client.js:37-39 | a truthy `hostname` argument is used as it is; otherwise the name from `_getHostname` has a `.` |
| Commands.MatchChallenge | dist/debug/smtp-client.js:353 | a match needs `334` and white space at index 3; the group is a non-empty one-line end of the string, preceded only by white space from index 3 on |
| Commands.NoChallengeInCode | dist/debug/smtp-client.js:352-357 | a string of at most three characters never matches `/^334\s+(.+)$/` |
| Commands.ChallengeOfLine | dist/debug/smtp-client.js:353 | `334 ` followed by a one-line challenge matches, with the challenge as its group |
| Client.Settled | smtp-channel.ts:148-160 | a command on no socket is rejected with "Socket has closed", on an unconnected socket it stays pending, and a resolved code has three characters |
| Client.SimpleOutcome | dist/debug/smtp-client.js:40-50 | no socket rejects with "Socket has closed"; it never settles exactly when the command's promise does not; it fulfils only on a connected socket, with the three-character 2xx code the reply ends with |
| Client.GreetOutcome | dist/debug/smtp-client.js:81-83 | no socket rejects, an unconnected socket never settles, a fulfilled EHLO is the answer, and any fulfilment holds the 2xx code of the EHLO or the HELO reply |
| Client.DataOutcome | dist/debug/smtp-client.js:235-259 | below the limit: no socket rejects and an unconnected socket never settles; a fulfilment needs the size check passed, a connected socket, a 3xx to DATA and the 2xx the final reply ends with |
| Client.SecureOutcome | dist/debug/smtp-client.js:265-283 | a fulfilment is `true` and needs STARTTLS advertised, its 2xx, a connected socket and a successful handshake; a failed handshake after the 2xx rejects with the socket's error |
| Client.AuthLoginOutcome | dist/debug/smtp-client.js:316-350 | with LOGIN advertised, no socket rejects and an unconnected socket never settles; a fulfilment needs LOGIN, the user name prompt first in the first reply, the password prompt first in the second and the 2xx the third ends with |
| Client.LoginOutcome | dist/debug/smtp-client.js:324-349 | the rounds after LOGIN is known: the same conditions on the three replies |
| Client.PasswordOutcome | dist/debug/smtp-client.js:333-349 | a fulfilment needs the password prompt first in the second reply and the 2xx the third ends with |
| Client.CramOutcome | dist/debug/smtp-client.js:351-369 | fulfils only with null and only on a connected socket; no socket rejects; never settles exactly when the promise does not |
| Client.ConnectOutcome | dist/debug/smtp-client.js:19-30 | with a socket already held it always fails, with the compiled rejection or the TypeError; a connection error rejects with it; a fulfilment is the 2xx code the greeting ends with |
| Client.Checked | dist/debug/smtp-client.js:43-50 | fulfilled only with a resolved code that starts with the expected digit; never settles exactly when the promise does not |
| Client.Prompted | dist/debug/smtp-client.js:324-341 | an AUTH LOGIN step goes on only when the first collected line is the prompt |
| Client.EhloExtensions | dist/debug/smtp-client.js:66-68 | one extension per reply line after the first, each that line after its first four characters |
| Client.CountAppend | smtp-channel.ts:237 | a new subscription adds one to its handler's count |
| Client.GuardsOnError | smtp-channel.ts:203-209 | an `error` before a new socket connects rejects the connect with the error and leaves no data handler |
| Client.SMTPClient.constructor | dist/debug/smtp-client.js:5-13 | no socket, no extension, nothing written |
| Client.SMTPClient.NewHandler | dist/debug/smtp-client.js:21 | each `lines.push` handler is new and subscribed to nothing |
| Client.SMTPClient.Deliver | smtp-channel.ts:279-285 | a reply on a connected socket is framed and reaches the subscriptions; on any other link nothing happens |
| Client.SMTPClient.Exchange | smtp-channel.ts:148-160 | a written command settles as `Settled` says, is written only when there is a socket, and its handler is subscribed once more and collects the reply once per subscription |
| Client.SMTPClient.Send | smtp-channel.ts:148-160 | without a socket the command is rejected with "Socket has closed" and nothing is written; otherwise it is pending, its subscription is the newest, the command is written and its handler counts once more |
| Client.SMTPClient.AwaitReply | smtp-channel.ts:211-237 | the reply settles the written command as `Settled` says, and the handler collects the reply once per subscription |
| Client.SMTPClient.Round | dist/debug/smtp-client.js:241-249 | a write reusing a handler subscribed k-1 times: the handler collects every reply line k times |
| Client.SMTPClient.Simple | dist/debug/smtp-client.js:40-50 | one command with a fresh handler: the answer is `SimpleOutcome` and the command is written once when there is a socket |
| Client.SMTPClient.Helo | dist/debug/smtp-client.js:36-51 | writes `HELO host\r\n` and needs a 2xx |
| Client.SMTPClient.Ehlo | dist/debug/smtp-client.js:58-75 | writes `EHLO host\r\n`, needs a 2xx, and on success rebuilds the extension list from the reply |
| Client.SMTPClient.Greet | dist/debug/smtp-client.js:81-83 | EHLO, then HELO only when EHLO is rejected |
| Client.SMTPClient.Mail | dist/debug/smtp-client.js:144-156 | writes `MAIL FROM:<from>\r\n` and needs a 2xx |
| Client.SMTPClient.Rcpt | dist/debug/smtp-client.js:162-174 | writes `RCPT TO:<to>\r\n` and needs a 2xx |
| Client.SMTPClient.Noop | dist/debug/smtp-client.js:180-192 | writes `NOOP\r\n` and needs a 2xx |
| Client.SMTPClient.Rset | dist/debug/smtp-client.js:198-210 | writes `RSET\r\n` and needs a 2xx |
| Client.SMTPClient.Quit | dist/debug/smtp-client.js:216-228 | writes `QUIT\r\n` and needs a 2xx |
| Client.SMTPClient.AuthPlain | dist/debug/smtp-client.js:291-308 | writes `AUTH PLAIN` with the base64 token, whatever mechanisms are advertised, and needs a 2xx |
| Client.SMTPClient.Data | dist/debug/smtp-client.js:235-259 | refuses a message above the SIZE limit before writing; otherwise DATA needs a 3xx before the message and `.` are written, and the final reply needs a 2xx |
| Client.SMTPClient.Handshake | smtp-channel.ts:162-189 | the TLS negotiation fulfils and makes the channel secure and connected when the handshake succeeds, and rejects with the socket's error otherwise |
| Client.SMTPClient.Secure | dist/debug/smtp-client.js:265-283 | throws before writing when STARTTLS is not advertised; otherwise STARTTLS needs a 2xx before the upgrade; the link becomes connected after a successful handshake, stays unconnected after a failed one and is unchanged when STARTTLS fails; the channel is secure exactly when `secure` fulfils or it already was |
| Client.SMTPClient.AuthLogin | dist/debug/smtp-client.js:316-350 | throws before writing unless LOGIN is advertised; then runs the three rounds |
| Client.SMTPClient.LoginRounds | dist/debug/smtp-client.js:324-332 | AUTH LOGIN, then the user name only once the user name prompt came first |
| Client.SMTPClient.PasswordRounds | dist/debug/smtp-client.js:333-349 | the password only once the password prompt came first, then a 2xx |
| Client.SMTPClient.AuthCramMd5 | dist/debug/smtp-client.js:351-369 | writes `AUTH CRAM-MD5\r\n` with no handler and nothing after it |
| Client.SMTPClient.Connect | dist/debug/smtp-client.js:19-30 | with a socket already held, the TypeError (or the compiled rejection) and nothing changes; otherwise the connection error with the security flag kept, or the greeting checked for a 2xx and a channel as secure as configured |
| Client.SMTPClient.Refused | smtp-channel.ts:203-209 | a new socket that emits `error` before connecting rejects the connect with that error |
| Client.SMTPClient.Greeted | smtp-channel.ts:119-131 | a new socket that connects is ready and its greeting settles the connect |
| ClientProperties.MultiLineSettles | smtp-channel.ts:211-233 | a well-formed multi-line reply settles its command at its last line with its code |
| ClientProperties.SimpleAnswer | dist/debug/smtp-client.js:40-50 | a one-command verb is rejected with "Socket has closed" without a socket and never settles before the socket connects; on a connected socket it settles at the first line that ends the reply, fulfilled with that line's code when it starts with `2` and otherwise rejected with an error built from all the lines received |
| ClientProperties.EhloRoundTrip | dist/debug/smtp-client.js:58-75 | a 2xx multi-line EHLO reply fulfils with its code and makes the texts of every line after the first the extension list |
| ClientProperties.GreetFallsBack | dist/debug/smtp-client.js:81-83 | a rejected EHLO is followed by HELO, whose reply decides, and both commands are written |
| ClientProperties.SizeLimitGate | dist/debug/smtp-client.js:236-239 | an advertised `SIZE n` refuses exactly the messages larger than n bytes |
| ClientProperties.SizeWithoutNumber | dist/debug/smtp-client.js:236-237 | a first SIZE entry with no second piece, or none whose `parseInt` finds a digit, gives the NaN limit, and no size is refused |
| ClientProperties.BareSizeKeyword | dist/debug/smtp-client.js:236-237 | a bare `SIZE` entry refuses no message |
| ClientProperties.SizeAfterTwoSpaces | dist/debug/smtp-client.js:97 | `SIZE  10`, with two spaces, reads no number and refuses no message |
| ClientProperties.TooLargeWritesNothing | dist/debug/smtp-client.js:236-239 | a refused size throws the size error synchronously and writes nothing; with no SIZE entry every positive size is refused |
| ClientProperties.OneLineReply | smtp-channel.ts:211-233 | a one-line reply settles with its code and reaches a handler subscribed k times as k copies |
| ClientProperties.TwiceReceivedError | dist/debug/smtp-client.js:374-380 | an error built from a line received twice repeats its text |
| ClientProperties.DataScript | dist/debug/smtp-client.js:240-258 | after a 3xx to DATA, `DATA\r\n` and `source\r\n.\r\n` are written; a 2xx final reply fulfils with its code, and a rejection's message holds the server's text twice |
| ClientProperties.SecureScript | dist/debug/smtp-client.js:265-283 | without STARTTLS, the STARTTLS error and no write; with it, `STARTTLS\r\n` is written and a 2xx hands the answer to the TLS negotiation |
| ClientProperties.PromptAccepted | dist/debug/smtp-client.js:325 | a reply that is exactly the prompt lets the step go on, however often the handler is subscribed |
| ClientProperties.PromptsAccepted | dist/debug/smtp-client.js:324-341 | both AUTH LOGIN prompts let their step go on |
| ClientProperties.LoginRoundsScript | dist/debug/smtp-client.js:324-349 | with both prompts, AUTH LOGIN, the user name and the password are written in turn, and the last reply, received three times, decides |
| ClientProperties.AuthLoginScript | dist/debug/smtp-client.js:316-349 | with LOGIN advertised and both prompts, the three writes, the last reply's code on a 2xx, and otherwise an error built from three copies of it |
| ClientProperties.AuthLoginGuards | dist/debug/smtp-client.js:317-327 | without LOGIN, the LOGIN error and no write; when the first reply is not the user name prompt, an error from that reply and only AUTH LOGIN written |
| ClientProperties.WrongUserPrompt | dist/debug/smtp-client.js:324-327 | a first reply that ends without the user name prompt makes an error from that reply |
| ClientProperties.CramYieldsNull | dist/debug/smtp-client.js:352-357 | every reply that ends fulfils `authCramMd5` with null |
| ClientProperties.ConnectScript | dist/debug/smtp-client.js:19-30 | a new connection: the socket error, or the greeting's code on a 2xx, or an error built from the greeting; with a socket already held, the TypeError or the compiled rejection |

## Left out

- Sockets and the Node `net`, `tls` and `stream` libraries. This covers
  `_createSocket`, `_convertToStream`, `_createOnSendStream` and the pipes
  (smtp-channel.ts:104-109, 156-158, 240-256). They are replaced by a socket
  identity, a listener list and a write log. `setEncoding` and `setTimeout` are
  not modelled.
- The `promised-timeout` race and the `timeout` parameters of every operation.
  They are timers. The socket's `timeout` event is modelled (`SocketTimeout`:
  log and `QUIT`). A timer that fires is not.
- rxjs microtask ordering. Each line's handler call happens before its
  promise settles, and the `Promise.resolve().then` chain is flattened into
  these steps. A handler that throws (the `.catch(reject)`) is not modelled.
  The client's handlers only push.
- `error` with no listener. Node throws on such an event, and the listener
  list leaves this out.
- The HMAC-MD5 digest and the second write of `authCramMd5`. They are foreign
  crypto and are unreachable, because the challenge never matches.
- `os.hostname()` is a parameter.
- `Buffer` conversions. UTF-8 is modelled for every code point. The `'binary'`
  decoding of chunks and the UTF-16 surrogate pairs of JavaScript strings are
  not.
- Upper-casing is ASCII only. JavaScript also upper-cases other letters.
- JavaScript numbers. `parseInt` is exact on unbounded integers. A size
  limit above 2^53 and a fractional `sourceSize` are not modelled.
- `null` defaults. The user name, password, sender or recipient default to
  `null`, and `${null}` is written as the text "null". The model takes strings.
- Client.SMTPClient.Deliver: a reply arrives as one `data` chunk after its
  command is written. Replies split across chunks follow from
  `LineFraming.ChunkIndependence`, but no script lemma states them.
- The client extends the channel. The model holds the channel as a field.
- src/mailsender.ts, src/mailsender.service.ts and dist/debug/mailsender.js:
  orchestration with no protocol logic. The `.d.ts` files and
  config/webpack.prod.config.js: declarations and build configuration.
- `isSecure()` and the subject getters: accessors, read as fields.
- Synchronous throws. `data` (dist/debug/smtp-client.js:237-238 for the size),
  `secure` (268, no STARTTLS) and `authLogin` (319, no LOGIN) throw before they
  return a promise, so a caller's `.catch` does not see those errors. The model
  returns them as `Answer.Failed`, the same value as a rejected promise.
